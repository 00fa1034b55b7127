# streaming-application, modelled in Dafny

streaming-application is a small Spring web service that stores opaque binary
resources. A POST saves the request body and returns a record of metadata
under a fresh identifier. HEAD returns that metadata as HTTP headers, GET
returns the body with the same headers, and DELETE removes both.

Metadata travels as HTTP header fields:

- On POST, every header named `xxx-<letters and underscores>` (the prefix is
  case-insensitive) becomes a metadata entry under its lower-cased name.
  `Content-Type` and `Content-Length` are added under their own names.
- On HEAD and GET, names on a fixed allow-list of standard HTTP field names
  are emitted as they are. Every other key is emitted with the `xxx-` prefix
  put back.

The model covers four parts, one module each:

| module | file | models |
|---|---|---|
| `StandardHeaders` | standard_headers.dfy | the allow-list and `isStandardHeader` |
| `Metadata` | resource_metadata.dfy | the `ResourceMetadata` record (a datatype) and its `FileHeadResponseBuilder` (a class whose `with...` methods update its fields) |
| `FileDataSource` | file_data_source.dfy | the storage engine: specification functions over a `Store` value, and a class whose methods change the two maps it owns, proved against those functions |
| `StreamingController` | streaming_controller.dfy | the metadata header pattern, `extractMetadata`, the metadata assembly of `post`, `post` itself, `buildHttpHeaders`, and the `head` and `get` handlers |

Supporting modules:

- `JavaLang` (java_lang.dfy) states the Java library behaviour the core relies
  on: `int` wrap-around, ASCII `toLowerCase`/`equalsIgnoreCase`, and
  `Integer.toString`/`Integer.parseInt`.
- `Errors` (errors.dfy) turns the exceptions into one datatype.
- `Wrappers` (wrappers.dfy) holds `Option` and `Result`.
- `HeaderRoundTrip` (round_trip.dfy) proves that the header codec round-trips.
  Metadata that HEAD emits and a client POSTs back is assembled unchanged.
- `PostHeadGetDelete` (scenario.dfy) composes the repository's integration
  test scenario from the modelled operations.

Inputs the code does not control are parameters:

- the random UUID of a new resource is the `identifier` argument;
- the request body is a sequence of chunks, one per `read` call;
- an I/O failure is an `IoFault` value (`createNewFile` fails, opening the
  output stream fails, or a given read fails) or a boolean flag;
- a servlet container without `getHeaderNames()` support is a flag of the `Request`.

## Model

| member | source | states |
|---|---|---|
| StandardHeaders.StandardNamesCapitalised | src/main/java/org/nanocontext/streamingapplication/StandardHeaders.java:14-73 | every allow-listed name starts with an upper-case letter other than `X`, so no listed name can look like an `xxx-` metadata header |
| StandardHeaders.RequiredKeysAreStandard | src/main/java/org/nanocontext/streamingapplication/StandardHeaders.java:35-38 | `Content-Type` and `Content-Length` are on the list, so they are emitted under their own names |
| StandardHeaders.MembershipIsCaseSensitive | src/main/java/org/nanocontext/streamingapplication/StandardHeaders.java:78-80 | `isStandardHeader` is an exact `contains`: the lower-case spelling of a listed name is not listed |
| JavaLang.Wrap32 | src/main/java/org/nanocontext/streamingapplication/FileDataSource.java:66 | the `int` sum is the exact sum modulo 2^32, in the 32-bit range, and equal to the exact sum when that is in range |
| JavaLang.ParseIntRoundTrip | src/main/java/org/nanocontext/streamingapplication/StreamingController.java:65 | an `int` written with `Integer.toString` parses back with `getIntHeader`'s `Integer.parseInt` to the same value |
| Metadata.ResourceMetadata.GetLength | src/main/java/org/nanocontext/streamingapplication/ResourceMetadata.java:39-41 | null exactly when there is no `Content-Length` entry; the stored number when it holds one; a `ClassCastException` exactly when it holds a string |
| Metadata.ResourceMetadata.GetContentType | src/main/java/org/nanocontext/streamingapplication/ResourceMetadata.java:43-45 | null exactly when there is no `Content-Type` entry; the stored string when it holds one; a `ClassCastException` exactly when it holds a number |
| Metadata.ResourceMetadata.GetMetadataAsString | src/main/java/org/nanocontext/streamingapplication/ResourceMetadata.java:52-55 | fails with a null dereference exactly when the key is absent, otherwise returns the value's `toString` |
| Metadata.ResourceMetadata.GetMetadataAsInt | src/main/java/org/nanocontext/streamingapplication/ResourceMetadata.java:63-69 | a value exactly when the key holds a number, and then that number; null for a string or an absent key |
| Metadata.ResourceMetadata.HashCode | src/main/java/org/nanocontext/streamingapplication/ResourceMetadata.java:92-95 | `Objects.hash(identifier)` is a 32-bit `int` |
| Metadata.EqualityByIdentifier | src/main/java/org/nanocontext/streamingapplication/ResourceMetadata.java:79-95 | two records are equal exactly when their identifiers are; equal records hash alike; the metadata map plays no part |
| Metadata.Finalize | src/main/java/org/nanocontext/streamingapplication/ResourceMetadata.java:160-168 | `build` succeeds exactly when both `Content-Length` and `Content-Type` are present, with the builder's identifier and map; a missing `Content-Length` is reported first, then a missing `Content-Type` |
| Metadata.FinalizedRecordIsComplete | src/main/java/org/nanocontext/streamingapplication/ResourceMetadata.java:160-168 | a built record answers `getLength` and `getContentType` with the values put in |
| Metadata.FileHeadResponseBuilder.constructor | src/main/java/org/nanocontext/streamingapplication/ResourceMetadata.java:105-114 | a new builder has no identifier and an empty map |
| Metadata.FileHeadResponseBuilder.WithIdentifier | src/main/java/org/nanocontext/streamingapplication/ResourceMetadata.java:116-119 | sets the identifier, leaves the map, returns the same builder |
| Metadata.FileHeadResponseBuilder.WithLength | src/main/java/org/nanocontext/streamingapplication/ResourceMetadata.java:121-124 | puts the length under `Content-Length`, leaves the identifier |
| Metadata.FileHeadResponseBuilder.WithContentType | src/main/java/org/nanocontext/streamingapplication/ResourceMetadata.java:126-129 | puts the type under `Content-Type`, leaves the identifier |
| Metadata.FileHeadResponseBuilder.WithAdditionalEntry | src/main/java/org/nanocontext/streamingapplication/ResourceMetadata.java:131-134 | puts one string entry, overwriting an earlier value |
| Metadata.FileHeadResponseBuilder.WithAdditionalMetadata | src/main/java/org/nanocontext/streamingapplication/ResourceMetadata.java:136-139 | `putAll`: the keys are the union, incoming values win, other entries stay |
| Metadata.FileHeadResponseBuilder.With | src/main/java/org/nanocontext/streamingapplication/ResourceMetadata.java:149-154 | as written: merges the record's map like `putAll` and leaves the builder's identifier unchanged, whatever the record's identifier is |
| Metadata.FileHeadResponseBuilder.WithCopyingIdentifier | src/main/java/org/nanocontext/streamingapplication/ResourceMetadata.java:141-154 | as documented: a set identifier is kept, a missing one is taken from the record; the map gains the record's entries |
| Metadata.FileHeadResponseBuilder.Build | src/main/java/org/nanocontext/streamingapplication/ResourceMetadata.java:160-168 | the outcome is `Finalize` of the builder's state (see above) |
| Metadata.WithNeverCopiesIdentifier | src/main/java/org/nanocontext/streamingapplication/ResourceMetadata.java:149-154 | a fresh builder given a record with identifier `a-record-id` still has no identifier afterwards |
| Metadata.WithCopyingIdentifierCopies | src/main/java/org/nanocontext/streamingapplication/ResourceMetadata.java:141-145 | with the documented behaviour the same builder ends up with `a-record-id` |
| FileDataSource.ConcatPrefix | src/main/java/org/nanocontext/streamingapplication/FileDataSource.java:64-66 | the bytes written after any number of chunks are a prefix of the full content |
| FileDataSource.CreateSucceeds | src/main/java/org/nanocontext/streamingapplication/FileDataSource.java:61-78 | `createResource` succeeds exactly when the file is created, the copy finishes and the input carries a `Content-Type`; otherwise `build` reports the missing type |
| FileDataSource.CreatedRecordMeasuresContent | src/main/java/org/nanocontext/streamingapplication/FileDataSource.java:59-76 | a created record has the new identifier and all the input's other entries; its `Content-Length` is the number of bytes written (mod 2^32), whatever the input declared; the file holds the chunks in order; the record is registered |
| FileDataSource.FailedCreateKeepsMetadata | src/main/java/org/nanocontext/streamingapplication/FileDataSource.java:61-78 | a failed create registers nothing. A failed `createNewFile` leaves the files alone. A failed `new FileOutputStream` leaves the new file empty. A failed copy leaves a partial file (a prefix of the content). No other file is touched |
| FileDataSource.CreatePreservesConsistency | src/main/java/org/nanocontext/streamingapplication/FileDataSource.java:51-91 | with a fresh identifier, every outcome of `createResource` keeps each registered record backed by its file, self-named, typed and measured |
| FileDataSource.DeletePreservesConsistency | src/main/java/org/nanocontext/streamingapplication/FileDataSource.java:129-136 | every outcome of `deleteResource` keeps that invariant |
| FileDataSource.DeleteOutcomes | src/main/java/org/nanocontext/streamingapplication/FileDataSource.java:129-136 | the record is gone afterwards in every case; no record means NotFound and no change; a record whose file cannot be deleted is removed and NotFound is thrown anyway; otherwise exactly that file is removed and the record returned; the metadata of other identifiers reads as before |
| FileDataSource.CreateReadDeleteRoundTrip | src/main/java/org/nanocontext/streamingapplication/FileDataSource.java:51-136 | create, read metadata, read content, delete: each succeeds with the created record or content, the store returns to its original state, and afterwards the identifier is NotFound for reads and delete |
| FileDataSource.UnknownIdentifierNotFound | src/main/java/org/nanocontext/streamingapplication/FileDataSource.java:94-136 | an identifier without a file is NotFound for both reads and for delete, and delete changes nothing |
| FileDataSource.OrphanAfterFailedOpen | src/main/java/org/nanocontext/streamingapplication/FileDataSource.java:62-63 | when opening the stream fails after `createNewFile`, the call fails, the metadata read says NotFound, the content read serves the empty file, and delete cannot remove it |
| FileDataSource.OrphanAfterFailedCopy | src/main/java/org/nanocontext/streamingapplication/FileDataSource.java:62-78 | after a copy that fails part-way the metadata read says NotFound, the content read serves the partial file, and delete cannot remove it |
| FileDataSource.FileDataSource.constructor | src/main/java/org/nanocontext/streamingapplication/FileDataSource.java:24-40 | a new data source has no records over whatever files the directory holds, and is consistent |
| FileDataSource.FileDataSource.Read | src/main/java/org/nanocontext/streamingapplication/FileDataSource.java:64 | `read(buffy)` throws exactly at the faulty read, returns -1 at the end of the stream, and otherwise fills the buffer with the next chunk and returns its size |
| FileDataSource.FileDataSource.CopyStream | src/main/java/org/nanocontext/streamingapplication/FileDataSource.java:59-67 | the copy loop fails exactly when the stream fails before its end, and then leaves the chunks read so far in the file; otherwise the file holds all chunks and `length` is their total size in `int` arithmetic |
| FileDataSource.FileDataSource.CreateResource | src/main/java/org/nanocontext/streamingapplication/FileDataSource.java:51-91 | the new state and the result are those of `Create` on the old state, and the store stays consistent |
| FileDataSource.FileDataSource.BuildRecord | src/main/java/org/nanocontext/streamingapplication/FileDataSource.java:71-75 | the builder chain gives `build`'s outcome for the input's entries with the measured length and the new identifier |
| FileDataSource.FileDataSource.ReadResourceMetadata | src/main/java/org/nanocontext/streamingapplication/FileDataSource.java:94-99 | the registered record exactly when there is one, otherwise NotFound |
| FileDataSource.FileDataSource.ReadResourceContent | src/main/java/org/nanocontext/streamingapplication/FileDataSource.java:110-120 | the file's content, RetrievalFailure when opening fails, and NotFound exactly when there is no file; the record is not consulted |
| FileDataSource.FileDataSource.DeleteResource | src/main/java/org/nanocontext/streamingapplication/FileDataSource.java:129-136 | the new state and the result are those of `Delete` on the old state, and the store stays consistent |
| StreamingController.PatternAccepts | src/main/java/org/nanocontext/streamingapplication/StreamingController.java:31-37 | `xxx-description` yields key `description`; `XXX-Cute_Cat` matches because the pattern ignores case, and yields `cute_cat` |
| StreamingController.PatternRefuses | src/main/java/org/nanocontext/streamingapplication/StreamingController.java:35-37 | the whole name must match: a hyphen, a digit or an empty name after the prefix is refused |
| StreamingController.MetadataKeyShape | src/main/java/org/nanocontext/streamingapplication/StreamingController.java:145-148 | a key taken from a matching name is non-empty and made of lower-case letters and `_` only |
| StreamingController.DecodedKeyNotStandard | src/main/java/org/nanocontext/streamingapplication/StreamingController.java:147-148 | no key `extractMetadata` can produce is on the allow-list |
| StreamingController.GetHeaderOfPresentName | src/main/java/org/nanocontext/streamingapplication/StreamingController.java:144-148 | `getHeader` of a name the request enumerates returns a value |
| StreamingController.ExtractMetadata | src/main/java/org/nanocontext/streamingapplication/StreamingController.java:136-153 | the loop's map is `Decode` of the request, or the exception when header names are unsupported |
| StreamingController.DecodeFieldsKeys | src/main/java/org/nanocontext/streamingapplication/StreamingController.java:143-150 | a key is in the extracted map exactly when some enumerated header name matches the pattern and yields it |
| StreamingController.DecodeFieldsValue | src/main/java/org/nanocontext/streamingapplication/StreamingController.java:145-148 | each extracted value is a string, the `getHeader` value of a matching header that yields its key |
| StreamingController.DecodedKeysAreNotStandard | src/main/java/org/nanocontext/streamingapplication/StreamingController.java:68-73 | extracted keys are never `Content-Type` or `Content-Length`, so the real headers cannot be overwritten by `xxx-` ones or the other way round |
| StreamingController.AssembleMetadata | src/main/java/org/nanocontext/streamingapplication/StreamingController.java:64-77 | the record `post` builds is the `Assembled` specification of the request |
| StreamingController.AssembledSpec | src/main/java/org/nanocontext/streamingapplication/StreamingController.java:64-77 | a malformed `Content-Length` or unsupported header names fail first. Without `Content-Type`, `build` refuses. Otherwise the record has no identifier and holds the extracted entries, the type and the length, which is -1 when the header is absent |
| StreamingController.Post | src/main/java/org/nanocontext/streamingapplication/StreamingController.java:62-82 | a request that does not assemble changes nothing; otherwise the data source goes through `createResource` with the assembled record, and stays consistent |
| StreamingController.EncodeNameInjective | src/main/java/org/nanocontext/streamingapplication/StreamingController.java:120-123 | distinct metadata keys are emitted under distinct header names |
| StreamingController.Head | src/main/java/org/nanocontext/streamingapplication/StreamingController.java:90-97 | NotFound exactly when there is no record; otherwise the headers `buildHttpHeaders` promises for the record's metadata |
| StreamingController.Get | src/main/java/org/nanocontext/streamingapplication/StreamingController.java:99-110 | without a record, NotFound before the file is looked at; otherwise the outcome of the content read, with the record's headers and the file's content on success |
| StreamingController.BuildHttpHeaders | src/main/java/org/nanocontext/streamingapplication/StreamingController.java:117-127 | every header comes from a key, named by the allow-list rule, with that key's string value. The header names, compared ignoring case, are exactly the names of all keys. When no two names clash ignoring case, every key's header is present with its value |
| HeaderRoundTrip.EncodedKeyDecodes | src/main/java/org/nanocontext/streamingapplication/StreamingController.java:117-153 | a key `extractMetadata` can produce is emitted as `xxx-` plus the key, which matches the pattern and yields the key again |
| HeaderRoundTrip.RequiredNamesDoNotMatch | src/main/java/org/nanocontext/streamingapplication/StreamingController.java:120-121 | `Content-Type` and `Content-Length` are emitted unprefixed and do not match the metadata pattern |
| HeaderRoundTrip.TransmissibleEncodesDistinctly | src/main/java/org/nanocontext/streamingapplication/StreamingController.java:117-127 | for metadata shaped like a stored record, no two emitted names clash ignoring case |
| HeaderRoundTrip.EmittedHeader | src/main/java/org/nanocontext/streamingapplication/StreamingController.java:117-127 | for such metadata, every key's header is emitted with the key's string value |
| HeaderRoundTrip.DecodeListedHeaders | src/main/java/org/nanocontext/streamingapplication/StreamingController.java:136-153 | sending those headers back, `extractMetadata` yields exactly the entries other than `Content-Type` and `Content-Length` |
| HeaderRoundTrip.ListedRequiredHeaders | src/main/java/org/nanocontext/streamingapplication/StreamingController.java:64-65 | sending those headers back, `getHeader` and `getIntHeader` return the stored type and length |
| HeaderRoundTrip.HeadersRoundTrip | src/main/java/org/nanocontext/streamingapplication/StreamingController.java:62-127 | the round trip for transmissible metadata: headers `buildHttpHeaders` emits for it, POSTed back, assemble the same metadata |
| HeaderRoundTrip.PostStoresTransmissible | src/main/java/org/nanocontext/streamingapplication/StreamingController.java:62-82 | every record `createResource` stores for metadata `post` assembled is transmissible: a string type, an `int` length, every other key of the decoded shape with a string value |
| HeaderRoundTrip.StoredRecordRoundTrip | src/main/java/org/nanocontext/streamingapplication/StreamingController.java:62-127 | the round trip for a record POST stored: its headers, POSTed back, assemble that record's metadata again |
| PostHeadGetDelete.PostRequestAssembles | src/test/java/org/nanocontext/streamingapplication/StreamingControllerIS.java:60-64 | the test's POST assembles description, `application/octet-stream` and a `Content-Length` of -1 |
| PostHeadGetDelete.PostStores | src/test/java/org/nanocontext/streamingapplication/StreamingControllerIS.java:60-68 | storing it in an empty data source registers the record with a `Content-Length` of 10 and writes the ten bytes |
| PostHeadGetDelete.HeadHeaders | src/test/java/org/nanocontext/streamingapplication/StreamingControllerIS.java:79-85 | HEAD reports `Content-Length` 10, the posted type and `xxx-description: The Description` |
| PostHeadGetDelete.Run | src/test/java/org/nanocontext/streamingapplication/StreamingControllerIS.java:57-101 | the whole scenario: the post is assigned the identifier; HEAD shows the length, type and description; GET returns the ten bytes; after DELETE, GET reports NotFound from its metadata read |

## Left out

- Metadata.FileHeadResponseBuilder.Build: `build` hands the builder's own `HashMap` to the record, so a later `with...` on the same builder would change the record. Every caller discards the builder right after `build`, so the record is modelled as holding a value copy.
- The DELETE handler (StreamingController.java:112-115) is a direct call of `deleteResource` and has no member of its own. Spring's response entities, status codes, JSON rendering and exception-to-status mapping are not modelled. `Get` returns the content as a value, not as an open stream.
- `HttpServletRequest` is a list of header fields plus a flag for `getHeaderNames()` support. `getHeaderNames()` enumerates the fields in list order. `getHeader` returns the first field whose name is equal ignoring case. `getIntHeader` returns -1 when that field is absent and fails with `NumberFormatException` when its value is not a decimal `int`.
- `NumberFormat` does not carry the exception's message text. `toString` of the record is not modelled.
- Spring's `HttpHeaders.set` is modelled as a replacement keyed case-insensitively. The emitted headers are a map from the name last set to its value.
- `buildHttpHeaders` iterates over a `HashMap` key set in an unspecified order. `StreamingController.BuildHttpHeaders` picks keys nondeterministically, so its contract holds for every order.
- The pattern's `UNICODE_CASE` flag and `toLowerCase` are modelled for ASCII letters only. A name with a non-ASCII letter that folds onto `[a-z_]` is outside the model.
- The allow-list holds the string values of Spring's `HttpHeaders` constants, written out. The constants' class is not part of this model.
- The constructor's checks on the root directory (null, `mkdirs`, readable and writable) are not modelled. A data source starts over an arbitrary map of existing files.
- Closing the output stream, and the exception its `close` may swallow, are not modelled.
- A `write` that fails part-way through a chunk is not modelled separately from a failing read (`CopyFailsAfter`).
- `request.getInputStream()` (StreamingController.java:79) can throw an `IOException` after the metadata is assembled and before `createResource` runs. The store is then unchanged. `StreamingController.Post` has no such outcome.
- `toLowerCase()` at StreamingController.java:148 and the case-insensitive name map behind Spring's `HttpHeaders.set` use the default locale. The model assumes a locale that lower-cases ASCII letters to ASCII letters. In a Turkish or Azeri locale `XXX-TITLE` yields a dotless `ı`, which is not `[a-z_]`. `StreamingController.MetadataKeyShape`, `StreamingController.DecodedKeyNotStandard` and the round trip hold only under that assumption.
- The random UUID is a parameter. Callers guarantee it is fresh (`identifier !in metadata && identifier !in files`), which a random UUID gives with overwhelming probability.
- The `DataSource` interface is not modelled. The controller takes the `FileDataSource` class directly.
- Concurrent requests are not modelled. The `HashMap` in `FileDataSource` is not synchronised.
- `equals`' `getClass` check is not modelled: the datatype compares only `ResourceMetadata` values.
- `Validator` and `Application` are not modelled. They play no part in the modelled operations.
- The exception classes are constructors of one `Error` datatype, carrying the identifier or key they report.

## Findings

| source | as written | input that shows it | evidently intended | confidence | as-written member | corrected member |
|---|---|---|---|---|---|---|
| src/main/java/org/nanocontext/streamingapplication/ResourceMetadata.java:149-154 | `with` calls `withIdentifier(identifier)` with the builder's own identifier, so the record's identifier is never copied | a fresh builder given a record whose identifier is `a-record-id` still has no identifier afterwards | the doc comment (lines 141-145): take the record's identifier when the builder has none, keep one that is already set | not executed | Metadata.WithNeverCopiesIdentifier | Metadata.WithCopyingIdentifierCopies |

`createResource` calls `withIdentifier` right after `with`, so the defect does
not show there. `FileDataSource.FileDataSource.BuildRecord` models that chain as
written.
