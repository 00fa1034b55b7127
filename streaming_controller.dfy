/**
 * The metadata header codec of StreamingController: decoding request headers
 * named "xxx-<name>" into metadata, assembling the metadata of a POST, and
 * encoding a record back into response headers.
 */
module StreamingController {
  import opened Wrappers
  import opened JavaLang
  import opened Errors
  import opened StandardHeaders
  import opened Metadata
  import opened FileDataSource

  /** One request header as the servlet container holds it. */
  datatype HeaderField = HeaderField(name: string, value: string)

  /**
   * An inbound request: its header fields in arrival order. When
   * `headerNamesSupported` is false the container's getHeaderNames() is null.
   */
  datatype Request = Request(fields: seq<HeaderField>, headerNamesSupported: bool)

  /** The literal part of METADATA_REGEX. */
  const MetadataPrefix: string := "xxx-"

  // ---- METADATA_REGEX = "xxx-(?<name>[a-z_]+)", CASE_INSENSITIVE ----

  /** [a-z_] under case-insensitive matching. */
  predicate IsNameChar(c: char) {
    IsLetter(c) || c == '_'
  }

  /** Matcher.matches(): the whole header name is "xxx-" and one or more name characters, in any case. */
  predicate MatchesMetadataPattern(name: string) {
    && |name| > |MetadataPrefix|
    && ToLower(name[..|MetadataPrefix|]) == MetadataPrefix
    && forall i | |MetadataPrefix| <= i < |name| :: IsNameChar(name[i])
  }

  /** The metadata key of a matching header: group "name", lower-cased. */
  function MetadataKey(name: string): string
    requires MatchesMetadataPattern(name)
  {
    ToLower(name[|MetadataPrefix|..])
  }

  /** The pattern keeps a metadata name whatever the case of its prefix, and lower-cases the key. */
  lemma PatternAccepts()
    ensures MatchesMetadataPattern("xxx-description") && MetadataKey("xxx-description") == "description"
    ensures MatchesMetadataPattern("XXX-Cute_Cat") && MetadataKey("XXX-Cute_Cat") == "cute_cat"
  {
    assert "xxx-description"[..4] == "xxx-" && "xxx-description"[4..] == "description";
    assert ToLower("XXX-Cute_Cat"[..4]) == "xxx-" && ToLower("XXX-Cute_Cat"[4..]) == "cute_cat";
  }

  /** The whole name must match: a further hyphen, a digit or an empty suffix is refused. */
  lemma PatternRefuses()
    ensures !MatchesMetadataPattern("xxx-content-type")
    ensures !MatchesMetadataPattern("xxx-a1")
    ensures !MatchesMetadataPattern("xxx-")
  {
    assert !IsNameChar("xxx-content-type"[11]);
    assert !IsNameChar("xxx-a1"[5]);
  }

  /** The shape of every decoded key: non-empty, lower-case ASCII letters and underscores only. */
  predicate IsDecodedKey(key: string) {
    |key| > 0 && forall i | 0 <= i < |key| :: IsLower(key[i]) || key[i] == '_'
  }

  /** A matching header yields a decoded-shape key: so no hyphen, no digit, no capital. */
  lemma MetadataKeyShape(name: string)
    requires MatchesMetadataPattern(name)
    ensures IsDecodedKey(MetadataKey(name))
    ensures '-' !in MetadataKey(name)
  {
    var key := MetadataKey(name);
    forall i | 0 <= i < |key|
      ensures IsLower(key[i]) || key[i] == '_'
    {
      assert key[i] == ToLowerChar(name[|MetadataPrefix| + i]);
    }
  }

  lemma LowerOfDecodedKey(key: string)
    requires IsDecodedKey(key)
    ensures ToLower(key) == key
  {
  }

  /** No allow-listed name has the shape of a decoded key, so the decoder never yields a standard key. */
  lemma DecodedKeyNotStandard(key: string)
    requires IsDecodedKey(key)
    ensures !IsStandardHeader(key)
  {
    if IsStandardHeader(key) {
      StandardNamesCapitalised(key);
      assert false;
    }
  }

  // ---- HttpServletRequest ----

  /** getHeader(name): the value of the first field whose name equals `name` ignoring case. */
  function GetHeader(fields: seq<HeaderField>, name: string): Option<string>
    decreases |fields|
  {
    if fields == [] then None
    else if EqualsIgnoreCase(fields[0].name, name) then Some(fields[0].value)
    else GetHeader(fields[1..], name)
  }

  /** The name of any present field finds a value. */
  lemma {:induction false} GetHeaderOfPresentName(fields: seq<HeaderField>, j: nat)
    requires j < |fields|
    ensures GetHeader(fields, fields[j].name).Some?
    decreases j
  {
    if j > 0 && !EqualsIgnoreCase(fields[0].name, fields[j].name) {
      GetHeaderOfPresentName(fields[1..], j - 1);
    }
  }

  /** getIntHeader(name): -1 when absent, Integer.parseInt of the value otherwise. */
  function GetIntHeader(fields: seq<HeaderField>, name: string): Result<int, Error> {
    match GetHeader(fields, name)
    case None => Ok(-1)
    case Some(s) =>
      match ParseInt(s)
      case Some(n) => Ok(n)
      case None => Err(NumberFormat(s))
  }

  // ---- extractMetadata ----

  /**
   * The map extractMetadata has built after the first n enumerated names: each
   * matching name puts its key and the header's value, a later put replacing
   * an earlier one.
   */
  function DecodeFields(fields: seq<HeaderField>, n: nat): map<string, Value>
    requires n <= |fields|
  {
    if n == 0 then map[]
    else
      var decoded := DecodeFields(fields, n - 1);
      var name := fields[n - 1].name;
      if MatchesMetadataPattern(name) then
        GetHeaderOfPresentName(fields, n - 1);
        decoded[MetadataKey(name) := Str(GetHeader(fields, name).value)]
      else decoded
  }

  /** extractMetadata as a whole: refused when the names cannot be enumerated. */
  function Decode(request: Request): Result<map<string, Value>, Error> {
    if !request.headerNamesSupported then Err(HeaderNamesUnsupported)
    else Ok(DecodeFields(request.fields, |request.fields|))
  }

  /** extractMetadata: walks the header-name enumeration, keeping the names that match. */
  method ExtractMetadata(request: Request) returns (r: Result<map<string, Value>, Error>)
    ensures r == Decode(request)
  {
    if !request.headerNamesSupported {
      return Err(HeaderNamesUnsupported);
    }
    var result: map<string, Value> := map[];
    var i := 0;
    while i < |request.fields|
      invariant i <= |request.fields|
      invariant result == DecodeFields(request.fields, i)
    {
      var headerName := request.fields[i].name;
      if MatchesMetadataPattern(headerName) {
        GetHeaderOfPresentName(request.fields, i);
        result := result[MetadataKey(headerName) := Str(GetHeader(request.fields, headerName).value)];
      }
      i := i + 1;
    }
    r := Ok(result);
  }

  /** A key is decoded exactly when some enumerated name matches the pattern and yields it. */
  lemma {:induction false} DecodeFieldsKeys(fields: seq<HeaderField>, n: nat, key: string)
    requires n <= |fields|
    ensures key in DecodeFields(fields, n) <==>
      exists j | 0 <= j < n :: MatchesMetadataPattern(fields[j].name) && MetadataKey(fields[j].name) == key
  {
    if n > 0 {
      DecodeFieldsKeys(fields, n - 1, key);
      var name := fields[n - 1].name;
      if MatchesMetadataPattern(name) && MetadataKey(name) == key {
        assert key in DecodeFields(fields, n);
      }
    }
  }

  /**
   * A decoded key has the decoded-key shape, and its value is the header value,
   * unchanged, of one of the names that yield it (the last one enumerated).
   */
  lemma {:induction false} DecodeFieldsValue(fields: seq<HeaderField>, n: nat, key: string) returns (j: nat)
    requires n <= |fields|
    requires key in DecodeFields(fields, n)
    ensures j < n && MatchesMetadataPattern(fields[j].name) && MetadataKey(fields[j].name) == key
    ensures IsDecodedKey(key)
    ensures DecodeFields(fields, n)[key].Str?
    ensures GetHeader(fields, fields[j].name) == Some(DecodeFields(fields, n)[key].s)
  {
    var name := fields[n - 1].name;
    if MatchesMetadataPattern(name) && MetadataKey(name) == key {
      MetadataKeyShape(name);
      GetHeaderOfPresentName(fields, n - 1);
      j := n - 1;
    } else {
      j := DecodeFieldsValue(fields, n - 1, key);
    }
  }

  /** The decoded map has only decoded-shape keys, so it never holds Content-Type or Content-Length. */
  lemma DecodedKeysAreNotStandard(fields: seq<HeaderField>, key: string)
    requires key in DecodeFields(fields, |fields|)
    ensures IsDecodedKey(key) && !IsStandardHeader(key)
    ensures key != ContentType && key != ContentLength
  {
    var _ := DecodeFieldsValue(fields, |fields|, key);
    DecodedKeyNotStandard(key);
    RequiredKeysAreStandard();
  }

  // ---- post: assembling the metadata ----

  /**
   * The record post builds before calling the data source: Content-Length is
   * read first (a malformed value is a NumberFormatException), then the
   * metadata headers are decoded, Content-Type is added when present,
   * Content-Length always (getIntHeader yields -1 when it is absent), and
   * build() checks both.
   */
  function Assembled(request: Request): Result<ResourceMetadata, Error> {
    var length := GetIntHeader(request.fields, ContentLength);
    if length.Err? then Err(length.error)
    else match Decode(request)
      case Err(e) => Err(e)
      case Ok(decoded) =>
        var contentType := GetHeader(request.fields, ContentType);
        var withType := if contentType.Some? then decoded[ContentType := Str(contentType.value)] else decoded;
        Finalize(None, withType[ContentLength := Num(length.value)])
  }

  /** post's metadata assembly, as the source does it, on a fresh builder. */
  method AssembleMetadata(request: Request) returns (r: Result<ResourceMetadata, Error>)
    ensures r == Assembled(request)
  {
    var contentType := GetHeader(request.fields, ContentType);
    var length := GetIntHeader(request.fields, ContentLength);
    if length.Err? {
      return Err(length.error);
    }
    var extracted := ExtractMetadata(request);
    if extracted.Err? {
      return Err(extracted.error);
    }
    var metadata := extracted.value;
    if contentType.Some? {
      metadata := metadata[ContentType := Str(contentType.value)];
    }
    metadata := metadata[ContentLength := Num(length.value)];
    var builder := new FileHeadResponseBuilder();
    builder := builder.WithAdditionalMetadata(metadata);
    assert builder.metadataMap == metadata;
    r := builder.Build();
  }

  /**
   * What post hands to the data source: it fails exactly when Content-Length
   * is malformed, the names cannot be enumerated, or Content-Type is missing;
   * otherwise every decoded entry survives (it cannot collide with the two
   * standard keys), Content-Type is the header's value and Content-Length the
   * parsed one, and no identifier is set yet.
   */
  lemma AssembledSpec(request: Request)
    ensures var length := GetIntHeader(request.fields, ContentLength);
      && (length.Err? ==> Assembled(request) == Err(length.error))
      && (length.Ok? && !request.headerNamesSupported ==> Assembled(request) == Err(HeaderNamesUnsupported))
      && ((length.Ok? && request.headerNamesSupported && GetHeader(request.fields, ContentType).None?) ==>
            Assembled(request) == Err(MissingRequired(ContentType)))
      && (Assembled(request).Ok? <==>
            length.Ok? && request.headerNamesSupported && GetHeader(request.fields, ContentType).Some?)
    ensures Assembled(request).Ok? ==>
      var rm := Assembled(request).value;
      var decoded := DecodeFields(request.fields, |request.fields|);
      && rm.identifier == None
      && rm.metadata.Keys == decoded.Keys + {ContentType, ContentLength}
      && (forall k | k in decoded :: rm.metadata[k] == decoded[k])
      && rm.metadata[ContentType] == Str(GetHeader(request.fields, ContentType).value)
      && rm.metadata[ContentLength] == Num(GetIntHeader(request.fields, ContentLength).value)
  {
    if Assembled(request).Ok? {
      var decoded := DecodeFields(request.fields, |request.fields|);
      forall k | k in decoded
        ensures k != ContentType && k != ContentLength
      {
        DecodedKeysAreNotStandard(request.fields, k);
      }
    }
  }

  /** post: assembles the metadata and, only when build() accepted it, stores the body. */
  method Post(request: Request, dataSource: FileDataSource, identifier: string,
              inStream: seq<seq<Byte>>, fault: IoFault)
    returns (r: Result<ResourceMetadata, Error>)
    requires dataSource.Valid()
    requires identifier !in dataSource.metadata && identifier !in dataSource.files
    requires forall i | 0 <= i < |inStream| :: |inStream[i]| <= BufferSize
    modifies dataSource
    ensures dataSource.Valid()
    ensures Assembled(request).Err? ==> r == Err(Assembled(request).error) && unchanged(dataSource)
    ensures Assembled(request).Ok? ==>
      (dataSource.State(), r) == Create(old(dataSource.State()), Assembled(request).value, identifier, inStream, fault)
  {
    var resourceMetadata := AssembleMetadata(request);
    if resourceMetadata.Err? {
      return Err(resourceMetadata.error);
    }
    r := dataSource.CreateResource(resourceMetadata.value, inStream, identifier, fault);
  }

  // ---- buildHttpHeaders ----

  /** The header name a metadata key is emitted under. */
  function EncodeName(key: string): string {
    if IsStandardHeader(key) then key else MetadataPrefix + key
  }

  /** Distinct keys are emitted under distinct names. */
  lemma EncodeNameInjective()
    ensures forall a, b :: EncodeName(a) == EncodeName(b) ==> a == b
  {
    forall a, b | EncodeName(a) == EncodeName(b)
      ensures a == b
    {
      if IsStandardHeader(a) && !IsStandardHeader(b) {
        StandardNamesCapitalised(a);
      } else if !IsStandardHeader(a) && IsStandardHeader(b) {
        StandardNamesCapitalised(b);
      } else if !IsStandardHeader(a) {
        assert a == EncodeName(a)[|MetadataPrefix|..];
      }
    }
  }

  /** HttpHeaders.set: replaces any header whose name equals `name` ignoring case. */
  function SetHeader(headers: map<string, string>, name: string, value: string): map<string, string> {
    (map n | n in headers && !EqualsIgnoreCase(n, name) :: headers[n])[name := value]
  }

  /** No two keys of m are emitted under names equal ignoring case. */
  ghost predicate EncodesDistinctly(m: map<string, Value>) {
    forall a, b | a in m && b in m && a != b :: !EqualsIgnoreCase(EncodeName(a), EncodeName(b))
  }

  /** Every header in h is the encoding of one of the keys in `done`, with that key's value. */
  ghost predicate FromKeys(h: map<string, string>, m: map<string, Value>, done: set<string>) {
    forall n | n in h :: exists k | k in m && k in done :: n == EncodeName(k) && h[n] == ValueString(m[k])
  }

  /** The header names of h, case-folded: what HttpHeaders compares when it looks a name up. */
  function FoldedNames(h: map<string, string>): set<string> {
    set n | n in h :: ToLower(n)
  }

  /** The names the keys in `done` are emitted under, case-folded. */
  function FoldedEncodings(done: set<string>): set<string> {
    set k | k in done :: ToLower(EncodeName(k))
  }

  /** Every key in `done` has a header under exactly its encoding, holding its value. */
  ghost predicate HoldsKeys(h: map<string, string>, m: map<string, Value>, done: set<string>) {
    forall k | k in m && k in done :: EncodeName(k) in h && h[EncodeName(k)] == ValueString(m[k])
  }

  /** h is exactly the encoding of m: one header per key, no other header. */
  ghost predicate EncodesAs(h: map<string, string>, m: map<string, Value>) {
    FromKeys(h, m, m.Keys) && HoldsKeys(h, m, m.Keys)
  }

  /** One `set` of buildHttpHeaders extends what has been emitted by one more key. */
  lemma SetHeaderKeepsFromKeys(h: map<string, string>, m: map<string, Value>, done: set<string>, key: string)
    requires key in m
    requires FromKeys(h, m, done)
    ensures FromKeys(SetHeader(h, EncodeName(key), ValueString(m[key])), m, done + {key})
  {
    var name := EncodeName(key);
    var h' := SetHeader(h, name, ValueString(m[key]));
    forall n | n in h'
      ensures exists k | k in m && k in done + {key} :: n == EncodeName(k) && h'[n] == ValueString(m[k])
    {
      if n == name {
        assert n == EncodeName(key) && h'[n] == ValueString(m[key]);
      } else {
        var k :| k in m && k in done && n == EncodeName(k) && h[n] == ValueString(m[k]);
        assert h'[n] == h[n];
      }
    }
  }

  /** A `set` leaves exactly one header per case-folded name: the new one. */
  lemma SetHeaderFoldedNames(h: map<string, string>, name: string, value: string)
    ensures FoldedNames(SetHeader(h, name, value)) == FoldedNames(h) + {ToLower(name)}
  {
    var h' := SetHeader(h, name, value);
    forall f | f in FoldedNames(h)
      ensures f in FoldedNames(h')
    {
      var n :| n in h && ToLower(n) == f;
      if !EqualsIgnoreCase(n, name) {
        assert n in h';
      } else {
        assert name in h';
      }
    }
    assert name in h';
  }

  lemma FoldedEncodingsAdd(done: set<string>, key: string)
    ensures FoldedEncodings(done + {key}) == FoldedEncodings(done) + {ToLower(EncodeName(key))}
  {
  }

  lemma SetHeaderKeepsHoldsKeys(h: map<string, string>, m: map<string, Value>, done: set<string>, key: string)
    requires key in m
    requires EncodesDistinctly(m) && HoldsKeys(h, m, done)
    ensures HoldsKeys(SetHeader(h, EncodeName(key), ValueString(m[key])), m, done + {key})
  {
    var name := EncodeName(key);
    var h' := SetHeader(h, name, ValueString(m[key]));
    forall k | k in m && k in done + {key}
      ensures EncodeName(k) in h' && h'[EncodeName(k)] == ValueString(m[k])
    {
      if k != key {
        assert !EqualsIgnoreCase(EncodeName(k), name);
      }
    }
  }

  /**
   * buildHttpHeaders: one `set` per metadata key, in the key set's iteration
   * order, under the key itself when it is standard and under "xxx-" + key
   * otherwise. Every header comes from a key and carries its value's string
   * form; every key is emitted (up to case); and when no two keys clash
   * ignoring case, the headers are exactly the encoding of the map.
   */
  method BuildHttpHeaders(rm: ResourceMetadata) returns (headers: map<string, string>)
    ensures FromKeys(headers, rm.metadata, rm.metadata.Keys)
    ensures FoldedNames(headers) == FoldedEncodings(rm.metadata.Keys)
    ensures EncodesDistinctly(rm.metadata) ==> EncodesAs(headers, rm.metadata)
  {
    headers := map[];
    var remaining := rm.MetadataKeys();
    ghost var done: set<string> := {};
    while remaining != {}
      invariant remaining <= rm.metadata.Keys
      invariant done == rm.metadata.Keys - remaining
      invariant FromKeys(headers, rm.metadata, done)
      invariant FoldedNames(headers) == FoldedEncodings(done)
      invariant EncodesDistinctly(rm.metadata) ==> HoldsKeys(headers, rm.metadata, done)
      decreases remaining
    {
      var metadataKey :| metadataKey in remaining;
      var value := rm.GetMetadataAsString(metadataKey);
      var headerName := if IsStandardHeader(metadataKey) then metadataKey else MetadataPrefix + metadataKey;
      assert headerName == EncodeName(metadataKey) && value.value == ValueString(rm.metadata[metadataKey]);
      SetHeaderKeepsFromKeys(headers, rm.metadata, done, metadataKey);
      SetHeaderFoldedNames(headers, headerName, value.value);
      FoldedEncodingsAdd(done, metadataKey);
      if EncodesDistinctly(rm.metadata) {
        SetHeaderKeepsHoldsKeys(headers, rm.metadata, done, metadataKey);
      }
      headers := SetHeader(headers, headerName, value.value);
      remaining := remaining - {metadataKey};
      done := done + {metadataKey};
    }
  }

  /** What buildHttpHeaders promises about the headers h it emits for metadata m. */
  ghost predicate HeadersFor(h: map<string, string>, m: map<string, Value>) {
    && FromKeys(h, m, m.Keys)
    && FoldedNames(h) == FoldedEncodings(m.Keys)
    && (EncodesDistinctly(m) ==> EncodesAs(h, m))
  }

  // ---- the HEAD and GET handlers ----

  /** head: the stored record's headers, or the NotFound of the metadata read. */
  method Head(dataSource: FileDataSource, identifier: string) returns (r: Result<map<string, string>, Error>)
    ensures r.Err? <==> identifier !in dataSource.metadata
    ensures r.Err? ==> r.error == NotFound(identifier)
    ensures r.Ok? ==> HeadersFor(r.value, dataSource.metadata[identifier].metadata)
  {
    var resourceMetadata := dataSource.ReadResourceMetadata(identifier);
    if resourceMetadata.Err? {
      return Err(resourceMetadata.error);
    }
    var httpHeaders := BuildHttpHeaders(resourceMetadata.value);
    r := Ok(httpHeaders);
  }

  /**
   * get: reads the record first (for the headers), then the content; a
   * missing record fails before the file is looked at.
   */
  method Get(dataSource: FileDataSource, identifier: string, openFails: bool)
    returns (r: Result<(map<string, string>, seq<Byte>), Error>)
    ensures identifier !in dataSource.metadata ==> r == Err(NotFound(identifier))
    ensures identifier in dataSource.metadata ==>
      match ReadContent(dataSource.State(), identifier, openFails)
      case Err(e) => r == Err(e)
      case Ok(content) => r.Ok? && r.value.1 == content && HeadersFor(r.value.0, dataSource.metadata[identifier].metadata)
  {
    var resourceMetadata := dataSource.ReadResourceMetadata(identifier);
    if resourceMetadata.Err? {
      return Err(resourceMetadata.error);
    }
    var httpHeaders := BuildHttpHeaders(resourceMetadata.value);
    var resourceContent := dataSource.ReadResourceContent(identifier, openFails);
    if resourceContent.Err? {
      return Err(resourceContent.error);
    }
    r := Ok((httpHeaders, resourceContent.value));
  }
}
