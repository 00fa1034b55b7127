/**
 * FileDataSource, the storage engine: resource content lives in files named by
 * the identifier under one root directory, metadata in an in-memory map.
 *
 * The directory is modelled as a map from file name to content. I/O faults,
 * which the source only meets as exceptions or `false` returns, are parameters
 * of the operations that can meet them.
 */
module FileDataSource {
  import opened Wrappers
  import opened JavaLang
  import opened Errors
  import opened StandardHeaders
  import opened Metadata

  /** A Java byte. */
  type Byte = b: int | -128 <= b < 128

  /** The size of the copy buffer. */
  const BufferSize: nat := 2048

  /** How the file-system side of one createResource call goes. */
  datatype IoFault =
    | NoFault
    /** createNewFile throws: no file is created. */
    | CreateFileFails
    /** new FileOutputStream throws after createNewFile has made the file: it stays, empty. */
    | OpenStreamFails
    /** The read call with this (0-based) number throws after that many chunks were written. */
    | CopyFailsAfter(readNumber: nat)

  /** The engine's two stores: metadata records and the files under the root directory. */
  datatype Store = Store(metadata: map<string, ResourceMetadata>, files: map<string, seq<Byte>>)

  /** The content written by copying the chunks in order. */
  function Concat(chunks: seq<seq<Byte>>): (content: seq<Byte>)
    decreases |chunks|
  {
    if chunks == [] then [] else Concat(chunks[..|chunks| - 1]) + chunks[|chunks| - 1]
  }

  /**
   * The invariant the engine keeps: every registered record has its file, is
   * named by its own key, carries a Content-Type and records as Content-Length
   * the (32-bit) size of that file. Files without a record are allowed.
   */
  ghost predicate Consistent(s: Store) {
    forall id | id in s.metadata ::
      && id in s.files
      && s.metadata[id].identifier == Some(id)
      && ContentType in s.metadata[id].metadata
      && ContentLength in s.metadata[id].metadata
      && s.metadata[id].metadata[ContentLength] == Num(Wrap32(|s.files[id]|))
  }

  /** The file-system side of createResource throws: creating or opening the file, or a read. */
  predicate IoFails(fault: IoFault, chunks: seq<seq<Byte>>) {
    fault.CreateFileFails? || fault.OpenStreamFails? || CopyFails(fault, chunks)
  }

  /** The copy loop stops on an IOException from the read with number `readNumber`, if the stream gets that far. */
  predicate CopyFails(fault: IoFault, chunks: seq<seq<Byte>>) {
    fault.CopyFailsAfter? && fault.readNumber <= |chunks|
  }

  /** The record createResource builds: the input's entries, the measured length, the new identifier. */
  function CreatedRecord(rm: ResourceMetadata, identifier: string, content: seq<Byte>): Result<ResourceMetadata, Error> {
    Finalize(Some(identifier), rm.metadata[ContentLength := Num(Wrap32(|content|))])
  }

  /** createResource: the new stores and the outcome. */
  function Create(s: Store, rm: ResourceMetadata, identifier: string, chunks: seq<seq<Byte>>, fault: IoFault)
    : (Store, Result<ResourceMetadata, Error>)
  {
    if fault.CreateFileFails? then
      (s, Err(PersistenceFailure(identifier)))
    else if fault.OpenStreamFails? then
      (s.(files := s.files[identifier := []]), Err(PersistenceFailure(identifier)))
    else if CopyFails(fault, chunks) then
      (s.(files := s.files[identifier := Concat(chunks[..fault.readNumber])]), Err(PersistenceFailure(identifier)))
    else
      var files := s.files[identifier := Concat(chunks)];
      match CreatedRecord(rm, identifier, Concat(chunks))
      case Ok(record) => (Store(s.metadata[identifier := record], files), Ok(record))
      case Err(e) => (s.(files := files), Err(e))
  }

  /** readResourceMetadata. */
  function ReadMetadata(s: Store, identifier: string): Result<ResourceMetadata, Error> {
    if identifier in s.metadata then Ok(s.metadata[identifier]) else Err(NotFound(identifier))
  }

  /** readResourceContent: only the file is consulted; `openFails` is a FileNotFoundException on open. */
  function ReadContent(s: Store, identifier: string, openFails: bool): Result<seq<Byte>, Error> {
    if identifier !in s.files then Err(NotFound(identifier))
    else if openFails then Err(RetrievalFailure(identifier))
    else Ok(s.files[identifier])
  }

  /**
   * deleteResource: the record is removed first; the file is deleted only when
   * there was a record (`||` short-circuits). `deleteFails` is File.delete()
   * returning false for a file that exists.
   */
  function Delete(s: Store, identifier: string, deleteFails: bool): (Store, Result<ResourceMetadata, Error>) {
    var metadata := s.metadata - {identifier};
    if identifier !in s.metadata then
      (s, Err(NotFound(identifier)))
    else if identifier !in s.files || deleteFails then
      (s.(metadata := metadata), Err(NotFound(identifier)))
    else
      (Store(metadata, s.files - {identifier}), Ok(s.metadata[identifier]))
  }

  // ---- properties of the specification ----

  lemma {:induction false} ConcatLength(chunks: seq<seq<Byte>>, i: nat)
    requires i < |chunks|
    ensures Concat(chunks[..i + 1]) == Concat(chunks[..i]) + chunks[i]
  {
    assert chunks[..i + 1][..i] == chunks[..i];
  }

  /** Each chunk appears in the content, in order, at the offset where the earlier chunks end. */
  lemma {:induction false} ConcatPrefix(chunks: seq<seq<Byte>>, i: nat)
    requires i <= |chunks|
    ensures Concat(chunks[..i]) <= Concat(chunks)
    decreases |chunks| - i
  {
    if i < |chunks| {
      ConcatPrefix(chunks, i + 1);
      ConcatLength(chunks, i);
    } else {
      assert chunks[..i] == chunks;
    }
  }

  /** createResource succeeds exactly when no I/O fault occurs and the input carries a Content-Type. */
  lemma CreateSucceeds(s: Store, rm: ResourceMetadata, identifier: string, chunks: seq<seq<Byte>>, fault: IoFault)
    ensures Create(s, rm, identifier, chunks, fault).1.Ok?
        <==> !IoFails(fault, chunks) && ContentType in rm.metadata
    ensures !IoFails(fault, chunks) && ContentType !in rm.metadata
        ==> Create(s, rm, identifier, chunks, fault).1 == Err(MissingRequired(ContentType))
  {
  }

  /**
   * Length integrity: a created record has the new identifier, carries every
   * other input entry, and records as Content-Length the number of bytes
   * written (modulo 2^32, so exactly that number below 2^31), whatever length
   * the input declared; the file holds the chunks in order.
   */
  lemma CreatedRecordMeasuresContent(s: Store, rm: ResourceMetadata, identifier: string, chunks: seq<seq<Byte>>, fault: IoFault)
    requires Create(s, rm, identifier, chunks, fault).1.Ok?
    ensures var (s', r) := Create(s, rm, identifier, chunks, fault);
      && r.value.identifier == Some(identifier)
      && s'.files == s.files[identifier := Concat(chunks)]
      && r.value.GetLength() == Ok(Some(Wrap32(|Concat(chunks)|)))
      && (|Concat(chunks)| <= MaxInt ==> r.value.GetLength() == Ok(Some(|Concat(chunks)|)))
      && r.value.metadata.Keys == rm.metadata.Keys + {ContentLength}
      && (forall k | k in rm.metadata && k != ContentLength :: r.value.metadata[k] == rm.metadata[k])
      && s'.metadata == s.metadata[identifier := r.value]
  {
  }

  /**
   * Every failure leaves the metadata as it was. A failed createNewFile leaves
   * the files alone; a failed open leaves the new file empty; a failed copy
   * leaves the chunks written so far.
   */
  lemma FailedCreateKeepsMetadata(s: Store, rm: ResourceMetadata, identifier: string, chunks: seq<seq<Byte>>, fault: IoFault)
    requires Create(s, rm, identifier, chunks, fault).1.Err?
    ensures var (s', r) := Create(s, rm, identifier, chunks, fault);
      && s'.metadata == s.metadata
      && (fault.CreateFileFails? ==> s'.files == s.files)
      && (fault.OpenStreamFails? ==> s'.files == s.files[identifier := []])
      && (!fault.CreateFileFails? ==> identifier in s'.files && s'.files[identifier] <= Concat(chunks)
                                      && s'.files - {identifier} == s.files - {identifier})
  {
    if CopyFails(fault, chunks) {
      ConcatPrefix(chunks, fault.readNumber);
    }
  }

  /** createResource with a fresh identifier keeps the store consistent, whatever happens. */
  lemma CreatePreservesConsistency(s: Store, rm: ResourceMetadata, identifier: string, chunks: seq<seq<Byte>>, fault: IoFault)
    requires Consistent(s)
    requires identifier !in s.metadata && identifier !in s.files
    ensures Consistent(Create(s, rm, identifier, chunks, fault).0)
  {
  }

  /** deleteResource keeps the store consistent, whatever happens. */
  lemma DeletePreservesConsistency(s: Store, identifier: string, deleteFails: bool)
    requires Consistent(s)
    ensures Consistent(Delete(s, identifier, deleteFails).0)
  {
  }

  /** The three outcomes of deleteResource. */
  lemma DeleteOutcomes(s: Store, identifier: string, deleteFails: bool)
    ensures var (s', r) := Delete(s, identifier, deleteFails);
      && identifier !in s'.metadata
      && (identifier !in s.metadata ==> s' == s && r == Err(NotFound(identifier)))
      && ((identifier in s.metadata && (identifier !in s.files || deleteFails)) ==>
            s'.files == s.files && r == Err(NotFound(identifier)))
      && ((identifier in s.metadata && identifier in s.files && !deleteFails) ==>
            s'.files == s.files - {identifier} && r == Ok(s.metadata[identifier]))
      && (forall id | id != identifier :: ReadMetadata(s', id) == ReadMetadata(s, id))
  {
  }

  /**
   * Create, read the metadata, read the content, delete: each succeeds, and
   * afterwards the identifier is unknown to both reads and to delete.
   */
  lemma CreateReadDeleteRoundTrip(s: Store, rm: ResourceMetadata, identifier: string, chunks: seq<seq<Byte>>)
    requires Consistent(s)
    requires identifier !in s.metadata && identifier !in s.files
    requires ContentType in rm.metadata
    ensures var (s1, r) := Create(s, rm, identifier, chunks, NoFault);
      && r.Ok?
      && ReadMetadata(s1, identifier) == r
      && ReadContent(s1, identifier, false) == Ok(Concat(chunks))
      && var (s2, d) := Delete(s1, identifier, false);
      && d == r
      && s2 == s
      && ReadMetadata(s2, identifier) == Err(NotFound(identifier))
      && ReadContent(s2, identifier, false) == Err(NotFound(identifier))
      && Delete(s2, identifier, false).1 == Err(NotFound(identifier))
  {
    var (s1, r) := Create(s, rm, identifier, chunks, NoFault);
    var (s2, d) := Delete(s1, identifier, false);
    assert s2.metadata == s.metadata;
    assert s2.files == s.files;
  }

  /** An identifier never created is unknown to every operation of a consistent store. */
  lemma UnknownIdentifierNotFound(s: Store, identifier: string, openFails: bool, deleteFails: bool)
    requires Consistent(s)
    requires identifier !in s.files
    ensures ReadMetadata(s, identifier) == Err(NotFound(identifier))
    ensures ReadContent(s, identifier, openFails) == Err(NotFound(identifier))
    ensures Delete(s, identifier, deleteFails) == (s, Err(NotFound(identifier)))
  {
  }

  /**
   * After a copy that failed part-way the two stores disagree: the metadata
   * read reports NotFound while the content read serves the partial file,
   * and delete cannot remove it.
   */
  lemma OrphanAfterFailedCopy(s: Store, rm: ResourceMetadata, identifier: string, chunks: seq<seq<Byte>>, k: nat)
    requires identifier !in s.metadata
    requires k <= |chunks|
    ensures var s' := Create(s, rm, identifier, chunks, CopyFailsAfter(k)).0;
      && ReadMetadata(s', identifier) == Err(NotFound(identifier))
      && ReadContent(s', identifier, false) == Ok(Concat(chunks[..k]))
      && Delete(s', identifier, false) == (s', Err(NotFound(identifier)))
  {
  }

  /**
   * After createNewFile succeeded but opening the stream failed, the empty
   * file is served as the resource's content while the metadata read reports
   * NotFound and delete cannot remove it.
   */
  lemma OrphanAfterFailedOpen(s: Store, rm: ResourceMetadata, identifier: string, chunks: seq<seq<Byte>>)
    requires identifier !in s.metadata
    ensures var (s', r) := Create(s, rm, identifier, chunks, OpenStreamFails);
      && r == Err(PersistenceFailure(identifier))
      && ReadMetadata(s', identifier) == Err(NotFound(identifier))
      && ReadContent(s', identifier, false) == Ok([])
      && Delete(s', identifier, false) == (s', Err(NotFound(identifier)))
  {
  }

  // ---- the engine ----

  class FileDataSource {
    /** The record of each registered identifier. */
    var metadata: map<string, ResourceMetadata>
    /** The files under the root directory, by name. */
    var files: map<string, seq<Byte>>

    function State(): Store
      reads this
    {
      Store(metadata, files)
    }

    ghost predicate Valid()
      reads this
    {
      Consistent(State())
    }

    /** A data source over a root directory that may already hold files. */
    constructor (existingFiles: map<string, seq<Byte>>)
      ensures Valid()
      ensures metadata == map[] && files == existingFiles
    {
      metadata := map[];
      files := existingFiles;
    }

    /** InputStream.read(buffy): the next chunk into the buffer, -1 at the end, or an IOException. */
    static method Read(inStream: seq<seq<Byte>>, readCount: nat, buffy: array<Byte>, fault: IoFault)
      returns (bytesRead: int, ioException: bool)
      requires readCount <= |inStream|
      requires readCount < |inStream| ==> |inStream[readCount]| <= buffy.Length
      modifies buffy
      ensures ioException <==> fault == CopyFailsAfter(readCount)
      ensures !ioException && readCount == |inStream| ==> bytesRead == -1
      ensures !ioException && readCount < |inStream| ==>
        bytesRead == |inStream[readCount]| && buffy[..bytesRead] == inStream[readCount]
    {
      if fault == CopyFailsAfter(readCount) {
        return 0, true;
      }
      if readCount == |inStream| {
        return -1, false;
      }
      var chunk := inStream[readCount];
      forall j | 0 <= j < |chunk| {
        buffy[j] := chunk[j];
      }
      bytesRead, ioException := |chunk|, false;
    }

    /**
     * The copy loop of createResource: reads the stream chunk by chunk through
     * the 2048-byte buffer, appends each chunk to the file and adds its size to
     * the `int` length, until the end of the stream or an IOException.
     */
    method CopyStream(inStream: seq<seq<Byte>>, identifier: string, fault: IoFault)
      returns (length: int, ioException: bool)
      requires identifier in files && files[identifier] == []
      requires forall i | 0 <= i < |inStream| :: |inStream[i]| <= BufferSize
      modifies this
      ensures metadata == old(metadata)
      ensures ioException <==> CopyFails(fault, inStream)
      ensures ioException ==> files == old(files)[identifier := Concat(inStream[..fault.readNumber])]
      ensures !ioException ==> files == old(files)[identifier := Concat(inStream)]
      ensures !ioException ==> length == Wrap32(|Concat(inStream)|)
    {
      length := 0;
      var buffy := new Byte[BufferSize];
      var readCount := 0;
      var bytesRead;
      bytesRead, ioException := Read(inStream, readCount, buffy, fault);
      while !ioException && bytesRead >= 0
        invariant readCount <= |inStream|
        invariant ioException <==> fault == CopyFailsAfter(readCount)
        invariant !ioException && bytesRead < 0 ==> readCount == |inStream|
        invariant !ioException && bytesRead >= 0 ==>
          readCount < |inStream| && bytesRead == |inStream[readCount]| && buffy[..bytesRead] == inStream[readCount]
        invariant fault.CopyFailsAfter? ==> readCount <= fault.readNumber
        invariant files == old(files)[identifier := Concat(inStream[..readCount])]
        invariant length == Wrap32(|Concat(inStream[..readCount])|)
        invariant metadata == old(metadata)
        decreases |inStream| - readCount
      {
        ConcatLength(inStream, readCount);
        Wrap32Add(|Concat(inStream[..readCount])|, bytesRead);
        files := files[identifier := files[identifier] + buffy[..bytesRead]];
        length := Wrap32(length + bytesRead);
        readCount := readCount + 1;
        bytesRead, ioException := Read(inStream, readCount, buffy, fault);
      }
      if !ioException {
        assert inStream[..readCount] == inStream;
      }
    }

    /**
     * createResource: creates the file named by the fresh identifier, copies
     * the stream into it, then builds and registers the record.
     */
    method CreateResource(rm: ResourceMetadata, inStream: seq<seq<Byte>>, identifier: string, fault: IoFault)
      returns (r: Result<ResourceMetadata, Error>)
      requires Valid()
      requires identifier !in metadata && identifier !in files
      requires forall i | 0 <= i < |inStream| :: |inStream[i]| <= BufferSize
      modifies this
      ensures Valid()
      ensures (State(), r) == Create(old(State()), rm, identifier, inStream, fault)
    {
      ghost var s0 := State();
      CreatePreservesConsistency(s0, rm, identifier, inStream, fault);
      if fault.CreateFileFails? {
        return Err(PersistenceFailure(identifier));
      }
      files := files[identifier := []];
      if fault.OpenStreamFails? {
        return Err(PersistenceFailure(identifier));
      }
      var length, ioException := CopyStream(inStream, identifier, fault);
      if ioException {
        assert files == s0.files[identifier := Concat(inStream[..fault.readNumber])];
        return Err(PersistenceFailure(identifier));
      }
      assert files == s0.files[identifier := Concat(inStream)];
      r := BuildRecord(rm, identifier, length);
      if r.Ok? {
        metadata := metadata[identifier := r.value];
      }
    }

    /** The builder chain of createResource: the caller's entries, the measured length, the identifier. */
    static method BuildRecord(rm: ResourceMetadata, identifier: string, length: int)
      returns (r: Result<ResourceMetadata, Error>)
      ensures r == Finalize(Some(identifier), rm.metadata[ContentLength := Num(length)])
    {
      var builder := new FileHeadResponseBuilder();
      builder := builder.With(rm);
      assert builder.metadataMap == rm.metadata;
      builder := builder.WithLength(length);
      builder := builder.WithIdentifier(Some(identifier));
      r := builder.Build();
    }

    /** readResourceMetadata: the registered record, or NotFound; nothing changes. */
    method ReadResourceMetadata(identifier: string) returns (r: Result<ResourceMetadata, Error>)
      ensures r == ReadMetadata(State(), identifier)
      ensures r.Ok? <==> identifier in metadata
      ensures r.Ok? ==> r.value == metadata[identifier]
    {
      if identifier in metadata {
        r := Ok(metadata[identifier]);
      } else {
        r := Err(NotFound(identifier));
      }
    }

    /** readResourceContent: decided by the file alone; the record is not consulted. */
    method ReadResourceContent(identifier: string, openFails: bool) returns (r: Result<seq<Byte>, Error>)
      ensures r == ReadContent(State(), identifier, openFails)
      ensures r.Ok? ==> r.value == files[identifier]
      ensures r == Err(NotFound(identifier)) <==> identifier !in files
    {
      if identifier in files {
        if openFails {
          r := Err(RetrievalFailure(identifier));
        } else {
          r := Ok(files[identifier]);
        }
      } else {
        r := Err(NotFound(identifier));
      }
    }

    /** deleteResource: removes the record, then (only if there was one) the file. */
    method DeleteResource(identifier: string, deleteFails: bool) returns (r: Result<ResourceMetadata, Error>)
      requires Valid()
      modifies this
      ensures Valid()
      ensures (State(), r) == Delete(old(State()), identifier, deleteFails)
    {
      var result := if identifier in metadata then Some(metadata[identifier]) else None;
      metadata := metadata - {identifier};
      if result == None {
        assert metadata == old(metadata);
        return Err(NotFound(identifier));
      }
      var deleted := identifier in files && !deleteFails;
      if deleted {
        files := files - {identifier};
      }
      if !deleted {
        return Err(NotFound(identifier));
      }
      r := Ok(result.value);
      DeletePreservesConsistency(old(State()), identifier, deleteFails);
    }
  }
}
