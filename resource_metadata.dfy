/**
 * ResourceMetadata, the descriptive record of one stored resource, and its
 * builder. The record's fields are final, so it is a datatype; the builder's
 * fields are assigned by its `with...` methods, so it is a class.
 */
module Metadata {
  import opened Wrappers
  import opened JavaLang
  import opened Errors
  import opened StandardHeaders

  /** A metadata value: the map holds java.lang.String and java.lang.Integer objects. */
  datatype Value = Str(s: string) | Num(n: int)

  /** Object.toString of a stored value. */
  function ValueString(v: Value): string {
    match v
    case Str(s) => s
    case Num(n) => IntToString(n)
  }

  /** String.hashCode: h = 31 * h + c over the characters, in 32-bit arithmetic. */
  function StringHashCode(s: string): (h: int)
    ensures IsInt32(h)
    decreases |s|
  {
    if s == [] then 0 else Wrap32(31 * StringHashCode(s[..|s| - 1]) + s[|s| - 1] as int)
  }

  datatype ResourceMetadata = ResourceMetadata(identifier: Option<string>, metadata: map<string, Value>)
  {
    /** getLength: the Content-Length entry cast to Integer (null when absent). */
    function GetLength(): (r: Result<Option<int>, Error>)
      ensures r == Ok(None) <==> ContentLength !in metadata
      ensures r.Ok? && r.value.Some? ==> ContentLength in metadata && metadata[ContentLength] == Num(r.value.value)
      ensures r.Err? <==> ContentLength in metadata && metadata[ContentLength].Str?
    {
      if ContentLength !in metadata then Ok(None)
      else match metadata[ContentLength]
        case Num(n) => Ok(Some(n))
        case Str(_) => Err(ClassCast(ContentLength))
    }

    /** getContentType: the Content-Type entry cast to String (null when absent). */
    function GetContentType(): (r: Result<Option<string>, Error>)
      ensures r == Ok(None) <==> ContentType !in metadata
      ensures r.Ok? && r.value.Some? ==> ContentType in metadata && metadata[ContentType] == Str(r.value.value)
      ensures r.Err? <==> ContentType in metadata && metadata[ContentType].Num?
    {
      if ContentType !in metadata then Ok(None)
      else match metadata[ContentType]
        case Str(s) => Ok(Some(s))
        case Num(_) => Err(ClassCast(ContentType))
    }

    /** getMetadataAsString: the value's string form; an absent key dereferences null. */
    function GetMetadataAsString(key: string): (r: Result<string, Error>)
      ensures r.Err? <==> key !in metadata
      ensures r.Err? ==> r.error == NullValue(key)
      ensures r.Ok? ==> r.value == ValueString(metadata[key])
    {
      if key in metadata then Ok(ValueString(metadata[key])) else Err(NullValue(key))
    }

    /** getMetadataAsInt: the value when it is a Number, otherwise (also when absent) null. */
    function GetMetadataAsInt(key: string): (r: Option<int>)
      ensures r.Some? <==> key in metadata && metadata[key].Num?
      ensures r.Some? ==> metadata[key] == Num(r.value)
    {
      if key in metadata && metadata[key].Num? then Some(metadata[key].n) else None
    }

    /** metadataKeys: the key set of the map. */
    function MetadataKeys(): set<string> {
      metadata.Keys
    }

    /** equals: identifiers compared with Objects.equals; the map plays no part. */
    predicate Equals(that: ResourceMetadata) {
      identifier == that.identifier
    }

    /** hashCode: Objects.hash(identifier), i.e. 31 + the identifier's hash (0 for null). */
    function HashCode(): (h: int)
      ensures IsInt32(h)
    {
      Wrap32(31 + match identifier case None => 0 case Some(id) => StringHashCode(id))
    }
  }

  /** Equality and hashing depend on the identifier alone, whatever the two maps hold. */
  lemma EqualityByIdentifier(a: ResourceMetadata, b: ResourceMetadata)
    ensures a.Equals(b) <==> a.identifier == b.identifier
    ensures a.Equals(b) ==> a.HashCode() == b.HashCode()
    ensures a.Equals(b) <==> a.(metadata := map[]).Equals(b.(metadata := map[]))
  {
  }

  /**
   * What build() does with the builder's state: Content-Length is checked
   * first, then Content-Type; when both are present the record carries the
   * builder's identifier and map unchanged.
   */
  function Finalize(identifier: Option<string>, m: map<string, Value>): (r: Result<ResourceMetadata, Error>)
    ensures r.Ok? <==> ContentLength in m && ContentType in m
    ensures r.Ok? ==> r.value.identifier == identifier && r.value.metadata == m
    ensures ContentLength !in m ==> r == Err(MissingRequired(ContentLength))
    ensures ContentLength in m && ContentType !in m ==> r == Err(MissingRequired(ContentType))
  {
    if ContentLength !in m then Err(MissingRequired(ContentLength))
    else if ContentType !in m then Err(MissingRequired(ContentType))
    else Ok(ResourceMetadata(identifier, m))
  }

  /** A built record always answers getLength and getContentType with a value. */
  lemma FinalizedRecordIsComplete(identifier: Option<string>, m: map<string, Value>, length: int, contentType: string)
    requires ContentLength in m && m[ContentLength] == Num(length)
    requires ContentType in m && m[ContentType] == Str(contentType)
    ensures Finalize(identifier, m).Ok?
    ensures Finalize(identifier, m).value.GetLength() == Ok(Some(length))
    ensures Finalize(identifier, m).value.GetContentType() == Ok(Some(contentType))
  {
  }

  /** The builder: an identifier and a map that the `with...` calls fill in. */
  class FileHeadResponseBuilder {
    var identifier: Option<string>
    var metadataMap: map<string, Value>

    /** ResourceMetadata.builder(): no identifier, an empty map. */
    constructor ()
      ensures identifier == None && metadataMap == map[]
    {
      identifier := None;
      metadataMap := map[];
    }

    method WithIdentifier(id: Option<string>) returns (self: FileHeadResponseBuilder)
      modifies this
      ensures self == this
      ensures identifier == id && metadataMap == old(metadataMap)
    {
      identifier := id;
      self := this;
    }

    method WithLength(length: int) returns (self: FileHeadResponseBuilder)
      modifies this
      ensures self == this && identifier == old(identifier)
      ensures metadataMap == old(metadataMap)[ContentLength := Num(length)]
    {
      metadataMap := metadataMap[ContentLength := Num(length)];
      self := this;
    }

    method WithContentType(contentType: string) returns (self: FileHeadResponseBuilder)
      modifies this
      ensures self == this && identifier == old(identifier)
      ensures metadataMap == old(metadataMap)[ContentType := Str(contentType)]
    {
      metadataMap := metadataMap[ContentType := Str(contentType)];
      self := this;
    }

    /** withAdditionalMetadata(String, String): one entry, overwriting any earlier value. */
    method WithAdditionalEntry(key: string, value: string) returns (self: FileHeadResponseBuilder)
      modifies this
      ensures self == this && identifier == old(identifier)
      ensures metadataMap == old(metadataMap)[key := Str(value)]
    {
      metadataMap := metadataMap[key := Str(value)];
      self := this;
    }

    /** withAdditionalMetadata(Map): putAll, so the incoming entries win on shared keys. */
    method WithAdditionalMetadata(values: map<string, Value>) returns (self: FileHeadResponseBuilder)
      modifies this
      ensures self == this && identifier == old(identifier)
      ensures metadataMap.Keys == old(metadataMap).Keys + values.Keys
      ensures forall k :: k in values ==> metadataMap[k] == values[k]
      ensures forall k :: k in old(metadataMap) && k !in values ==> metadataMap[k] == old(metadataMap)[k]
    {
      metadataMap := metadataMap + values;
      self := this;
    }

    /**
     * with(ResourceMetadata): merges the record's map into this builder. The
     * identifier guard passes the builder's own (null) identifier back to
     * withIdentifier, so the record's identifier is never copied.
     */
    method With(rm: ResourceMetadata) returns (self: FileHeadResponseBuilder)
      modifies this
      ensures self == this && identifier == old(identifier)
      ensures metadataMap.Keys == old(metadataMap).Keys + rm.metadata.Keys
      ensures forall k :: k in rm.metadata ==> metadataMap[k] == rm.metadata[k]
      ensures forall k :: k in old(metadataMap) && k !in rm.metadata ==> metadataMap[k] == old(metadataMap)[k]
    {
      if identifier == None {
        self := WithIdentifier(identifier);
      }
      self := WithAdditionalMetadata(rm.metadata);
    }

    /**
     * with(ResourceMetadata) as its documentation describes it: an identifier
     * already set is kept, a missing one is taken from the record.
     */
    method WithCopyingIdentifier(rm: ResourceMetadata) returns (self: FileHeadResponseBuilder)
      modifies this
      ensures self == this
      ensures identifier == if old(identifier).Some? then old(identifier) else rm.identifier
      ensures metadataMap == old(metadataMap) + rm.metadata
    {
      if identifier == None {
        self := WithIdentifier(rm.identifier);
      }
      self := WithAdditionalMetadata(rm.metadata);
    }

    /** build(): refuses a map without Content-Length or Content-Type. */
    method Build() returns (r: Result<ResourceMetadata, Error>)
      ensures r == Finalize(identifier, metadataMap)
    {
      if ContentLength !in metadataMap {
        return Err(MissingRequired(ContentLength));
      }
      if ContentType !in metadataMap {
        return Err(MissingRequired(ContentType));
      }
      r := Ok(ResourceMetadata(identifier, metadataMap));
    }
  }

  /** As written, with() leaves a builder without identifier still without one. */
  method WithNeverCopiesIdentifier() returns (before: Option<string>, after: Option<string>)
    ensures before == Some("a-record-id") && after == None
  {
    var rm := ResourceMetadata(Some("a-record-id"), map[ContentType := Str("text/plain")]);
    var b := new FileHeadResponseBuilder();
    b := b.With(rm);
    before, after := rm.identifier, b.identifier;
  }

  /** The documented behaviour takes the identifier over. */
  method WithCopyingIdentifierCopies() returns (after: Option<string>)
    ensures after == Some("a-record-id")
  {
    var rm := ResourceMetadata(Some("a-record-id"), map[ContentType := Str("text/plain")]);
    var b := new FileHeadResponseBuilder();
    b := b.WithCopyingIdentifier(rm);
    after := b.identifier;
  }
}
