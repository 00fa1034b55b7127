/**
 * The metadata codec as a whole: the headers HEAD emits for a stored record,
 * sent back as the headers of a POST, assemble the same metadata again.
 */
module HeaderRoundTrip {
  import opened Wrappers
  import opened JavaLang
  import opened StandardHeaders
  import opened Metadata
  import opened FileDataSource
  import opened StreamingController

  /**
   * Metadata that survives the trip through headers: Content-Type as a string,
   * Content-Length as an int, every other key of the shape the decoder yields,
   * with a string value (the shape of every record POST stores).
   */
  predicate Transmissible(m: map<string, Value>) {
    && ContentType in m && m[ContentType].Str?
    && ContentLength in m && m[ContentLength].Num? && IsInt32(m[ContentLength].n)
    && forall k | k in m :: k == ContentType || k == ContentLength || (IsDecodedKey(k) && m[k].Str?)
  }

  /** Every field of `fields` is a header of h, with its value. */
  predicate FieldsFrom(fields: seq<HeaderField>, h: map<string, string>) {
    forall j | 0 <= j < |fields| :: fields[j].name in h && fields[j].value == h[fields[j].name]
  }

  /** Every header of h is among `fields`. */
  predicate FieldsCover(fields: seq<HeaderField>, h: map<string, string>) {
    forall n | n in h :: exists j | 0 <= j < |fields| :: fields[j].name == n
  }

  /** No name appears twice in `fields`. */
  predicate FieldsOnce(fields: seq<HeaderField>) {
    forall a, b | 0 <= a < b < |fields| :: fields[a].name != fields[b].name
  }

  /** `fields` presents every header of h exactly once, in any order. */
  predicate Lists(fields: seq<HeaderField>, h: map<string, string>) {
    FieldsFrom(fields, h) && FieldsCover(fields, h) && FieldsOnce(fields)
  }

  /** No two fields have names equal ignoring case. */
  predicate FoldedDistinct(fields: seq<HeaderField>) {
    forall a, b | 0 <= a < |fields| && 0 <= b < |fields| && a != b :: !EqualsIgnoreCase(fields[a].name, fields[b].name)
  }

  /** "xxx-" followed by a decoded key matches the pattern and decodes to that key. */
  lemma PrefixedKeyDecodes(key: string)
    requires IsDecodedKey(key)
    ensures MatchesMetadataPattern(MetadataPrefix + key)
    ensures MetadataKey(MetadataPrefix + key) == key
  {
    LowerOfDecodedKey(key);
    var name := MetadataPrefix + key;
    assert name[..|MetadataPrefix|] == MetadataPrefix;
    assert name[|MetadataPrefix|..] == key;
    forall i | |MetadataPrefix| <= i < |name|
      ensures IsNameChar(name[i])
    {
      assert name[i] == key[i - |MetadataPrefix|];
    }
  }

  /** A decoded key is emitted as "xxx-" and itself, which matches the pattern and decodes to the key. */
  lemma EncodedKeyDecodes(key: string)
    requires IsDecodedKey(key)
    ensures EncodeName(key) == MetadataPrefix + key
    ensures MatchesMetadataPattern(EncodeName(key))
    ensures MetadataKey(EncodeName(key)) == key
  {
    DecodedKeyNotStandard(key);
    PrefixedKeyDecodes(key);
  }

  /** Content-Type and Content-Length are emitted under their own names, which the pattern refuses. */
  lemma RequiredNamesDoNotMatch()
    ensures EncodeName(ContentType) == ContentType && !MatchesMetadataPattern(ContentType)
    ensures EncodeName(ContentLength) == ContentLength && !MatchesMetadataPattern(ContentLength)
  {
    RequiredKeysAreStandard();
    assert ToLower(ContentType[..|MetadataPrefix|])[0] == 'c';
    assert ToLower(ContentLength[..|MetadataPrefix|])[0] == 'c';
  }

  /** Transmissible metadata is emitted under names that differ even ignoring case. */
  lemma TransmissibleEncodesDistinctly(m: map<string, Value>)
    requires Transmissible(m)
    ensures EncodesDistinctly(m)
  {
    RequiredNamesDoNotMatch();
    forall a, b | a in m && b in m && a != b
      ensures !EqualsIgnoreCase(EncodeName(a), EncodeName(b))
    {
      if IsDecodedKey(a) && IsDecodedKey(b) {
        EncodedKeyDecodes(a);
        EncodedKeyDecodes(b);
        assert ToLower(EncodeName(a)) == EncodeName(a);
        assert ToLower(EncodeName(b)) == EncodeName(b);
        assert EncodeName(a)[|MetadataPrefix|..] == a;
      } else if IsDecodedKey(a) {
        EncodedKeyDecodes(a);
        assert ToLower(EncodeName(a))[0] == 'x' && ToLower(EncodeName(b))[0] == 'c';
      } else if IsDecodedKey(b) {
        EncodedKeyDecodes(b);
        assert ToLower(EncodeName(b))[0] == 'x' && ToLower(EncodeName(a))[0] == 'c';
      } else {
        assert |EncodeName(a)| != |EncodeName(b)|;
      }
    }
  }

  /** buildHttpHeaders emits every entry of transmissible metadata under its own name, with its value. */
  lemma EmittedHeader(m: map<string, Value>, h: map<string, string>, k: string)
    requires Transmissible(m) && (EncodesDistinctly(m) ==> EncodesAs(h, m))
    requires k in m
    ensures EncodeName(k) in h && h[EncodeName(k)] == ValueString(m[k])
  {
    TransmissibleEncodesDistinctly(m);
  }

  /** getHeader finds the one field whose name equals `name` ignoring case. */
  lemma {:induction false} GetHeaderOfOnlyMatch(fields: seq<HeaderField>, name: string, j: nat)
    requires j < |fields| && EqualsIgnoreCase(fields[j].name, name)
    requires forall i | 0 <= i < |fields| && i != j :: !EqualsIgnoreCase(fields[i].name, name)
    ensures GetHeader(fields, name) == Some(fields[j].value)
    decreases j
  {
    if j > 0 {
      assert !EqualsIgnoreCase(fields[0].name, name);
      forall i | 0 <= i < |fields[1..]| && i != j - 1
        ensures !EqualsIgnoreCase(fields[1..][i].name, name)
      {
        assert fields[1..][i] == fields[i + 1];
      }
      GetHeaderOfOnlyMatch(fields[1..], name, j - 1);
    }
  }

  /** Every emitted header is the encoding of some key, with that key's value. */
  lemma HeaderOrigin(h: map<string, string>, m: map<string, Value>, n: string) returns (k: string)
    requires FromKeys(h, m, m.Keys) && n in h
    ensures k in m && n == EncodeName(k) && h[n] == ValueString(m[k])
  {
    k :| k in m && k in m.Keys && n == EncodeName(k) && h[n] == ValueString(m[k]);
  }

  /** Listing the headers of distinctly encoded metadata gives names that differ ignoring case. */
  lemma ListedNamesFoldedDistinct(m: map<string, Value>, h: map<string, string>, fields: seq<HeaderField>)
    requires EncodesDistinctly(m) && FromKeys(h, m, m.Keys) && FieldsFrom(fields, h) && FieldsOnce(fields)
    ensures FoldedDistinct(fields)
  {
    forall a, b | 0 <= a < |fields| && 0 <= b < |fields| && a != b
      ensures !EqualsIgnoreCase(fields[a].name, fields[b].name)
    {
      assert fields[a].name != fields[b].name;
      var ka := HeaderOrigin(h, m, fields[a].name);
      var kb := HeaderOrigin(h, m, fields[b].name);
    }
  }

  /** With no two names equal ignoring case, getHeader of a field's name is that field's value. */
  lemma GetListedField(fields: seq<HeaderField>, j: nat)
    requires FoldedDistinct(fields) && j < |fields|
    ensures GetHeader(fields, fields[j].name) == Some(fields[j].value)
  {
    GetHeaderOfOnlyMatch(fields, fields[j].name, j);
  }

  /** A listed header is what getHeader returns for its name. */
  lemma GetListedHeader(fields: seq<HeaderField>, h: map<string, string>, n: string)
    requires FoldedDistinct(fields) && FieldsFrom(fields, h) && FieldsCover(fields, h)
    requires n in h
    ensures GetHeader(fields, n) == Some(h[n])
  {
    var j :| 0 <= j < |fields| && fields[j].name == n;
    GetListedField(fields, j);
  }

  /** The entries extractMetadata yields for m: its non-standard keys. */
  function Carried(m: map<string, Value>): map<string, Value> {
    map k | k in m && IsDecodedKey(k) :: m[k]
  }

  /** Every carried key of m is decoded from the listing: its header is among the fields. */
  lemma CarriedKeyDecoded(m: map<string, Value>, h: map<string, string>, fields: seq<HeaderField>, key: string)
    requires HoldsKeys(h, m, m.Keys) && FieldsCover(fields, h)
    requires key in Carried(m)
    ensures key in DecodeFields(fields, |fields|)
  {
    EncodedKeyDecodes(key);
    var j :| 0 <= j < |fields| && fields[j].name == EncodeName(key);
    DecodeFieldsKeys(fields, |fields|, key);
  }

  /** Every decoded key is carried by m, with m's value. */
  lemma DecodedKeyCarried(m: map<string, Value>, h: map<string, string>, fields: seq<HeaderField>, key: string)
    requires Transmissible(m) && FromKeys(h, m, m.Keys) && FieldsFrom(fields, h) && FoldedDistinct(fields)
    requires key in DecodeFields(fields, |fields|)
    ensures key in Carried(m) && DecodeFields(fields, |fields|)[key] == m[key]
  {
    var j := DecodeFieldsValue(fields, |fields|, key);
    GetListedField(fields, j);
    var k := HeaderOrigin(h, m, fields[j].name);
    OriginIsCarried(m, k, fields[j].name);
  }

  /** A header name that matches the pattern comes from a carried key, which it decodes to. */
  lemma OriginIsCarried(m: map<string, Value>, k: string, name: string)
    requires Transmissible(m) && k in m && name == EncodeName(k) && MatchesMetadataPattern(name)
    ensures k in Carried(m) && MetadataKey(name) == k && m[k].Str?
  {
    RequiredNamesDoNotMatch();
    EncodedKeyDecodes(k);
  }

  /** Two maps with the same keys and the same value at each key are equal. */
  lemma MapsAgree(a: map<string, Value>, b: map<string, Value>)
    requires forall key :: key in a <==> key in b
    requires forall key | key in b :: a[key] == b[key]
    ensures a == b
  {
  }

  lemma CarriedKeysDecoded(m: map<string, Value>, h: map<string, string>, fields: seq<HeaderField>)
    requires HoldsKeys(h, m, m.Keys) && FieldsCover(fields, h)
    ensures Carried(m).Keys <= DecodeFields(fields, |fields|).Keys
  {
    var decoded := DecodeFields(fields, |fields|);
    forall key | key in Carried(m)
      ensures key in decoded
    {
      CarriedKeyDecoded(m, h, fields, key);
    }
  }

  lemma DecodedKeysCarried(m: map<string, Value>, h: map<string, string>, fields: seq<HeaderField>)
    requires Transmissible(m) && FromKeys(h, m, m.Keys) && FieldsFrom(fields, h) && FoldedDistinct(fields)
    ensures forall key | key in DecodeFields(fields, |fields|) ::
      key in Carried(m) && DecodeFields(fields, |fields|)[key] == Carried(m)[key]
  {
    forall key | key in DecodeFields(fields, |fields|)
      ensures key in Carried(m) && DecodeFields(fields, |fields|)[key] == Carried(m)[key]
    {
      DecodedKeyCarried(m, h, fields, key);
    }
  }

  /** The metadata headers among the listed ones decode to exactly the non-standard entries of m. */
  lemma DecodeListedHeaders(m: map<string, Value>, h: map<string, string>, fields: seq<HeaderField>)
    requires Transmissible(m) && EncodesAs(h, m) && Lists(fields, h)
    ensures DecodeFields(fields, |fields|) == Carried(m)
  {
    TransmissibleEncodesDistinctly(m);
    ListedNamesFoldedDistinct(m, h, fields);
    CarriedKeysDecoded(m, h, fields);
    DecodedKeysCarried(m, h, fields);
    MapsAgree(DecodeFields(fields, |fields|), Carried(m));
  }

  /** The two required headers read back as the values m holds. */
  lemma ListedRequiredHeaders(m: map<string, Value>, h: map<string, string>, fields: seq<HeaderField>)
    requires Transmissible(m) && EncodesAs(h, m) && Lists(fields, h)
    ensures GetHeader(fields, ContentType) == Some(m[ContentType].s)
    ensures GetIntHeader(fields, ContentLength) == Ok(m[ContentLength].n)
  {
    TransmissibleEncodesDistinctly(m);
    ListedNamesFoldedDistinct(m, h, fields);
    RequiredNamesDoNotMatch();
    GetListedHeader(fields, h, ContentType);
    GetListedHeader(fields, h, ContentLength);
    ParseIntRoundTrip(m[ContentLength].n);
  }

  /** The decoded entries, with the two required ones put back, are all of m. */
  lemma Reassembled(m: map<string, Value>)
    requires Transmissible(m)
    ensures Carried(m)[ContentType := Str(m[ContentType].s)][ContentLength := Num(m[ContentLength].n)] == m
  {
    var assembled := Carried(m)[ContentType := Str(m[ContentType].s)][ContentLength := Num(m[ContentLength].n)];
    assert assembled.Keys == m.Keys;
    forall k | k in m
      ensures assembled[k] == m[k]
    {
    }
  }

  /**
   * The round trip of the metadata codec: POSTing the headers buildHttpHeaders
   * emits for transmissible metadata assembles that metadata again, unchanged
   * (Content-Length read back with getIntHeader, Content-Type with getHeader,
   * the rest through extractMetadata).
   */
  lemma HeadersRoundTrip(m: map<string, Value>, h: map<string, string>, fields: seq<HeaderField>)
    requires Transmissible(m) && EncodesAs(h, m) && Lists(fields, h)
    ensures Assembled(Request(fields, true)) == Ok(ResourceMetadata(None, m))
  {
    ListedRequiredHeaders(m, h, fields);
    DecodeListedHeaders(m, h, fields);
    var decoded := DecodeFields(fields, |fields|);
    var assembled := decoded[ContentType := Str(m[ContentType].s)][ContentLength := Num(m[ContentLength].n)];
    Reassembled(m);
    assert Assembled(Request(fields, true)) == Finalize(None, assembled);
  }

  /**
   * Whatever createResource stores for the metadata post assembled is
   * transmissible: the header round trip applies to every record the engine
   * holds after a POST.
   */
  lemma PostStoresTransmissible(s: Store, request: Request, identifier: string, chunks: seq<seq<Byte>>, fault: IoFault)
    requires Assembled(request).Ok?
    requires Create(s, Assembled(request).value, identifier, chunks, fault).1.Ok?
    ensures Transmissible(Create(s, Assembled(request).value, identifier, chunks, fault).1.value.metadata)
  {
    var rm := Assembled(request).value;
    var m := Create(s, rm, identifier, chunks, fault).1.value.metadata;
    AssembledSpec(request);
    CreatedRecordMeasuresContent(s, rm, identifier, chunks, fault);
    forall k | k in m && k != ContentType && k != ContentLength
      ensures IsDecodedKey(k) && m[k].Str?
    {
      var j := DecodeFieldsValue(request.fields, |request.fields|, k);
    }
  }

  /**
   * The round trip for a stored record: the headers HEAD emits for a record
   * that POST stored, POSTed back, assemble that record's metadata again.
   */
  lemma StoredRecordRoundTrip(s: Store, request: Request, identifier: string, chunks: seq<seq<Byte>>, fault: IoFault,
                              h: map<string, string>, fields: seq<HeaderField>)
    requires Assembled(request).Ok?
    requires Create(s, Assembled(request).value, identifier, chunks, fault).1.Ok?
    requires EncodesAs(h, Create(s, Assembled(request).value, identifier, chunks, fault).1.value.metadata)
    requires Lists(fields, h)
    ensures Assembled(Request(fields, true))
         == Ok(ResourceMetadata(None, Create(s, Assembled(request).value, identifier, chunks, fault).1.value.metadata))
  {
    PostStoresTransmissible(s, request, identifier, chunks, fault);
    HeadersRoundTrip(Create(s, Assembled(request).value, identifier, chunks, fault).1.value.metadata, h, fields);
  }
}
