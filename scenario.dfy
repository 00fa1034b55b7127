/**
 * The post / head / get / delete sequence of StreamingControllerIS, run
 * through the model of the controller and the file data source.
 */
module PostHeadGetDelete {
  import opened Wrappers
  import opened JavaLang
  import opened Errors
  import opened StandardHeaders
  import opened Metadata
  import opened FileDataSource
  import opened StreamingController
  import opened HeaderRoundTrip

  const Body: seq<Byte> := [0, 1, 2, 3, 4, 5, 6, 7, 8, 9]
  const OctetStream: string := "application/octet-stream"
  const Description: string := "The Description"

  /** The request of the test: an octet-stream body and one metadata header. */
  function PostRequest(): Request {
    Request([HeaderField(ContentType, OctetStream), HeaderField("xxx-description", Description)], true)
  }

  /** The metadata post assembles for the test's request: no Content-Length header, so -1. */
  function Posted(): map<string, Value> {
    map["description" := Str(Description), ContentType := Str(OctetStream), ContentLength := Num(-1)]
  }

  /** The request carries no Content-Length header. */
  lemma PostRequestLength()
    ensures GetIntHeader(PostRequest().fields, ContentLength) == Ok(-1)
  {
    var fields := PostRequest().fields;
    assert !EqualsIgnoreCase(fields[0].name, ContentLength) by {
      assert ToLower(fields[0].name)[8] != ToLower(ContentLength)[8];
    }
    assert !EqualsIgnoreCase(fields[1].name, ContentLength) by {
      assert ToLower(fields[1].name)[0] != ToLower(ContentLength)[0];
    }
  }

  /** Of the request's two headers only "xxx-description" is metadata. */
  lemma PostRequestDecodes()
    ensures DecodeFields(PostRequest().fields, 2) == map["description" := Str(Description)]
  {
    var fields := PostRequest().fields;
    assert !MatchesMetadataPattern(fields[0].name) by {
      assert ToLower(fields[0].name[..4])[0] == 'c';
    }
    DescriptionKey();
    EncodedKeyDecodes("description");
    assert !EqualsIgnoreCase(fields[0].name, fields[1].name) by {
      assert ToLower(fields[0].name)[0] != ToLower(fields[1].name)[0];
    }
    assert GetHeader(fields, fields[1].name) == Some(Description);
  }

  /** What post assembles for the test's request: its description, its type, and no length header (-1). */
  lemma PostRequestAssembles()
    ensures Assembled(PostRequest()) == Ok(ResourceMetadata(None, Posted()))
  {
    PostRequestLength();
    PostRequestDecodes();
    assert GetHeader(PostRequest().fields, ContentType) == Some(OctetStream);
    assert map["description" := Str(Description)][ContentType := Str(OctetStream)][ContentLength := Num(-1)] == Posted();
  }

  /** createResource on an empty data source stores the ten bytes and the record with the measured length. */
  lemma PostStores(identifier: string)
    ensures Create(Store(map[], map[]), ResourceMetadata(None, Posted()), identifier, [Body], NoFault)
         == (Store(map[identifier := ResourceMetadata(Some(identifier), Stored())], map[identifier := Body]),
             Ok(ResourceMetadata(Some(identifier), Stored())))
  {
    assert [Body][..0] == [];
    assert Concat([Body]) == Body;
    assert Wrap32(|Body|) == 10;
    assert Posted()[ContentLength := Num(10)] == Stored();
  }

  /**
   * testPostHeadGetDelete: after the post, head reports Content-Length 10, the
   * posted type and the description under "xxx-description"; get returns the
   * ten bytes; after delete, get reports the resource as not found.
   */
  method Run(identifier: string)
    returns (posted: Result<ResourceMetadata, Error>, headers: map<string, string>,
             content: Result<seq<Byte>, Error>,
             afterDelete: Result<(map<string, string>, seq<Byte>), Error>)
    ensures posted.Ok? && posted.value.identifier == Some(identifier)
    ensures ContentLength in headers && headers[ContentLength] == "10"
    ensures ContentType in headers && headers[ContentType] == OctetStream
    ensures "xxx-description" in headers && headers["xxx-description"] == Description
    ensures content == Ok(Body)
    ensures afterDelete == Err(NotFound(identifier))
  {
    var dataSource := new FileDataSource(map[]);
    PostRequestAssembles();
    PostStores(identifier);
    posted := Post(PostRequest(), dataSource, identifier, [Body], NoFault);

    var head := Head(dataSource, identifier);
    headers := head.value;
    HeadHeaders(headers);

    var get := Get(dataSource, identifier, false);
    content := Ok(get.value.1);
    var deleted := dataSource.DeleteResource(identifier, false);
    afterDelete := Get(dataSource, identifier, false);
  }

  /** The test's metadata key is a decoded key, emitted as the header it was posted under. */
  lemma DescriptionKey()
    ensures IsDecodedKey("description")
    ensures EncodeName("description") == "xxx-description"
  {
    assert IsDecodedKey("description");
    EncodedKeyDecodes("description");
    assert MetadataPrefix + "description" == "xxx-description";
  }

  /** The metadata of the stored record: the posted entries, with the measured length. */
  function Stored(): map<string, Value> {
    map["description" := Str(Description), ContentType := Str(OctetStream), ContentLength := Num(10)]
  }

  lemma StoredTransmissible()
    ensures Transmissible(Stored())
  {
    DescriptionKey();
  }

  /** The headers head emits for the stored record. */
  lemma HeadHeaders(headers: map<string, string>)
    requires EncodesDistinctly(Stored()) ==> EncodesAs(headers, Stored())
    ensures ContentLength in headers && headers[ContentLength] == "10"
    ensures ContentType in headers && headers[ContentType] == OctetStream
    ensures "xxx-description" in headers && headers["xxx-description"] == Description
  {
    StoredTransmissible();
    DescriptionKey();
    RequiredNamesDoNotMatch();
    EmittedHeader(Stored(), headers, "description");
    EmittedHeader(Stored(), headers, ContentType);
    EmittedHeader(Stored(), headers, ContentLength);
    assert IntToString(10) == "10";
  }
}
