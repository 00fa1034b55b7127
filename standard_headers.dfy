/**
 * The fixed allow-list of HTTP field names that the header codec emits without
 * the "xxx-" prefix. The names are the values of Spring's HttpHeaders constants
 * that the static initialiser adds. The list is only ever asked `contains`, so
 * its order plays no part and it is kept as a set, assembled from six groups of
 * ten names in the initialiser's order (the grouping only keeps proofs small).
 */
module StandardHeaders {
  import opened JavaLang

  const ContentLength: string := "Content-Length"
  const ContentType: string := "Content-Type"

  function Group1(): set<string> {
    {
      "Accept", "Accept-Charset", "Accept-Encoding", "Accept-Language", "Accept-Ranges",
      "Access-Control-Allow-Credentials", "Access-Control-Allow-Headers",
      "Access-Control-Allow-Methods", "Access-Control-Allow-Origin",
      "Access-Control-Expose-Headers"
    }
  }
  function Group2(): set<string> {
    {
      "Access-Control-Max-Age", "Access-Control-Request-Headers",
      "Access-Control-Request-Method", "Age", "Allow", "Authorization", "Cache-Control",
      "Connection", "Content-Encoding", "Content-Disposition"
    }
  }
  function Group3(): set<string> {
    {
      "Content-Language", ContentLength, "Content-Location", "Content-Range", ContentType,
      "Cookie", "Date", "ETag", "Expect", "Expires"
    }
  }
  function Group4(): set<string> {
    {
      "From", "Host", "If-Match", "If-Modified-Since", "If-None-Match", "If-Range",
      "If-Unmodified-Since", "Last-Modified", "Link", "Location"
    }
  }
  function Group5(): set<string> {
    {
      "Max-Forwards", "Origin", "Pragma", "Proxy-Authenticate", "Proxy-Authorization",
      "Range", "Referer", "Retry-After", "Server", "Set-Cookie"
    }
  }
  function Group6(): set<string> {
    {
      "Set-Cookie2", "TE", "Trailer", "Transfer-Encoding", "Upgrade", "User-Agent",
      "Vary", "Via", "Warning", "WWW-Authenticate"
    }
  }

  function StandardHeaderNames(): set<string> {
    Group1() + Group2() + Group3() + Group4() + Group5() + Group6()
  }

  /** List.contains: exact, case-sensitive membership. */
  predicate IsStandardHeader(value: string) {
    value in StandardHeaderNames()
  }

  /** A canonical HTTP field name: it starts with an upper-case letter other than 'X'. */
  predicate Capitalised(name: string) {
    |name| > 0 && IsUpper(name[0]) && name[0] != 'X'
  }

  /** Every allow-listed name is a capitalised field name. */
  lemma StandardNamesCapitalised(name: string)
    requires IsStandardHeader(name)
    ensures Capitalised(name)
  {
    if name in Group1() { Group1Capitalised(); }
    else if name in Group2() { Group2Capitalised(); }
    else if name in Group3() { Group3Capitalised(); }
    else if name in Group4() { Group4Capitalised(); }
    else if name in Group5() { Group5Capitalised(); }
    else { Group6Capitalised(); }
  }

  lemma Group1Capitalised()
    ensures forall n | n in Group1() :: Capitalised(n)
  {
  }

  lemma Group2Capitalised()
    ensures forall n | n in Group2() :: Capitalised(n)
  {
  }

  lemma Group3Capitalised()
    ensures forall n | n in Group3() :: Capitalised(n)
  {
  }

  lemma Group4Capitalised()
    ensures forall n | n in Group4() :: Capitalised(n)
  {
  }

  lemma Group5Capitalised()
    ensures forall n | n in Group5() :: Capitalised(n)
  {
  }

  lemma Group6Capitalised()
    ensures forall n | n in Group6() :: Capitalised(n)
  {
  }

  /** The two keys the store always records are on the list and so are emitted unprefixed. */
  lemma RequiredKeysAreStandard()
    ensures IsStandardHeader(ContentType) && IsStandardHeader(ContentLength)
  {
  }

  /** Membership is case-sensitive: the lower-case spelling of a listed name is not listed. */
  lemma MembershipIsCaseSensitive(name: string)
    requires IsStandardHeader(name)
    ensures !IsStandardHeader(ToLower(name))
  {
    StandardNamesCapitalised(name);
    if IsStandardHeader(ToLower(name)) {
      StandardNamesCapitalised(ToLower(name));
      assert false;
    }
  }
}
