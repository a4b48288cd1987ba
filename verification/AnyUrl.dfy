/**
 Type URLs of google.protobuf.Any: printing, parsing, and the suffix match that decides what an Any holds.
 */
module AnyUrl {
  import opened Wrappers

  function GetTypeUrl(messageName: string, typeUrlPrefix: string): string {
    if typeUrlPrefix != "" && typeUrlPrefix[|typeUrlPrefix| - 1] == '/' then typeUrlPrefix + messageName
    else typeUrlPrefix + "/" + messageName
  }

  /** The prefix as it stands in the URL. */
  function SlashTerminated(prefix: string): string {
    if prefix != "" && prefix[|prefix| - 1] == '/' then prefix else prefix + "/"
  }

  /** find_last_of('/'); npos is None. */
  function LastSlash(url: string): (pos: Option<nat>)
    ensures pos.Some? ==>
              && pos.value < |url| && url[pos.value] == '/'
              && forall i :: pos.value < i < |url| ==> url[i] != '/'
    ensures pos == None ==> '/' !in url
  {
    if url == "" then None
    else if url[|url| - 1] == '/' then Some(|url| - 1)
    else LastSlash(url[..|url| - 1])
  }

  datatype TypeUrl = TypeUrl(prefix: string, name: string)

  /** The two out-parameters, or None for the result false. */
  function ParseAnyTypeUrl(url: string): Option<TypeUrl> {
    match LastSlash(url)
    case None => None
    case Some(pos) => if pos + 1 == |url| then None else Some(TypeUrl(url[..pos + 1], url[pos + 1..]))
  }

  predicate InternalIs(url: string, typeName: string) {
    && |url| >= |typeName| + 1
    && url[|url| - |typeName| - 1] == '/'
    && url[|url| - |typeName|..] == typeName
  }

  /** Names the format is made for. */
  predicate ProperName(name: string) {
    name != "" && '/' !in name
  }

  /** Parsing is exactly the inverse of writing a slash-terminated prefix and a proper name next to each other. */
  lemma ParseExactly(url: string, prefix: string, name: string)
    ensures ParseAnyTypeUrl(url) == Some(TypeUrl(prefix, name)) <==>
            url == prefix + name && ProperName(name) && prefix != "" && prefix[|prefix| - 1] == '/'
  {
    if url == prefix + name && ProperName(name) && prefix != "" && prefix[|prefix| - 1] == '/' {
      var k := |prefix| - 1;
      assert url[k] == '/';
      assert forall i :: k < i < |url| ==> url[i] == name[i - |prefix|];
      assert LastSlash(url).value == k;
    }
  }

  /** What is printed is parsed back to the name and the slash-terminated prefix for every prefix, exactly for the
      proper names. */
  lemma RoundTripExactly(name: string, prefix: string)
    ensures ParseAnyTypeUrl(GetTypeUrl(name, prefix)) == Some(TypeUrl(SlashTerminated(prefix), name))
            <==> ProperName(name)
  {
    assert GetTypeUrl(name, prefix) == SlashTerminated(prefix) + name;
    ParseExactly(GetTypeUrl(name, prefix), SlashTerminated(prefix), name);
  }

  /** Printing what was parsed gives the URL again. */
  lemma ParseThenPrint(url: string)
    requires ParseAnyTypeUrl(url).Some?
    ensures GetTypeUrl(ParseAnyTypeUrl(url).value.name, ParseAnyTypeUrl(url).value.prefix) == url
    ensures ProperName(ParseAnyTypeUrl(url).value.name)
  {
    var u := ParseAnyTypeUrl(url).value;
    ParseExactly(url, u.prefix, u.name);
  }

  predicate ParsesTo(url: string, name: string) {
    ParseAnyTypeUrl(url).Some? && ParseAnyTypeUrl(url).value.name == name
  }

  /** For a proper name the suffix match is the same as parsing to that name, on all URLs. */
  lemma IsProperName(url: string, name: string)
    requires ProperName(name)
    ensures InternalIs(url, name) <==> ParsesTo(url, name)
  {
    if InternalIs(url, name) {
      ParseExactly(url, url[..|url| - |name|], name);
    } else if ParsesTo(url, name) {
      var u := ParseAnyTypeUrl(url).value;
      ParseExactly(url, u.prefix, u.name);
    }
  }

  /** For any other name it is not: the name's own URL matches, but does not parse to it. */
  lemma IsImproperName(name: string)
    requires !ProperName(name)
    ensures InternalIs("/" + name, name) && !ParsesTo("/" + name, name)
  {
    if ParsesTo("/" + name, name) {
      ParseThenPrint("/" + name);
    }
  }

  /** The two ways to read a type name from a URL agree on all URLs exactly for the proper names. */
  lemma IsAgreesWithParseExactly(name: string)
    ensures (forall url :: InternalIs(url, name) <==> ParsesTo(url, name)) <==> ProperName(name)
  {
    if ProperName(name) {
      forall url ensures InternalIs(url, name) <==> ParsesTo(url, name) { IsProperName(url, name); }
    } else {
      IsImproperName(name);
    }
  }

  /** What was packed is recognised under its own name, whatever the prefix, and under no other proper name; under a
      name with slashes only if the URL happens to end with it. */
  lemma PackedIs(name: string, prefix: string, other: string)
    ensures InternalIs(GetTypeUrl(name, prefix), name)
    ensures '/' !in name && '/' !in other ==> (InternalIs(GetTypeUrl(name, prefix), other) <==> other == name)
  {
    var url := GetTypeUrl(name, prefix);
    assert url == SlashTerminated(prefix) + name;
    var k := |url| - |name| - 1;
    assert url[k] == '/';
    if '/' !in name && '/' !in other && InternalIs(url, other) {
      var m := |url| - |other| - 1;
      assert forall i :: k < i < |url| ==> url[i] == name[i - k - 1];
      assert forall i :: m < i < |url| ==> url[i] == other[i - m - 1];
      assert m == k;
    }
  }

  /** An Any message: its two fields. Serializing and parsing the payload are not modelled; serialized and success are
      what SerializeToString left behind. */
  class AnyMetadata {
    var typeUrl: string
    var value: string

    constructor ()
      ensures typeUrl == "" && value == ""
    {
      typeUrl, value := "", "";
    }

    method InternalPackFrom(typeName: string, typeUrlPrefix: string, serialized: string, success: bool)
      returns (packed: bool)
      modifies this
      ensures InternalIs(typeUrl, typeName) && value == serialized && packed == success
      ensures ProperName(typeName) ==>
                ParseAnyTypeUrl(typeUrl) == Some(TypeUrl(SlashTerminated(typeUrlPrefix), typeName))
    {
      typeUrl := GetTypeUrl(typeName, typeUrlPrefix);
      value := serialized;
      PackedIs(typeName, typeUrlPrefix, typeName);
      RoundTripExactly(typeName, typeUrlPrefix);
      return success;
    }

    /** The bytes that are parsed into the message, if the name matches. */
    method InternalUnpackTo(typeName: string) returns (payload: Option<string>)
      ensures payload == if InternalIs(typeUrl, typeName) then Some(value) else None
      ensures ProperName(typeName) ==> (payload.Some? <==> ParsesTo(typeUrl, typeName))
    {
      if ProperName(typeName) { IsProperName(typeUrl, typeName); }
      if !InternalIs(typeUrl, typeName) {
        return None;
      }
      return Some(value);
    }
  }
}
