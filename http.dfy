/** `bit/http.py`: the HTTP Basic credentials of section 2 of RFC 7617, and
    the values `get_json` hands back. The request itself, over the network,
    is not part of this model. */
module Http {
  import opened Wrappers
    import Utf8
  import Base64

  /** A decoded JSON document. Numbers are integers here. */
  datatype Json =
    | JNull
    | JBool(b: bool)
    | JNumber(n: int)
    | JString(s: string)
    | JArray(items: seq<Json>)
    | JObject(fields: map<string, Json>)

  /** `urllib.request.Request(url, headers=headers)`. */
  datatype Request = Request(url: string, headers: map<string, string>)

  /** `HTTPError`: the request failed, or its body was not JSON. */
  datatype HttpError = HttpError(reason: string)

  /** The text `basic_auth` encodes: the user name, a colon, then the
      password. */
  function UserPass(username: string, password: string): (credentials: string)
    ensures |credentials| == |username| + 1 + |password|
    ensures credentials[..|username|] == username && credentials[|username|] == ':'
    ensures credentials[|username| + 1..] == password
  {
    username + ":" + password
  }

  const BasicPrefix := "Basic "

  /** `basic_auth(username, password)`: `Basic ` and the base 64 encoding of
      the UTF-8 bytes of `username:password`. */
  function BasicAuth(username: string, password: string): (value: string)
    ensures |value| == |BasicPrefix| + 4 * ((|Utf8.Encode(UserPass(username, password))| + 2) / 3)
    ensures value[..|BasicPrefix|] == BasicPrefix
  {
    BasicPrefix + Base64.Encode(Utf8.Encode(UserPass(username, password)))
  }

  /** The credentials a header value carries, or `None`: the reading of
      section 2 of RFC 7617 a server makes. */
  function ParseBasicAuth(value: string): Option<string> {
    if |value| >= |BasicPrefix| && value[..|BasicPrefix|] == BasicPrefix then
      match Base64.Decode(value[|BasicPrefix|..])
      case None => None
      case Some(bytes) => Utf8.Decode(bytes)
    else None
  }

  /** The header gives back exactly `username:password`. */
  lemma ParseBasicAuthOf(username: string, password: string)
    ensures ParseBasicAuth(BasicAuth(username, password)) == Some(UserPass(username, password))
  {
    var bytes := Utf8.Encode(UserPass(username, password));
    var value := BasicAuth(username, password);
    assert value[|BasicPrefix|..] == Base64.Encode(bytes);
    Base64.DecodeEncode(bytes);
    Utf8.DecodeEncode(UserPass(username, password));
  }

  /** After `Basic `, the header holds alphabet characters and then at most
      two pads. */
  lemma BasicAuthPayload(username: string, password: string)
    ensures var value := BasicAuth(username, password);
            var p := Base64.Padding(|Utf8.Encode(UserPass(username, password))|);
            forall i :: |BasicPrefix| <= i < |value| ==>
              (Base64.IsAlphabet(value[i]) <==> i < |value| - p) && (value[i] == Base64.Pad <==> i >= |value| - p)
  {
    var bytes := Utf8.Encode(UserPass(username, password));
    Base64.EncodeAlphabet(bytes);
    var value := BasicAuth(username, password);
    assert forall i :: |BasicPrefix| <= i < |value| ==> value[i] == Base64.Encode(bytes)[i - |BasicPrefix|];
  }

  /** With ASCII names the payload has 4 * ceil((|username| + |password| + 1) / 3)
      characters. */
  lemma BasicAuthAsciiLength(username: string, password: string)
    requires forall i :: 0 <= i < |username| ==> username[i] as int < 0x80
    requires forall i :: 0 <= i < |password| ==> password[i] as int < 0x80
    ensures |BasicAuth(username, password)| == |BasicPrefix| + 4 * ((|username| + |password| + 1 + 2) / 3)
  {
    var c := UserPass(username, password);
    assert forall i :: 0 <= i < |c| ==> c[i] as int < 0x80 by {
      forall i | 0 <= i < |c|
        ensures c[i] as int < 0x80
      {
        if i < |username| {
          assert c[i] == username[i];
        } else if i > |username| {
          assert c[i] == password[i - |username| - 1];
        }
      }
    }
    Utf8.EncodeAscii(c);
  }

  /** The empty user name and password give `Basic Og==`. */
  lemma EmptyCredentials()
    ensures BasicAuth("", "") == "Basic Og=="
  {
    assert UserPass("", "") == ":";
    assert Utf8.Encode(":") == [58];
    var vs := Base64.EncodeValues([58]);
    assert vs == [14, 32];
    assert Base64.Chars(vs) == "Og";
    assert Base64.Pads(2) == "==";
    assert Base64.Encode([58]) == "Og==";
  }
}
