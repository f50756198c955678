/**
 * The signed-request client of scripts/dca.py (`BitFlyerPrvAPI`). Its three
 * fields are set once by the constructor and never changed, so the client
 * is a value and each call builds the request it would send. The HMAC-SHA256
 * hex digest and the JSON serialiser are library code outside this model:
 * they are parameters, and nothing is assumed about them unless a lemma
 * says so.
 */
module BitFlyerPrvApi {
  import opened Wrappers

  const ApiEndpoint: string := "https://api.bitflyer.jp"

  /** `hmac.new(key, message, sha256).hexdigest()`, as a function of key and message. */
  type HmacHex = (string, string) -> string

  /** The client: API key, API secret and endpoint, the endpoint defaulting to the exchange's. */
  datatype Client = Client(apiKey: string, apiSecret: string, apiEndpoint: string := ApiEndpoint)

  datatype Verb = GET | POST

  function VerbName(v: Verb): string {
    match v
    case GET => "GET"
    case POST => "POST"
  }

  /** An HTTP request as handed to the transport: verb, URL, headers in order, payload. */
  datatype HttpRequest = HttpRequest(verb: Verb, url: string, headers: seq<(string, string)>, data: Option<string>)

  /** The first value given for a header name, if any. */
  function HeaderValue(headers: seq<(string, string)>, name: string): (v: Option<string>)
    ensures v.Some? <==> exists i :: 0 <= i < |headers| && headers[i].0 == name
    ensures v.Some? ==> exists i :: 0 <= i < |headers| && headers[i] == (name, v.value)
  {
    if headers == [] then None
    else if headers[0].0 == name then Some(headers[0].1)
    else
      var v := HeaderValue(headers[1..], name);
      assert forall i :: 1 <= i < |headers| ==> headers[i] == headers[1..][i - 1];
      v
  }

  /** The four headers every private call carries. */
  function AuthHeaders(apiKey: string, timestamp: string, sign: string): seq<(string, string)> {
    [ ("ACCESS-KEY", apiKey),
      ("ACCESS-TIMESTAMP", timestamp),
      ("ACCESS-SIGN", sign),
      ("Content-Type", "application/json") ]
  }

  lemma AuthHeaderValues(apiKey: string, timestamp: string, sign: string)
    ensures var h := AuthHeaders(apiKey, timestamp, sign);
            && HeaderValue(h, "ACCESS-KEY") == Some(apiKey)
            && HeaderValue(h, "ACCESS-TIMESTAMP") == Some(timestamp)
            && HeaderValue(h, "ACCESS-SIGN") == Some(sign)
            && HeaderValue(h, "Content-Type") == Some("application/json")
  {
    var h := AuthHeaders(apiKey, timestamp, sign);
    assert h[1..][1..][0] == ("ACCESS-SIGN", sign);
    assert h[1..][1..][1..][0] == ("Content-Type", "application/json");
  }

  predicate HasPrefix(s: string, prefix: string) {
    |prefix| <= |s| && s[..|prefix|] == prefix
  }

  /**
   * The exchange's side of the scheme: the text it signs is the request's
   * ACCESS-TIMESTAMP, its verb, its path (the URL after the endpoint) and
   * its payload (empty when there is none).
   */
  function ServerSigningText(r: HttpRequest, endpoint: string): string
    requires HasPrefix(r.url, endpoint)
  {
    var timestamp := HeaderValue(r.headers, "ACCESS-TIMESTAMP");
    (if timestamp.Some? then timestamp.value else "")
      + VerbName(r.verb)
      + r.url[|endpoint|..]
      + (if r.data.Some? then r.data.value else "")
  }

  /** The exchange accepts `r` for this key and secret: it is addressed to the endpoint and its signature matches. */
  predicate Authenticates(apiKey: string, apiSecret: string, endpoint: string, r: HttpRequest, hmac: HmacHex) {
    && HasPrefix(r.url, endpoint)
    && HeaderValue(r.headers, "ACCESS-KEY") == Some(apiKey)
    && HeaderValue(r.headers, "ACCESS-TIMESTAMP").Some?
    && HeaderValue(r.headers, "ACCESS-SIGN") == Some(hmac(apiSecret, ServerSigningText(r, endpoint)))
  }

  /** The digest function tells apart any two messages signed with this key. */
  ghost predicate CollisionFree(hmac: HmacHex, key: string) {
    forall m1, m2 :: hmac(key, m1) == hmac(key, m2) ==> m1 == m2
  }

  /**
   * `get_api_call`: signs `timestamp + "GET" + path` and addresses the
   * request to endpoint + path, without payload.
   */
  function GetApiCall(client: Client, path: string, timestamp: string, hmac: HmacHex): (r: HttpRequest)
    ensures r.verb == GET && r.url == client.apiEndpoint + path && r.data == None
    ensures |r.headers| == 4 && HeaderValue(r.headers, "Content-Type") == Some("application/json")
    ensures HeaderValue(r.headers, "ACCESS-TIMESTAMP") == Some(timestamp)
    ensures Authenticates(client.apiKey, client.apiSecret, client.apiEndpoint, r, hmac)
  {
    var text := timestamp + "GET" + path;
    var sign := hmac(client.apiSecret, text);
    var r := HttpRequest(GET, client.apiEndpoint + path, AuthHeaders(client.apiKey, timestamp, sign), None);
    assert r.url[|client.apiEndpoint|..] == path;
    AuthHeaderValues(client.apiKey, timestamp, sign);
    assert ServerSigningText(r, client.apiEndpoint) == text;
    r
  }

  /**
   * `post_api_call`: serialises the body once, signs
   * `timestamp + "POST" + path + serialised` and sends that same string as
   * the payload.
   */
  function PostApiCall<B>(client: Client, path: string, body: B, dumps: B -> string, timestamp: string, hmac: HmacHex): (r: HttpRequest)
    ensures r.verb == POST && r.url == client.apiEndpoint + path && r.data == Some(dumps(body))
    ensures |r.headers| == 4 && HeaderValue(r.headers, "Content-Type") == Some("application/json")
    ensures HeaderValue(r.headers, "ACCESS-TIMESTAMP") == Some(timestamp)
    ensures Authenticates(client.apiKey, client.apiSecret, client.apiEndpoint, r, hmac)
  {
    var serialised := dumps(body);
    var text := timestamp + "POST" + path + serialised;
    var sign := hmac(client.apiSecret, text);
    var r := HttpRequest(POST, client.apiEndpoint + path, AuthHeaders(client.apiKey, timestamp, sign), Some(serialised));
    assert r.url[|client.apiEndpoint|..] == path;
    AuthHeaderValues(client.apiKey, timestamp, sign);
    assert ServerSigningText(r, client.apiEndpoint) == text;
    r
  }

  /** Equal concatenations with a common prefix have equal tails. */
  lemma CommonPrefix(a: string, b1: string, b2: string)
    requires a + b1 == a + b2
    ensures b1 == b2
  {
    assert b1 == (a + b1)[|a|..];
    assert b2 == (a + b2)[|a|..];
  }

  /**
   * A POST whose payload was replaced and which the exchange still accepts
   * exhibits a collision of the digest: two different signing texts, the
   * one signed and the one checked, with the same digest under the secret.
   */
  lemma {:induction false} ForgedPayloadCollides<B>(client: Client, path: string, body: B, dumps: B -> string,
                                                    timestamp: string, hmac: HmacHex, other: string)
    requires other != dumps(body)
    requires var r := PostApiCall(client, path, body, dumps, timestamp, hmac);
             Authenticates(client.apiKey, client.apiSecret, client.apiEndpoint, r.(data := Some(other)), hmac)
    ensures var signed, checked := timestamp + "POST" + path + dumps(body), timestamp + "POST" + path + other;
            signed != checked && hmac(client.apiSecret, signed) == hmac(client.apiSecret, checked)
  {
    var r := PostApiCall(client, path, body, dumps, timestamp, hmac);
    var t := r.(data := Some(other));
    var prefix := timestamp + "POST" + path;
    assert ServerSigningText(r, client.apiEndpoint) == prefix + dumps(body);
    assert ServerSigningText(t, client.apiEndpoint) == prefix + other;
    if prefix + dumps(body) == prefix + other {
      CommonPrefix(prefix, dumps(body), other);
    }
  }

  /**
   * A GET sent to another path with the original headers, which the
   * exchange still accepts, exhibits a collision of the digest.
   */
  lemma {:induction false} ForgedPathCollides(client: Client, path: string, timestamp: string, hmac: HmacHex, other: string)
    requires other != path
    requires var r := GetApiCall(client, path, timestamp, hmac);
             Authenticates(client.apiKey, client.apiSecret, client.apiEndpoint, r.(url := client.apiEndpoint + other), hmac)
    ensures var signed, checked := timestamp + "GET" + path, timestamp + "GET" + other;
            signed != checked && hmac(client.apiSecret, signed) == hmac(client.apiSecret, checked)
  {
    var r := GetApiCall(client, path, timestamp, hmac);
    var t := r.(url := client.apiEndpoint + other);
    var prefix := timestamp + "GET";
    assert t.url[|client.apiEndpoint|..] == other;
    assert ServerSigningText(r, client.apiEndpoint) == prefix + path;
    assert ServerSigningText(t, client.apiEndpoint) == prefix + other;
    if prefix + path == prefix + other {
      CommonPrefix(prefix, path, other);
    }
  }

  /**
   * The signature of a POST covers its payload: with a collision-free
   * digest, the same request carrying any other payload is refused.
   */
  lemma {:induction false} PostSignatureBindsPayload<B>(client: Client, path: string, body: B, dumps: B -> string,
                                                        timestamp: string, hmac: HmacHex, other: string)
    requires CollisionFree(hmac, client.apiSecret)
    requires other != dumps(body)
    ensures var r := PostApiCall(client, path, body, dumps, timestamp, hmac);
            !Authenticates(client.apiKey, client.apiSecret, client.apiEndpoint, r.(data := Some(other)), hmac)
  {
    var r := PostApiCall(client, path, body, dumps, timestamp, hmac);
    if Authenticates(client.apiKey, client.apiSecret, client.apiEndpoint, r.(data := Some(other)), hmac) {
      ForgedPayloadCollides(client, path, body, dumps, timestamp, hmac, other);
    }
  }

  /**
   * The signature of a GET covers its path: with a collision-free digest,
   * the same request sent to any other path on the endpoint is refused.
   */
  lemma {:induction false} GetSignatureBindsPath(client: Client, path: string, timestamp: string, hmac: HmacHex, other: string)
    requires CollisionFree(hmac, client.apiSecret)
    requires other != path
    ensures var r := GetApiCall(client, path, timestamp, hmac);
            !Authenticates(client.apiKey, client.apiSecret, client.apiEndpoint, r.(url := client.apiEndpoint + other), hmac)
  {
    var r := GetApiCall(client, path, timestamp, hmac);
    if Authenticates(client.apiKey, client.apiSecret, client.apiEndpoint, r.(url := client.apiEndpoint + other), hmac) {
      ForgedPathCollides(client, path, timestamp, hmac, other);
    }
  }
}
