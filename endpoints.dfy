/**
 * The calls of scripts/dca.py built on the client: the public ticker query
 * of `get_ltp`, the order of `post_order`, and the private GETs of
 * `get_balance` and `get_trade_history`. Each builds a path (with its query
 * string) and, for the order, a JSON object. A query-string reader
 * recovers what the path builders put in.
 */
module Endpoints {
  import opened Wrappers
  import opened PyInt
  import opened BitFlyerPrvApi

  const TickerRoute: string := "/v1/getticker"
  const OrderPath: string := "/v1/me/sendchildorder"
  const BalancePath: string := "/v1/me/getbalance"
  const ExecutionsRoute: string := "/v1/me/getexecutions"

  // ----- reading a path back -----

  /** The position of the first `c` in `s`, or `|s|` when there is none. */
  function IndexOf(s: string, c: char): (i: nat)
    ensures i <= |s|
    ensures i < |s| ==> s[i] == c
    ensures c !in s[..i]
  {
    if s == [] then 0
    else if s[0] == c then 0
    else
      var i := 1 + IndexOf(s[1..], c);
      assert s[..i] == [s[0]] + s[1..][..i - 1];
      i
  }

  /** The part of a path before its `?`. */
  function Route(path: string): string {
    path[..IndexOf(path, '?')]
  }

  /** The part of a path after its first `?`, empty when there is none. */
  function QueryString(path: string): string {
    var i := IndexOf(path, '?');
    if i < |path| then path[i + 1..] else ""
  }

  /** `s` cut at every `sep`. */
  function Split(s: string, sep: char): (parts: seq<string>)
    ensures |parts| >= 1
    decreases |s|
  {
    var i := IndexOf(s, sep);
    if i == |s| then [s] else [s[..i]] + Split(s[i + 1..], sep)
  }

  /** A `key=value` field cut at its first `=`. */
  function KeyValue(field: string): (string, string) {
    var i := IndexOf(field, '=');
    (field[..i], if i < |field| then field[i + 1..] else "")
  }

  /** The `key=value` pairs of a path's query string, in order. */
  function QueryParams(path: string): seq<(string, string)> {
    var q := QueryString(path);
    if q == "" then [] else
      var fields := Split(q, '&');
      seq(|fields|, i requires 0 <= i < |fields| => KeyValue(fields[i]))
  }

  /** The first value given for a query key. */
  function Param(params: seq<(string, string)>, key: string): Option<string> {
    if params == [] then None
    else if params[0].0 == key then Some(params[0].1)
    else Param(params[1..], key)
  }

  lemma {:induction false} IndexOfSeparator(a: string, c: char, b: string)
    requires c !in a
    ensures IndexOf(a + [c] + b, c) == |a|
  {
    if a != [] {
      assert (a + [c] + b)[1..] == a[1..] + [c] + b;
      IndexOfSeparator(a[1..], c, b);
    }
  }

  lemma {:induction false} IndexOfAbsent(a: string, c: char)
    requires c !in a
    ensures IndexOf(a, c) == |a|
  {
    if a != [] {
      IndexOfAbsent(a[1..], c);
    }
  }

  lemma SplitAtSeparator(a: string, sep: char, b: string)
    requires sep !in a
    ensures Split(a + [sep] + b, sep) == [a] + Split(b, sep)
  {
    var s := a + [sep] + b;
    IndexOfSeparator(a, sep, b);
    assert s[..|a|] == a;
    assert s[|a| + 1..] == b;
  }

  lemma SplitWithoutSeparator(a: string, sep: char)
    requires sep !in a
    ensures Split(a, sep) == [a]
  {
    IndexOfAbsent(a, sep);
  }

  /** A query field as an f-string writes it: `key=value`. */
  function Field(key: string, value: string): string {
    key + "=" + value
  }

  lemma KeyValueOf(key: string, value: string)
    requires '=' !in key
    ensures KeyValue(Field(key, value)) == (key, value)
  {
    var field := key + "=" + value;
    IndexOfSeparator(key, '=', value);
    assert field[..|key|] == key;
    assert field[|key| + 1..] == value;
  }

  /** A path made of a `?`-free route and a query string splits back into the two. */
  lemma RouteAndQuery(route: string, query: string)
    requires '?' !in route
    ensures Route(route + "?" + query) == route
    ensures QueryString(route + "?" + query) == query
  {
    IndexOfSeparator(route, '?', query);
    assert (route + "?" + query)[..|route|] == route;
    assert (route + "?" + query)[|route| + 1..] == query;
  }

  // ----- the paths -----

  /** `get_ltp`'s path: the ticker route with the product code as its one query field. */
  function TickerPath(productCode: string): (path: string)
    ensures Route(path) == TickerRoute
    ensures QueryString(path) == Field("product_code", productCode)
  {
    var query := Field("product_code", productCode);
    RouteAndQuery(TickerRoute, query);
    TickerRoute + "?" + query
  }

  /** `get_trade_history`'s path: the executions route with product code and count. */
  function ExecutionsPath(productCode: string, count: int): (path: string)
    ensures Route(path) == ExecutionsRoute
    ensures QueryString(path) == Field("product_code", productCode) + "&" + Field("count", Str(count))
  {
    var query := Field("product_code", productCode) + "&" + Field("count", Str(count));
    RouteAndQuery(ExecutionsRoute, query);
    ExecutionsRoute + "?" + query
  }

  /** Reads the product code and count back from an executions path. */
  function ExecutionsQueryOf(path: string): Option<(string, int)> {
    if Route(path) != ExecutionsRoute then None
    else
      var params := QueryParams(path);
      var productCode, count := Param(params, "product_code"), Param(params, "count");
      if productCode.None? || count.None? then None
      else
        match ParseInt(count.value)
        case None => None
        case Some(n) => Some((productCode.value, n))
  }

  /** The ticker query carries exactly the product code, when the code has no `&`. */
  lemma TickerPathParams(productCode: string)
    requires '&' !in productCode
    ensures QueryParams(TickerPath(productCode)) == [("product_code", productCode)]
  {
    var q := Field("product_code", productCode);
    SplitWithoutSeparator(q, '&');
    KeyValueOf("product_code", productCode);
    var params := QueryParams(TickerPath(productCode));
    assert |params| == 1 && params[0] == KeyValue(q);
  }

  lemma NumeralHasNoAmpersand(n: int)
    ensures '&' !in Str(n)
  {
  }

  /** The executions query carries the product code and then the count, when the code has no `&`. */
  lemma ExecutionsPathParams(productCode: string, count: int)
    requires '&' !in productCode
    ensures QueryParams(ExecutionsPath(productCode, count)) == [("product_code", productCode), ("count", Str(count))]
  {
    var first, second := Field("product_code", productCode), Field("count", Str(count));
    NumeralHasNoAmpersand(count);
    SplitAtSeparator(first, '&', second);
    SplitWithoutSeparator(second, '&');
    KeyValueOf("product_code", productCode);
    KeyValueOf("count", Str(count));
    var params := QueryParams(ExecutionsPath(productCode, count));
    assert |params| == 2 && params[0] == KeyValue(first) && params[1] == KeyValue(second);
  }

  /** The executions path loses nothing: its reader gives back the product code and the count. */
  lemma ExecutionsPathRoundTrip(productCode: string, count: int)
    requires '&' !in productCode
    ensures ExecutionsQueryOf(ExecutionsPath(productCode, count)) == Some((productCode, count))
  {
    ExecutionsPathParams(productCode, count);
    ParseStr(count);
    var params := QueryParams(ExecutionsPath(productCode, count));
    assert Param(params, "product_code") == Some(productCode);
    assert Param(params[1..], "count") == Some(Str(count));
  }

  // ----- the order body -----

  /** The JSON values the order body holds; the size is a decimal with three places, in thousandths. */
  datatype JsonValue = JString(s: string) | JInt(i: int) | JThousandths(t: int)

  /** A JSON object as Python's dict keeps it: key/value pairs in insertion order. */
  type JsonObject = seq<(string, JsonValue)>

  predicate DistinctKeys(obj: JsonObject) {
    forall i, j :: 0 <= i < j < |obj| ==> obj[i].0 != obj[j].0
  }

  function Lookup(obj: JsonObject, key: string): Option<JsonValue> {
    if obj == [] then None
    else if obj[0].0 == key then Some(obj[0].1)
    else Lookup(obj[1..], key)
  }

  /** In an object without repeated keys, each key finds its own value. */
  lemma {:induction false} LookupAt(obj: JsonObject, i: nat)
    requires DistinctKeys(obj) && i < |obj|
    ensures Lookup(obj, obj[i].0) == Some(obj[i].1)
  {
    if i > 0 {
      assert obj[0].0 != obj[i].0;
      LookupAt(obj[1..], i - 1);
    }
  }

  /**
   * `post_order`'s body: price and size from the caller, the other fields
   * from parameters defaulting to a good-till-cancelled limit buy of BTC_JPY
   * that expires after 43200 minutes.
   */
  function OrderBody(price: int, sizeThousandths: int, productCode: string := "BTC_JPY",
                     childOrderType: string := "LIMIT", side: string := "BUY",
                     minuteToExpire: int := 43200, timeInForce: string := "GTC"): (body: JsonObject)
    ensures |body| == 7 && DistinctKeys(body)
    ensures Lookup(body, "product_code") == Some(JString(productCode))
    ensures Lookup(body, "child_order_type") == Some(JString(childOrderType))
    ensures Lookup(body, "side") == Some(JString(side))
    ensures Lookup(body, "price") == Some(JInt(price))
    ensures Lookup(body, "size") == Some(JThousandths(sizeThousandths))
    ensures Lookup(body, "minute_to_expire") == Some(JInt(minuteToExpire))
    ensures Lookup(body, "time_in_force") == Some(JString(timeInForce))
  {
    var body :=
      [ ("product_code", JString(productCode)),
        ("child_order_type", JString(childOrderType)),
        ("side", JString(side)),
        ("price", JInt(price)),
        ("size", JThousandths(sizeThousandths)),
        ("minute_to_expire", JInt(minuteToExpire)),
        ("time_in_force", JString(timeInForce)) ];
    assert DistinctKeys(body);
    LookupAt(body, 0); LookupAt(body, 1); LookupAt(body, 2); LookupAt(body, 3);
    LookupAt(body, 4); LookupAt(body, 5); LookupAt(body, 6);
    body
  }

  // ----- the requests -----

  /** `get_ltp`'s request: an unsigned GET of the ticker path on the exchange's endpoint. */
  function TickerRequest(productCode: string := "BTC_JPY"): (r: HttpRequest)
    ensures r.verb == GET && r.headers == [] && r.data == None
    ensures HasPrefix(r.url, ApiEndpoint) && r.url[|ApiEndpoint|..] == TickerPath(productCode)
  {
    var r := HttpRequest(GET, ApiEndpoint + TickerPath(productCode), [], None);
    assert r.url[..|ApiEndpoint|] == ApiEndpoint;
    r
  }

  /**
   * `post_order`'s request: the order body, serialised by `dumps`, posted to
   * the order path with a signature the exchange accepts, the signed payload
   * being the one sent.
   */
  function OrderRequest(apiKey: string, apiSecret: string, price: int, sizeThousandths: int,
                        dumps: JsonObject -> string, timestamp: string, hmac: HmacHex,
                        productCode: string := "BTC_JPY", childOrderType: string := "LIMIT",
                        side: string := "BUY", minuteToExpire: int := 43200,
                        timeInForce: string := "GTC"): (r: HttpRequest)
    ensures r.verb == POST && r.url == ApiEndpoint + OrderPath
    ensures r.data == Some(dumps(OrderBody(price, sizeThousandths, productCode, childOrderType,
                                           side, minuteToExpire, timeInForce)))
    ensures Authenticates(apiKey, apiSecret, ApiEndpoint, r, hmac)
  {
    var body := OrderBody(price, sizeThousandths, productCode, childOrderType, side, minuteToExpire, timeInForce);
    PostApiCall(Client(apiKey, apiSecret), OrderPath, body, dumps, timestamp, hmac)
  }

  /** `get_balance`'s request: a signed GET of the balance path. */
  function BalanceRequest(apiKey: string, apiSecret: string, timestamp: string, hmac: HmacHex): (r: HttpRequest)
    ensures r.verb == GET && r.url == ApiEndpoint + BalancePath && r.data == None
    ensures Authenticates(apiKey, apiSecret, ApiEndpoint, r, hmac)
  {
    GetApiCall(Client(apiKey, apiSecret), BalancePath, timestamp, hmac)
  }

  /** `get_trade_history`'s request: a signed GET of the executions path, by default 1000 BTC_JPY executions. */
  function TradeHistoryRequest(apiKey: string, apiSecret: string, timestamp: string, hmac: HmacHex,
                               productCode: string := "BTC_JPY", count: int := 1000): (r: HttpRequest)
    ensures r.verb == GET && r.data == None
    ensures r.url == ApiEndpoint + ExecutionsPath(productCode, count)
    ensures Authenticates(apiKey, apiSecret, ApiEndpoint, r, hmac)
  {
    GetApiCall(Client(apiKey, apiSecret), ExecutionsPath(productCode, count), timestamp, hmac)
  }
}
