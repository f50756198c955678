# bitFlyer DCA order script — Dafny model

This project models the core of `scripts/dca.py`, a daily dollar-cost-averaging
script for the bitFlyer exchange. One run of the script does four things:

- it reads the last traded price (LTP) of BTC_JPY;
- it plans a limit buy. The price is rounded down to a multiple of the
  5000 JPY unit, or undercut by 2000 when the LTP sits exactly on a unit
  boundary. The size is the 25000 JPY budget divided by that price, rounded
  half up to three decimals;
- it appends the plan to a CSV log;
- it posts the order through `BitFlyerPrvAPI`, a client that signs each
  private request with HMAC-SHA256 over `timestamp + method + path [+ body]`.

The model is split into these modules:

- `Wrappers`: `Option` and `Result`.
- `PyInt`: Python's `//`, `%` and `str` on ints. It also has a decimal
  reader that inverts `str`.
- `OrderPlanning`: the price and size arithmetic of `main`, as pure
  functions. The size is exact, counted in thousandths of a coin. Each
  exception the script can raise on the way is an error result.
- `BitFlyerPrvApi`: the client as a value, because its fields are never
  changed after `__init__`. `GetApiCall` and `PostApiCall` build the request
  that would be sent. The HMAC hex digest and `json.dumps` are
  function-valued parameters. `Authenticates` states the exchange's check,
  which every request is proved to pass.
- `Endpoints`: the paths and requests of `get_ltp`, `post_order`,
  `get_balance` and `get_trade_history`, and the order's JSON object. A
  query-string reader is proved to recover what the path builders put in.
- `TradeLog`: the log file as a class whose `rows` is `None` while the file
  does not exist. `WriteEntry` is the create-or-append step, specified by
  the function `AfterRun`.
- `Dca`: one run of `main`. It plans, then logs, then builds the order
  request. A failed plan leaves the log untouched.

Three behaviours of the code are worth knowing:

- On a unit boundary the price is `ltp - 2000`. That is 3000 above a
  multiple of 5000, and negative for an LTP below 2000
  (`BoundaryPriceOffGrid`).
- Off a boundary, `ltp - price` is strictly positive (`OrderPrice`).
- For `0 < ltp < 5000` the price is 0 and the size division raises. The
  model returns `ZeroOrderPrice` for this case (`PlanFailsIff`).

## Model

| member | source | states |
|---|---|---|
| PyInt.FloorDiv | scripts/dca.py:138 | `ltp // unit` is the floor of the real quotient, bracketed by multiples of the divisor for either sign of the divisor |
| PyInt.Mod | scripts/dca.py:135 | `ltp % unit` has the sign of the divisor, lies strictly inside one divisor of zero, and completes the floor quotient back to `ltp` |
| PyInt.ParseStr | scripts/dca.py:119 | `str(count)` loses nothing: reading the numeral back gives the same int, for negative values too |
| OrderPlanning.OrderPrice | scripts/dca.py:135-138 | on a unit boundary the price is `ltp - 2000`; otherwise it is a multiple of the unit, and for a positive unit it lies strictly between `ltp - unit` and `ltp` |
| OrderPlanning.SizeThousandths | scripts/dca.py:139-141 | the size is round-half-up at the third decimal: `k <= budget*1000/price + 1/2 < k + 1` |
| OrderPlanning.Plan | scripts/dca.py:134-141 | a missing price, a zero unit and a zero order price fail (each if and only if it occurs, checked in the script's order); on success the plan carries exactly that price and size |
| OrderPlanning.PriceBelowLastTraded | scripts/dca.py:135-138 | with a positive unit the limit buy price is strictly below the last traded price in both branches |
| OrderPlanning.GreatestMultipleBelow | scripts/dca.py:137-138 | off a boundary, every multiple of the unit below the LTP is at most the order price, so the price is the greatest such multiple |
| OrderPlanning.ZeroOrderPriceIff | scripts/dca.py:135-140 | the price is 0, so the size division raises, exactly when `0 < ltp < unit`, or when `ltp == 2000` and 2000 is a multiple of the unit |
| OrderPlanning.PlanFailsIff | scripts/dca.py:129-140 | with unit 5000 and budget 25000 a run fails exactly when there is no price or `0 < ltp < 5000` |
| OrderPlanning.BoundaryPriceOffGrid | scripts/dca.py:135-136 | on a boundary the price is 3000 modulo 5000, so it is not a multiple of the unit, and it is negative for an LTP below 2000 |
| OrderPlanning.SizeRoundingError | scripts/dca.py:140-141 | the rounded amount differs from `dca_amount / order_price` by more than -1/2000 and at most 1/2000 |
| OrderPlanning.SizeCostBound | scripts/dca.py:140-141 | for a positive price the order cost misses the budget by at most half a thousandth of the price: `-price < 2*k*price - 2000*budget <= price` |
| OrderPlanning.SizeUnique | scripts/dca.py:139-141 | the half-up rule has one answer: any `k` satisfying it is the computed size |
| OrderPlanning.PlanExamples | scripts/dca.py:129-141 | LTP 1234567 gives price 1230000 and size 0.020; LTP 1230000 gives 1228000 and 0.020; LTP 4999 fails on a zero price |
| BitFlyerPrvApi.GetApiCall | scripts/dca.py:27-44 | the GET goes to endpoint + path with no payload, carries exactly four headers including `Content-Type: application/json` and the timestamp, and its signature over `timestamp + "GET" + path` passes the exchange's check |
| BitFlyerPrvApi.PostApiCall | scripts/dca.py:49-68 | the POST payload is `json.dumps(body)`, it carries exactly four headers including `Content-Type: application/json` and the timestamp, and the signature over `timestamp + "POST" + path + payload` passes the exchange's check, so the signed body is the body sent |
| BitFlyerPrvApi.ForgedPayloadCollides | scripts/dca.py:50-60 | a POST whose payload was replaced and which the exchange still accepts exhibits two different signing texts with the same digest under the secret |
| BitFlyerPrvApi.ForgedPathCollides | scripts/dca.py:28-36 | a GET sent to another path with the original headers, which the exchange still accepts, exhibits two different signing texts with the same digest |
| BitFlyerPrvApi.PostSignatureBindsPayload | scripts/dca.py:50-60 | with a collision-free digest, the same POST with any other payload fails the exchange's check |
| BitFlyerPrvApi.GetSignatureBindsPath | scripts/dca.py:28-36 | with a collision-free digest, the same GET sent to any other path fails the exchange's check |
| Endpoints.TickerPath | scripts/dca.py:76 | the ticker path's route is `/v1/getticker` and its query is `product_code=<code>` |
| Endpoints.TickerPathParams | scripts/dca.py:76 | a product code without `&` reads back as the one query parameter `product_code` |
| Endpoints.ExecutionsPath | scripts/dca.py:119 | the executions path's route is `/v1/me/getexecutions` and its query is `product_code=<code>&count=<count>` |
| Endpoints.ExecutionsPathParams | scripts/dca.py:119 | a product code without `&` reads back as the parameters `product_code`, then `count` |
| Endpoints.ExecutionsPathRoundTrip | scripts/dca.py:118-119 | reading an executions path gives back the product code and the count it was built from |
| Endpoints.OrderBody | scripts/dca.py:90-102 | the order object has seven distinct keys, and each key holds its argument: price, size, and the LIMIT / BUY / 43200 / GTC / BTC_JPY defaults |
| Endpoints.TickerRequest | scripts/dca.py:75-79 | `get_ltp` sends an unsigned GET with no headers to the exchange's endpoint followed by the ticker path |
| Endpoints.OrderRequest | scripts/dca.py:90-105 | `post_order` posts the serialised order object to `/v1/me/sendchildorder` with a signature the exchange accepts |
| Endpoints.BalanceRequest | scripts/dca.py:112-116 | `get_balance` sends a signed GET of `/v1/me/getbalance` that the exchange accepts |
| Endpoints.TradeHistoryRequest | scripts/dca.py:118-122 | `get_trade_history` sends a signed GET of the executions path (by default 1000 BTC_JPY executions) that the exchange accepts |
| TradeLog.AfterRun | scripts/dca.py:145-154 | an absent log becomes exactly `[header, row]`; an existing log keeps every earlier row in place and gains exactly one row at the end |
| TradeLog.AfterRunExtendsEntries | scripts/dca.py:145-154 | a run keeps a log well formed (header first, entries after) and adds exactly its own entry to the entries |
| TradeLog.ReplayHeaderOnce | scripts/dca.py:145-154 | after any non-empty series of runs from no file, the log is the header once followed by one row per run, in order |
| TradeLog.LogFile.WriteEntry | scripts/dca.py:145-154 | the file's new rows are `AfterRun` of its old rows: created with header and row, or appended to |
| Dca.Run | scripts/dca.py:125-157 | a failed plan returns its error and leaves the log unchanged; otherwise the log gains exactly `[time, price, size, ltp]` and the signed order request for that price and size is returned |

## Left out

- HTTP traffic (`requests.get`/`requests.post`) and the handlers that print an exception and return `None` (scripts/dca.py:34-47, 57-71, 78-85, 103-109). These are network I/O. The model builds the request that would be sent. A failed ticker fetch is the `None` value given to `Plan`.
- JSON decoding: `str2json`, `res['ltp']` and `.json()` on responses (scripts/dca.py:17-18, 80-81, 105). The last traded price enters as `Option<int>`.
- The HMAC-SHA256 digest, the UTF-8 encoding of key and message, and `json.dumps`. These are library code and enter as function parameters. Only the lemmas that need it assume a collision-free digest, through `CollisionFree`.
- `time.time()`, `datetime.now().strftime(...)` and the `pathlib` existence check. These come from the environment. The timestamps are parameters, and the file's existence is whether `LogFile.rows` is `None`.
- BitFlyerPrvApi.PostSignatureBindsPayload: it assumes a digest that never collides, which a fixed-length HMAC-SHA256 hex digest cannot be. `ForgedPayloadCollides` states what holds for the real digest: an accepted forgery exhibits a collision.
- BitFlyerPrvApi.GetSignatureBindsPath: it assumes a collision-free digest for the same reason. `ForgedPathCollides` states the unconditional form.
- CSV quoting and encoding, and the text `str()` gives a float. A log row is a typed record, and its amount is in thousandths.
- `print(res)` at the end of `main` (scripts/dca.py:157), and the commented-out balance print.
- scripts/trade_history.py is not part of this model. It is an HTTP call followed by a dataframe dump to CSV, with no logic of its own.
- The `settings` credential module is not part of this model. The key and secret are parameters.
- OrderPlanning.SizeThousandths: the script computes the size with binary floating point (`dca_amount / order_price`, then `floor(amount * 10**3 + 0.5)`). The model computes it exactly. When the exact quotient in thousandths lies on or very near a half, the float result can differ by one thousandth.
- OrderPlanning.Plan: the LTP is modelled as an integer. A fractional price from the ticker would make the script's price arithmetic run on floats, which the model does not cover.
