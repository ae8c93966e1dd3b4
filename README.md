# coinbase.py in Dafny

A model of the client library `coinbase.py` for the Coinbase Pro REST API, with proofs about
that model. It covers the parts of the library that have logic of their own:

- **Historical candles** (`CandleHistory`, `history.dfy`). This is `CoinbasePublic.get_history`:
  - the interval table and the divisor chain;
  - the choice of the time range from the optional day bounds;
  - the window count and the step, computed with Python's truncating `int(a / b)`;
  - the request loop, with its `startTime`/`runningTime` cursor and its `breakout` flag;
  - the stable sort by open time;
  - the in-place insertion of the close time into every row.

  The helper method `GetHistory` follows the source statement by statement. It is proved equal
  to the total function `Backfill`, whose outcome is one of four values: the interval is unknown
  (`return 0`), a `ZeroDivisionError` is raised, the loop never ends, or the processed rows.
- **CSV export** (`CandleCsv`, `csv.dfy`). This gives the text that `save_historical_data`
  writes, with its column permutation. It also has a reader for that text, and a proof that
  reading the text back returns every written column.
- **Order book** (`OrderBook`, `orderbook.dfy`). `parse_orders`, `get_bids` and `get_asks` tag
  each entry with the venue name.
- **Request signing** (`Auth`, `auth.dfy`). `CoinbaseAuth` builds and ASCII-encodes the signed
  message, computes the five authentication headers, and updates the request's headers with them.
- **Order placement** (`Orders`, `orders.dfy`). `place_order` builds its parameters: only
  good-til-time orders carry `cancel_after`, and `post_only` is always the text "false". The reply
  is matched by exact equality against the two recognised error messages. The presets are
  `limit_buy`, `limit_sell`, `immediate_buy` and `immediate_sell`.
- **Shared helpers.** `Text` (`text.dfy`) has Python's `str` of an integer and its inverse, and
  splitting and joining on a separator. `Wrappers` (`wrappers.dfy`) has `Option` and `Result`.

Several of the source's peculiarities are reproduced as written and stated as lemmas:

- "15m" uses 300 seconds as its divisor base but sends granularity 900.
- "6h" sends granularity 12600 but uses 21600 as its divisor base. So one "6h" request may span
  514 candles at the granularity it sends, more than the limit of 300.
- When the range divides evenly into steps, the loop makes one extra, degenerate request from
  `endTime` to `endTime`.
- On equal bounds the step is 0 and the loop never ends.
- A zero limit, or a range that runs backwards by less than two divisors, raises
  `ZeroDivisionError`.
- A range that runs further backwards requests nothing.

Two of these behaviours differ from what a reader of the code might expect:

- **The windowing example.** With the range 0..1000 and a divisor of 1000, the window count is 2
  and the step 500, so one might expect 2 requests. The code makes 3: `[0,500]`, `[500,1000]`
  and then `[1000,1000]` (`EvenRangeExample`).
- **The "6h" granularity.** Every other entry of the interval table is its interval in seconds.
  The "6h" entry is 12600, although 6 hours is 21600 seconds, and 12600 is the granularity every
  "6h" request sends (`GranularityVersusBase`, `SixHourWindowExceedsLimit`).

## Model

| member | source | states |
|---|---|---|
| CandleHistory.Granularity | coinbase.py:89-99 | a granularity exists exactly for the six interval names |
| CandleHistory.DivisorBase | coinbase.py:127-140 | a divisor base exists exactly for the six interval names, and it is at least 60 seconds |
| CandleHistory.GranularityVersusBase | coinbase.py:89-96 | the granularity text equals the divisor base in decimal for every interval except "15m" and "6h" |
| CandleHistory.ResolveRange | coinbase.py:107-125 | a given bound is used as is; with exactly one bound given the range is 30 days long; with none, the range runs from the first clock read minus 30 days to the second clock read |
| CandleHistory.TruncDiv | coinbase.py:145-148 | `int(a / b)` has the quotient of the absolute values as its magnitude; a nonzero result is negative exactly when the signs differ |
| CandleHistory.PlanFor | coinbase.py:98-148 | the plan fails as unknown exactly for names outside the table; on success the base is the table's and the divisor is base times limit |
| CandleHistory.WindowCount | coinbase.py:145 | for a non-negative span, `int(span / divisor + 1)` is the floor quotient plus one, at least 1 |
| CandleHistory.StepBounds | coinbase.py:145-148 | the step is the floor share of the span; that many steps fit in the span; the step is below the divisor, and at least 1 once the span is at least 1 and the divisor at least 2 |
| CandleHistory.ForwardPlan | coinbase.py:127-148 | for a known interval, a positive limit and a forward range, the plan exists; divisor ≥ 60, count = span / divisor + 1, 1 ≤ step < divisor, and count × step ≤ span |
| CandleHistory.PlannedWindowsShape | coinbase.py:150-177 | the windows requested: none exactly when the first step passes the end; otherwise the first starts at the start and the last ends at the end; all windows lie in the range and are contiguous; every non-final window is one step long; the last is degenerate exactly when the step divides the range |
| CandleHistory.AppendAll | coinbase.py:166-167 | appending the reply row by row leaves the earlier rows followed by the reply |
| CandleHistory.RequestWindows | coinbase.py:150-177 | the loop with cursor and `breakout` requests exactly the planned windows, in order, each request sending the given granularity; its accumulated response is the concatenation of the replies |
| CandleHistory.LoopWithoutProgress | coinbase.py:150-177 | with a step ≤ 0 and a first end within range, after any number of passes the guard still holds and `breakout` is still false |
| CandleHistory.PassDecreases | coinbase.py:156-177 | with a positive step every pass lowers the termination measure |
| CandleHistory.InsertByOpenTime | coinbase.py:179 | inserting into a sorted list keeps it sorted and adds exactly the new row |
| CandleHistory.SortByOpenTime | coinbase.py:179 | the result is ordered by open time and is a permutation of the input |
| CandleHistory.InsertKeepsOrder | coinbase.py:179 | insertion puts a new row before existing rows with the same open time; since `SortByOpenTime` inserts each earlier row into the already sorted rest, this is what keeps equal rows in their received order |
| CandleHistory.SortIsStable | coinbase.py:179 | rows with equal open time keep their relative order |
| CandleHistory.WithCloseTime | coinbase.py:181-182 | the open time stays, its close time (open + base − 1) goes in at index 1, and every other field moves one place right |
| CandleHistory.CloseTimeRemovable | coinbase.py:181-182 | removing index 1 again gives back the received row |
| CandleHistory.InsertCloseTimes | coinbase.py:181-182 | in place on the array, every row gains its close time and nothing else changes |
| CandleHistory.SortAndClose | coinbase.py:179-182 | the rows returned are the received rows, sorted, each with its close time |
| CandleHistory.ProcessedRows | coinbase.py:179-182 | the processed rows have the received count, are sorted by open time, and have close time = open + base − 1 at index 1; without close times they are a stable permutation of what was received |
| CandleHistory.Backfill | coinbase.py:87-184 | the outcome is `Invalid` (return 0) exactly for an unknown interval |
| CandleHistory.GetHistory | coinbase.py:87-184 | the statement-by-statement version returns exactly `Backfill` |
| CandleHistory.BackfillRequests | coinbase.py:101-184 | for a known interval, a positive limit and a forward range, the step is at least 1; the windows requested start at the start and end at the end; the result is the processed replies to those windows, each requested with the table's granularity for the interval |
| CandleHistory.EqualBoundsDiverge | coinbase.py:145-156 | equal bounds give step 0, and the loop never ends |
| CandleHistory.ZeroLimitRaises | coinbase.py:142-145 | a limit of 0 raises `ZeroDivisionError` |
| CandleHistory.ShortBackwardRangeRaises | coinbase.py:145-148 | a range that runs backwards by less than two divisors gives window count 0, and the step computation raises |
| CandleHistory.LongBackwardRangeEmpty | coinbase.py:145-156 | a range that runs backwards by two divisors or more makes no request and returns no rows |
| CandleHistory.EvenRangeExample | coinbase.py:145-177 | range 0..1000 with divisor 1000: count 2, step 500, and three windows, the last `[1000,1000]` |
| CandleHistory.SixHourWindowExceedsLimit | coinbase.py:89-163 | for "6h" one window may span 6479999 seconds, 514 candles at the granularity 12600 sent; the result is the replies to `[0,6479999]` and `[6479999,6479999]`, both requested with granularity 12600 |
| CandleHistory.CloseTimeExample | coinbase.py:182 | open time 1000, divisor 36000 and limit 300 give close time 1119 |
| CandleCsv.Columns | coinbase.py:197-217 | the written columns are row fields 0, 1, 4, 3, 2, 5, 6, in that order |
| CandleCsv.Fields | coinbase.py:197-203 | each field is rendered as `str` renders it |
| CandleCsv.WrittenFieldsJoin | coinbase.py:204-216 | writing k fields with a comma before each but the first leaves them joined by commas |
| CandleCsv.WriteRow | coinbase.py:197-217 | the writes of one row append exactly that row's line |
| CandleCsv.CsvTextSnoc | coinbase.py:194-217 | one more row appends one more line |
| CandleCsv.FirstShortRow | coinbase.py:194-203 | the index of the first row with fewer than seven fields, or the row count: every earlier row has seven |
| CandleCsv.SaveHistoricalData | coinbase.py:190-218 | starting from an empty file, the rows' lines are written in order; `IndexError` is raised exactly when some row has fewer than seven fields, and then the file holds the lines of the rows before the first such row |
| CandleCsv.AllRowsWritten | coinbase.py:190-218 | with every row at least seven fields long nothing is raised and every row's line is written |
| CandleCsv.LineRoundTrip | coinbase.py:204-217 | a written line reads back as the row's seven columns and holds no newline |
| CandleCsv.CsvRoundTrip | coinbase.py:190-218 | reading the written file back gives every row's seven columns, in the written order |
| Text.ParseIntStr | coinbase.py:197-203 | parsing the decimal text of any integer gives that integer back |
| Text.IntStrHasNo | coinbase.py:197-203 | the decimal text of an integer holds no comma and no newline |
| Text.SplitJoin | coinbase.py:204-217 | splitting on the separator undoes joining, when no part holds the separator |
| OrderBook.Tagged | coinbase.py:55 | a tagged entry is the venue name followed by the price and the size |
| OrderBook.ParseOrders | coinbase.py:50-56 | one tagged entry per input entry, in order; dropping the tag gives back each entry's price and size |
| OrderBook.GetBids | coinbase.py:69-76 | the bid side of the book, each entry tagged, in order |
| OrderBook.GetAsks | coinbase.py:78-85 | the ask side of the book, each entry tagged, in order |
| Auth.BodyText | coinbase.py:21-22 | an absent body is signed as the empty text, a present one as itself |
| Auth.SigningMessage | coinbase.py:21-22 | the message is the timestamp, method, path and body, in that order with nothing between |
| Auth.MessageDeterminesBody | coinbase.py:21-22 | for a fixed timestamp, method and path, the message determines the body text |
| Auth.AsciiEncode | coinbase.py:31 | encoding succeeds exactly for ASCII text, with one byte per character equal to its code |
| Auth.AuthHeaders | coinbase.py:30-41 | fails on non-ASCII messages, and otherwise on malformed secrets; on success there are exactly the five headers, holding the signature of the message under the decoded secret, the timestamp, the key and the passphrase |
| Auth.Sign | coinbase.py:19-27 | method, path and body are kept, and the header names become the old ones plus the five |
| Auth.SignedHeaders | coinbase.py:19-41 | a signed request carries the timestamp that begins the message, the signature of exactly that message, the key and the passphrase; other headers are kept |
| Auth.SignFailures | coinbase.py:19-41 | signing fails exactly on a non-ASCII message or an undecodable secret, and the ASCII check comes first |
| Orders.OrderParams | coinbase.py:251-260 | the parameters are the seven common keys, plus `cancel_after` = "min" exactly for "GTT"; each value is as given and `post_only` is "false" |
| Orders.Classify | coinbase.py:264-271 | the two recognised messages, matched by exact equality, give return value 0; any other reply is returned unchanged |
| Orders.PlaceOrder | coinbase.py:250-271 | posts the parameters of the order and classifies the reply |
| Orders.LimitBuy | coinbase.py:273-274 | the parameters of a "buy" "limit" order with the caller's size, price, symbol and time in force (so `post_only` "false", and `cancel_after` exactly for "GTT"); the outcome is the classified reply |
| Orders.LimitSell | coinbase.py:276-277 | the parameters of a "sell" "limit" order with the caller's size, price, symbol and time in force (so `post_only` "false", and `cancel_after` exactly for "GTT"); the outcome is the classified reply |
| Orders.ImmediateBuy | coinbase.py:307-308 | the parameters of a "buy" "limit" order with time in force "IOC" and the caller's size, price and symbol, with exactly the seven common keys (no `cancel_after`); the outcome is the classified reply |
| Orders.ImmediateSell | coinbase.py:310-311 | the parameters of a "sell" "limit" order with time in force "IOC" and the caller's size, price and symbol, with exactly the seven common keys (no `cancel_after`); the outcome is the classified reply |
| Orders.NearMissesPassThrough | coinbase.py:264-271 | a reply with another message text, or with an extra field, is not recognised and comes back unchanged |

## Left out

- HTTP requests (`requests.get`, `requests.post`, `requests.delete`) are not modelled. A candle
  reply is the parameter `fetch`, a function of the granularity sent and the requested window.
  The currency pair and the base URL are the same for every request of one call, so they are
  folded into `fetch`. The order-book reply is a `Book` value. The order reply is a `Json` value.
- `time.time()`, `time.mktime(time.strptime(...))` and `datetime ... .isoformat()` are not
  modelled: the clock reads and the parsed day bounds are integer parameters, and windows are
  kept in seconds.
- `time.sleep(1)` between requests: it has no effect on the result.
- Base64 and HMAC-SHA256 are not computed. They are the given functions of `Crypto`.
- Reading credentials from environment variables (`CoinbasePrivate.__init__`) and the URL
  constants are not modelled.
- File handling (opening and closing the CSV file) is not modelled: the file's content is a
  string that starts empty.
- Printing is not modelled. This covers `print_history`, `print_accounts`, `print_orders` and
  the two error messages.
- `get_accounts`, `get_products`, `get_orders`, `cancel_order`, `cancel_all_orders` and
  `get_orderbook` are single HTTP calls whose reply is returned unchanged, so they are not
  modelled.
- `json.dumps` of the order parameters is not modelled: the parameters are a map.
- Orders.OrderParams: JSON numbers (`Json.JNumber`) are integers. The caller's `size` and
  `price`, and numbers in a reply, are usually floats in the source; floats are not modelled.
- Default arguments are not modelled: every argument is explicit in the model. The source's
  defaults are `pair="BTC-USD"`, `interval="1d"` and `limit=300` for `get_history`;
  `symbol="BTC-USD"`, `order_type="limit"` and `time_in_force="GTC"` for `place_order`;
  `symbol="BTC-USD"` and `time_in_force="GTC"` for `limit_buy` and `limit_sell`; and
  `symbol="BTC-USD"` for `immediate_buy` and `immediate_sell`. The absent days
  (`start_day=None`, `end_day=None`) are modelled, as `None`.
- CandleHistory.TruncDiv: `int(a / b)` is modelled as the exact quotient truncated toward zero.
  Python computes it in floating point, so rounding for very large operands is not captured.
- CandleHistory.Backfill: the rows are taken to be non-empty lists of integers. Two cases are
  not modelled: a reply that is an error object rather than rows (the source would append its
  keys), and an empty row (the source would raise `IndexError` when sorting). Prices and volumes
  are integers rather than floats.
- CandleCsv.SaveHistoricalData: the fields are integers and are rendered with the decimal `str`
  of an integer. The source's prices and volumes are floats, and `str` of a float is not
  modelled. The file after an `IndexError` is the text written so far; whether it is flushed to
  disk without `f.close()` is not modelled.
- OrderBook.ParseOrders: entries are taken to have at least a price and a size. A shorter entry,
  on which the source raises `IndexError`, is not modelled.
- Auth.Sign: the body is a text. Bodies given as bytes are not modelled. Header names are
  compared case-sensitively (`Request.headers` is a map of strings), whereas the headers of a
  `requests` request are case-insensitive. So an existing header whose name differs from one
  of the five only in case is replaced by `request.headers.update(...)` in the source but kept
  by the model, and `Auth.SignedHeaders` states it is kept.
