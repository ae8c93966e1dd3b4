/** Order placement of `CoinbasePrivate`: the parameters posted for an order and the
    classification of the venue's reply. The POST itself is left out; its decoded reply is
    the parameter `response`. */
module Orders {

  /** JSON values, as the reply decodes and as the parameters are serialised. */
  datatype Json =
    | JNull
    | JBool(b: bool)
    | JNumber(n: int)
    | JString(s: string)
    | JArray(items: seq<Json>)
    | JObject(fields: map<string, Json>)

  /** The two replies that are recognised, compared as whole values. */
  const InsufficientFunds: Json := JObject(map["message" := JString("Insufficient funds")])
  const SizeTooLarge: Json := JObject(map["message" := JString("size is too large. Maximum size is 10000")])

  /** The parameter names present in every order. */
  const CommonKeys: set<string> := {"size", "price", "side", "product_id", "type", "post_only", "time_in_force"}

  /** The order parameters: the caller's size and price as given, the side, symbol, type
      and time-in-force as text, `post_only` always "false", and `cancel_after` "min" only
      for a good-til-time order. */
  function OrderParams(size: Json, price: Json, side: string, symbol: string,
                       orderType: string, timeInForce: string): (p: map<string, Json>)
    ensures p.Keys == CommonKeys + (if timeInForce == "GTT" then {"cancel_after"} else {})
    ensures "cancel_after" in p <==> timeInForce == "GTT"
    ensures "cancel_after" in p ==> p["cancel_after"] == JString("min")
    ensures p["size"] == size && p["price"] == price && p["side"] == JString(side)
    ensures p["product_id"] == JString(symbol) && p["type"] == JString(orderType)
    ensures p["post_only"] == JString("false") && p["time_in_force"] == JString(timeInForce)
  {
    var params := map[
      "size" := size,
      "price" := price,
      "side" := JString(side),
      "product_id" := JString(symbol),
      "type" := JString(orderType),
      "post_only" := JString("false"),
      "time_in_force" := JString(timeInForce)];
    if timeInForce == "GTT" then params["cancel_after" := JString("min")] else params
  }

  /** Which error message was printed before returning 0. */
  datatype Rejection = InsufficientFundsError | SizeTooLargeError

  /** What `place_order` returns: 0 after one of the two recognised errors, otherwise the
      decoded reply itself. */
  datatype OrderOutcome = Rejected(reason: Rejection) | Passed(response: Json)

  /** The reply is matched by exact equality with the two recognised messages; any other
      reply, an error or not, is handed back unchanged. */
  function Classify(response: Json): (o: OrderOutcome)
    ensures o == Rejected(InsufficientFundsError) <==> response == InsufficientFunds
    ensures o == Rejected(SizeTooLargeError) <==> response == SizeTooLarge
    ensures o.Passed? <==> response != InsufficientFunds && response != SizeTooLarge
    ensures o.Passed? ==> o.response == response
  {
    assert InsufficientFunds.fields["message"] != SizeTooLarge.fields["message"];
    if response == InsufficientFunds then Rejected(InsufficientFundsError)
    else if response == SizeTooLarge then Rejected(SizeTooLargeError)
    else Passed(response)
  }

  /** The posted parameters and the outcome of one call to `place_order`. */
  datatype Placement = Placement(params: map<string, Json>, outcome: OrderOutcome)

  function PlaceOrder(size: Json, price: Json, side: string, symbol: string,
                      orderType: string, timeInForce: string, response: Json): (r: Placement)
    ensures r.params == OrderParams(size, price, side, symbol, orderType, timeInForce)
    ensures r.outcome == Classify(response)
  {
    Placement(OrderParams(size, price, side, symbol, orderType, timeInForce), Classify(response))
  }

  /** `limit_buy`, `limit_sell`, `immediate_buy` and `immediate_sell`: presets of side,
      type and time in force. */
  function LimitBuy(size: Json, price: Json, symbol: string, timeInForce: string, response: Json): (r: Placement)
    ensures r.params == OrderParams(size, price, "buy", symbol, "limit", timeInForce)
    ensures r.outcome == Classify(response)
    ensures ("cancel_after" in r.params) <==> timeInForce == "GTT"
  {
    PlaceOrder(size, price, "buy", symbol, "limit", timeInForce, response)
  }

  function LimitSell(size: Json, price: Json, symbol: string, timeInForce: string, response: Json): (r: Placement)
    ensures r.params == OrderParams(size, price, "sell", symbol, "limit", timeInForce)
    ensures r.outcome == Classify(response)
    ensures ("cancel_after" in r.params) <==> timeInForce == "GTT"
  {
    PlaceOrder(size, price, "sell", symbol, "limit", timeInForce, response)
  }

  /** Immediate-or-cancel orders never carry `cancel_after`. */
  function ImmediateBuy(size: Json, price: Json, symbol: string, response: Json): (r: Placement)
    ensures r.params == OrderParams(size, price, "buy", symbol, "limit", "IOC")
    ensures r.outcome == Classify(response)
    ensures r.params.Keys == CommonKeys
  {
    PlaceOrder(size, price, "buy", symbol, "limit", "IOC", response)
  }

  function ImmediateSell(size: Json, price: Json, symbol: string, response: Json): (r: Placement)
    ensures r.params == OrderParams(size, price, "sell", symbol, "limit", "IOC")
    ensures r.outcome == Classify(response)
    ensures r.params.Keys == CommonKeys
  {
    PlaceOrder(size, price, "sell", symbol, "limit", "IOC", response)
  }

  /** A reply shaped like the recognised ones but with another message text, or with an
      extra field, is not recognised and comes back unchanged. */
  lemma NearMissesPassThrough(text: string, key: string, extra: Json)
    requires text != "Insufficient funds" && text != "size is too large. Maximum size is 10000"
    requires key != "message"
    ensures Classify(JObject(map["message" := JString(text)])) == Passed(JObject(map["message" := JString(text)]))
    ensures var withExtra := JObject(map["message" := JString("Insufficient funds"), key := extra]);
      Classify(withExtra) == Passed(withExtra)
  {
    var m1 := map["message" := JString(text)];
    assert m1["message"] != InsufficientFunds.fields["message"];
    assert m1["message"] != SizeTooLarge.fields["message"];
    var withExtra := map["message" := JString("Insufficient funds"), key := extra];
    assert key in withExtra && key !in InsufficientFunds.fields && key !in SizeTooLarge.fields;
  }
}
