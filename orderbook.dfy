/** Order-book normalisation of `CoinbasePublic`: each bid or ask entry is tagged with the
    venue name. The book itself is the parsed reply of the order-book request. */
module OrderBook {

  /** The venue label put in front of every entry. */
  const Venue: string := "Coinbase Pro"

  /** One level-2 book entry: price, size and the number of orders, as text. Entries
      always have at least the price and the size. */
  type Entry = e: seq<string> | |e| >= 2 witness ["", ""]

  datatype Book = Book(bids: seq<Entry>, asks: seq<Entry>)

  /** The tagged form of one entry: the venue, then the price and the size. */
  function Tagged(order: Entry): (t: seq<string>)
    ensures |t| == 3 && t[0] == Venue && t[1..] == order[..2]
  {
    [Venue, order[0], order[1]]
  }

  /** Dropping the venue label from a tagged entry gives back its price and size. */
  function Untagged(t: seq<string>): (order: seq<string>)
    requires |t| == 3
  {
    t[1..]
  }

  /** `parse_orders`: one tagged entry per input entry, in the same order. */
  method ParseOrders(orders: seq<Entry>) returns (aggregate: seq<seq<string>>)
    ensures |aggregate| == |orders|
    ensures forall i :: 0 <= i < |orders| ==> aggregate[i] == [Venue, orders[i][0], orders[i][1]]
    ensures forall i :: 0 <= i < |orders| ==> |aggregate[i]| == 3 && Untagged(aggregate[i]) == orders[i][..2]
  {
    aggregate := [];
    for n := 0 to |orders|
      invariant |aggregate| == n
      invariant forall i :: 0 <= i < n ==> aggregate[i] == Tagged(orders[i])
    {
      aggregate := aggregate + [Tagged(orders[n])];
    }
  }

  /** `get_bids`: the tagged bid side of a book. */
  method GetBids(book: Book) returns (bids: seq<seq<string>>)
    ensures |bids| == |book.bids|
    ensures forall i :: 0 <= i < |bids| ==> bids[i] == [Venue, book.bids[i][0], book.bids[i][1]]
  {
    bids := ParseOrders(book.bids);
  }

  /** `get_asks`: the tagged ask side of a book. */
  method GetAsks(book: Book) returns (asks: seq<seq<string>>)
    ensures |asks| == |book.asks|
    ensures forall i :: 0 <= i < |asks| ==> asks[i] == [Venue, book.asks[i][0], book.asks[i][1]]
  {
    asks := ParseOrders(book.asks);
  }
}
