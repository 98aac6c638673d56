/** The process-wide state of Vwap.H and its message handlers.

    The source keeps the clock, the end-of-day flag, the order book, the
    per-locate execution ledgers and the per-locate symbols in globals; here
    they are the fields of one Session object. The two 65536-slot tables
    (std::array indexed by locate id) are arrays; the book is a map field
    that the handlers reassign. A handler receives the message starting at
    its type byte, so field offsets are those of the ITCH 5.0 layouts. */
module Vwap {
  import opened Wire
  import opened OrderBook

  /** One hour in nanoseconds. */
  const Hour: uint64 := 3_600_000_000_000
  /** Slack around an hour boundary for the hourly snapshot. */
  const Epsilon1: uint64 := 10_000_000_000
  /** Number of locate ids: one table slot per 16-bit value. */
  const LocateSlots: nat := 0x1_0000
  /** System event code for the end of the trading day ('E'). */
  const EndOfDay: byte := 'E' as int

  /** A ticker symbol: the 8 raw bytes of a stock directory message. */
  type Symbol = seq<byte>

  class Session {
    /** CURRTIME: the last timestamp read, nanoseconds since midnight. */
    var currTime: uint64
    /** LASTPRINTED: time of the last hourly snapshot; no handler changes it. */
    var lastPrinted: uint64
    /** END: set once a system event reports the end of the trading day. */
    var ended: bool
    /** allBuyOrders. */
    var book: Book
    /** attributedBuyOrders: the executions filed under each locate id. */
    const ledgers: array<seq<Order>>
    /** stockSymbols. */
    const symbols: array<Symbol>

    ghost predicate Valid()
      reads this
    {
      ledgers.Length == LocateSlots && symbols.Length == LocateSlots
    }

    /** The state before the first message. */
    constructor ()
      ensures Valid() && fresh(ledgers) && fresh(symbols)
      ensures currTime == 0 && lastPrinted == 3 * Hour && !ended && book == map[]
      ensures forall l :: 0 <= l < LocateSlots ==> ledgers[l] == [] && symbols[l] == []
    {
      currTime, lastPrinted, ended, book := 0, 3 * Hour, false, map[];
      ledgers := new seq<Order>[LocateSlots](_ => []);
      symbols := new Symbol[LocateSlots](_ => []);
    }

    /** systemMsg: the clock takes the message's timestamp (overwritten, not
        maximised) and the end flag is raised by an end-of-day event; it is
        never lowered. */
    method SystemMsg(msg: seq<byte>)
      requires Valid() && |msg| >= 13
      modifies this
      ensures Valid()
      ensures currTime == Read6Bytes(msg, 5)
      ensures ended == (old(ended) || msg[11] == EndOfDay)
      ensures book == old(book) && lastPrinted == old(lastPrinted)
      ensures unchanged(ledgers) && unchanged(symbols)
    {
      currTime := Read6Bytes(msg, 5);
      if msg[11] == EndOfDay {
        ended := true;
      }
    }

    /** stockRelatedMsg: records the symbol of the message's locate and
        resets that locate's ledger to empty, even if it held executions. */
    method StockRelatedMsg(msg: seq<byte>)
      requires Valid() && |msg| >= 19
      modifies ledgers, symbols
      ensures Valid()
      ensures var locate := Read2Bytes(msg, 1);
        && symbols[..] == old(symbols[..])[locate := msg[11..19]]
        && ledgers[..] == old(ledgers[..])[locate := []]
      ensures unchanged(this)
    {
      var locate := Read2Bytes(msg, 1);
      var symbol := msg[11..19];
      symbols[locate] := symbol;
      ledgers[locate] := [];
    }

    /** addOrder: the clock takes the timestamp; a buy order is emplaced
        under its id; the ledgers are not touched. */
    method AddOrder(msg: seq<byte>)
      requires Valid() && |msg| >= 36
      modifies this
      ensures Valid()
      ensures currTime == Read6Bytes(msg, 5)
      ensures book == Add(old(book), Read8Bytes(msg, 11), msg[19],
                          Order(Read4Bytes(msg, 32), Read4Bytes(msg, 20), Read2Bytes(msg, 1)))
      ensures ended == old(ended) && lastPrinted == old(lastPrinted)
      ensures unchanged(ledgers) && unchanged(symbols)
    {
      var locate := Read2Bytes(msg, 1);
      currTime := Read6Bytes(msg, 5);
      var id := Read8Bytes(msg, 11);
      if msg[19] == Buy {
        book := Emplace(book, id, Order(Read4Bytes(msg, 32), Read4Bytes(msg, 20), locate));
      }
    }

    /** orderExec: the clock takes the timestamp; a resting order is filled
        and exactly one record at its resting price is appended to the
        ledger of the message's locate. */
    method OrderExec(msg: seq<byte>)
      requires Valid() && |msg| >= 23
      modifies this, ledgers
      ensures Valid()
      ensures currTime == Read6Bytes(msg, 5)
      ensures var locate, id, qty := Read2Bytes(msg, 1), Read8Bytes(msg, 11), Read4Bytes(msg, 19);
        && book == Execute(old(book), id, qty)
        && ledgers[..] == if id in old(book)
                          then old(ledgers[..])[locate := old(ledgers[locate]) + [Order(old(book)[id].price, qty, locate)]]
                          else old(ledgers[..])
      ensures ended == old(ended) && lastPrinted == old(lastPrinted)
      ensures unchanged(symbols)
    {
      var locate := Read2Bytes(msg, 1);
      currTime := Read6Bytes(msg, 5);
      var id := Read8Bytes(msg, 11);
      var qty := Read4Bytes(msg, 19);
      if id !in book {
        return;
      }
      var resting := book[id];
      if qty == resting.qty {
        book := book - {id};
      } else {
        book := book[id := resting.(qty := Sub32(resting.qty, qty))];
      }
      ledgers[locate] := ledgers[locate] + [Order(resting.price, qty, locate)];
    }

    /** orderExecPrice: as orderExec, but the record carries the price of
        the message instead of the resting price. */
    method OrderExecPrice(msg: seq<byte>)
      requires Valid() && |msg| >= 36
      modifies this, ledgers
      ensures Valid()
      ensures currTime == Read6Bytes(msg, 5)
      ensures var locate, id, qty := Read2Bytes(msg, 1), Read8Bytes(msg, 11), Read4Bytes(msg, 19);
        && book == Execute(old(book), id, qty)
        && ledgers[..] == if id in old(book)
                          then old(ledgers[..])[locate := old(ledgers[locate]) + [Order(Read4Bytes(msg, 32), qty, locate)]]
                          else old(ledgers[..])
      ensures ended == old(ended) && lastPrinted == old(lastPrinted)
      ensures unchanged(symbols)
    {
      var locate := Read2Bytes(msg, 1);
      currTime := Read6Bytes(msg, 5);
      var id := Read8Bytes(msg, 11);
      var qty := Read4Bytes(msg, 19);
      var price := Read4Bytes(msg, 32);
      if id !in book {
        return;
      }
      var resting := book[id];
      if qty == resting.qty {
        book := book - {id};
      } else {
        book := book[id := resting.(qty := Sub32(resting.qty, qty))];
      }
      ledgers[locate] := ledgers[locate] + [Order(price, qty, locate)];
    }

    /** orderCancel: decrements a resting order and removes it when nothing
        is left; neither the clock nor the ledgers change. */
    method OrderCancel(msg: seq<byte>)
      requires Valid() && |msg| >= 23
      modifies this
      ensures Valid()
      ensures book == Cancel(old(book), Read8Bytes(msg, 11), Read4Bytes(msg, 19))
      ensures currTime == old(currTime) && ended == old(ended) && lastPrinted == old(lastPrinted)
      ensures unchanged(ledgers) && unchanged(symbols)
    {
      var id := Read8Bytes(msg, 11);
      var cancelled := Read4Bytes(msg, 19);
      if id !in book {
        return;
      }
      var left := book[id].(qty := Sub32(book[id].qty, cancelled));
      book := book[id := left];
      if left.qty == 0 {
        book := book - {id};
      }
    }

    /** orderDelete: erases the id whatever it holds. */
    method OrderDelete(msg: seq<byte>)
      requires Valid() && |msg| >= 19
      modifies this
      ensures Valid()
      ensures book == Delete(old(book), Read8Bytes(msg, 11))
      ensures currTime == old(currTime) && ended == old(ended) && lastPrinted == old(lastPrinted)
      ensures unchanged(ledgers) && unchanged(symbols)
    {
      var id := Read8Bytes(msg, 11);
      book := book - {id};
    }

    /** orderReplace: a resting old id is erased and the new id emplaced with
        the new price and quantity under the message's locate. */
    method OrderReplace(msg: seq<byte>)
      requires Valid() && |msg| >= 35
      modifies this
      ensures Valid()
      ensures book == Replace(old(book), Read8Bytes(msg, 11), Read8Bytes(msg, 19),
                              Order(Read4Bytes(msg, 31), Read4Bytes(msg, 27), Read2Bytes(msg, 1)))
      ensures currTime == old(currTime) && ended == old(ended) && lastPrinted == old(lastPrinted)
      ensures unchanged(ledgers) && unchanged(symbols)
    {
      var locate := Read2Bytes(msg, 1);
      var oldId := Read8Bytes(msg, 11);
      var newId := Read8Bytes(msg, 19);
      var newQty := Read4Bytes(msg, 27);
      var newPrice := Read4Bytes(msg, 31);
      if oldId !in book {
        return;
      }
      book := book - {oldId};
      book := Emplace(book, newId, Order(newPrice, newQty, locate));
    }

    /** nonCrossTrade: trade messages do not affect the book. */
    method NonCrossTrade(msg: seq<byte>)
      ensures unchanged(this) && unchanged(ledgers) && unchanged(symbols)
    {
    }

    /** crossTrade: no state change. */
    method CrossTrade(msg: seq<byte>)
      ensures unchanged(this) && unchanged(ledgers) && unchanged(symbols)
    {
    }

    /** brokenTrade: no state change. */
    method BrokenTrade(msg: seq<byte>)
      ensures unchanged(this) && unchanged(ledgers) && unchanged(symbols)
    {
    }
  }

  // Sample messages, each starting at its type byte; field boundaries are
  // marked in the comment above each one.

  //                                 type  locate track timestamp 1         order id 100               side  qty 500       stock                   price 12300
  const AddOrder100: seq<byte> := [0x41, 0, 5, 0, 0, 0, 0, 0, 0, 0, 1, 0, 0, 0, 0, 0, 0, 0, 100, 0x42, 0, 0, 1, 0xF4, 0, 0, 0, 0, 0, 0, 0, 0, 0, 0, 0x30, 0x0C]
  //                                type  locate track timestamp 2         order id 100               qty 500       match number
  const ExecOrder100: seq<byte> := [0x45, 0, 5, 0, 0, 0, 0, 0, 0, 0, 2, 0, 0, 0, 0, 0, 0, 0, 100, 0, 0, 1, 0xF4, 0, 0, 0, 0, 0, 0, 0, 0]
  //                                 type  locate track timestamp 3         order id 200               side  qty 300       stock                   price 500
  const AddOrder200: seq<byte> := [0x41, 0, 5, 0, 0, 0, 0, 0, 0, 0, 3, 0, 0, 0, 0, 0, 0, 0, 200, 0x42, 0, 0, 1, 0x2C, 0, 0, 0, 0, 0, 0, 0, 0, 0, 0, 0x01, 0xF4]
  //                                  type  locate track timestamp 4         order id 200               qty 100
  const CancelOrder200: seq<byte> := [0x58, 0, 5, 0, 0, 0, 0, 0, 0, 0, 4, 0, 0, 0, 0, 0, 0, 0, 200, 0, 0, 0, 100]
  //                                 type  locate track timestamp 5         order id 300               side  qty 100       stock                   price 800
  const AddOrder300: seq<byte> := [0x41, 0, 5, 0, 0, 0, 0, 0, 0, 0, 5, 0, 0, 0, 0, 0, 0, 1, 44, 0x42, 0, 0, 0, 100, 0, 0, 0, 0, 0, 0, 0, 0, 0, 0, 3, 0x20]
  //                                   type  locate track timestamp 6         old id 300                 new id 301                 qty 150      price 900
  const ReplaceOrder300: seq<byte> := [0x55, 0, 7, 0, 0, 0, 0, 0, 0, 0, 6, 0, 0, 0, 0, 0, 0, 1, 44, 0, 0, 0, 0, 0, 0, 1, 45, 0, 0, 0, 150, 0, 0, 3, 0x84]

  // The fields of the sample messages, decoded.

  lemma AddOrder100Fields()
    ensures Read2Bytes(AddOrder100, 1) == 5 && Read8Bytes(AddOrder100, 11) == 100 && AddOrder100[19] == Buy
    ensures Read4Bytes(AddOrder100, 20) == 500 && Read4Bytes(AddOrder100, 32) == 12300
  {
  }

  lemma ExecOrder100Fields()
    ensures Read2Bytes(ExecOrder100, 1) == 5 && Read8Bytes(ExecOrder100, 11) == 100 && Read4Bytes(ExecOrder100, 19) == 500
    ensures Read6Bytes(ExecOrder100, 5) == 2
  {
  }

  lemma AddOrder200Fields()
    ensures Read2Bytes(AddOrder200, 1) == 5 && Read8Bytes(AddOrder200, 11) == 200 && AddOrder200[19] == Buy
    ensures Read4Bytes(AddOrder200, 20) == 300 && Read4Bytes(AddOrder200, 32) == 500
  {
  }

  lemma CancelOrder200Fields()
    ensures Read8Bytes(CancelOrder200, 11) == 200 && Read4Bytes(CancelOrder200, 19) == 100
  {
  }

  lemma AddOrder300Fields()
    ensures Read2Bytes(AddOrder300, 1) == 5 && Read8Bytes(AddOrder300, 11) == 300 && AddOrder300[19] == Buy
    ensures Read4Bytes(AddOrder300, 20) == 100 && Read4Bytes(AddOrder300, 32) == 800
  {
  }

  lemma ReplaceOrder300Fields()
    ensures Read2Bytes(ReplaceOrder300, 1) == 7 && Read8Bytes(ReplaceOrder300, 11) == 300 && Read8Bytes(ReplaceOrder300, 19) == 301
    ensures Read4Bytes(ReplaceOrder300, 27) == 150 && Read4Bytes(ReplaceOrder300, 31) == 900
  {
  }

  /** A buy order filled in full leaves the book and files one record at
      its resting price under the message's locate. */
  method FullFillExample()
  {
    AddOrder100Fields();
    ExecOrder100Fields();
    var s := new Session();
    s.AddOrder(AddOrder100);
    assert s.book == map[100 := Order(12300, 500, 5)];
    s.OrderExec(ExecOrder100);
    assert s.book == map[];
    assert s.ledgers[5] == [Order(12300, 500, 5)];
    assert s.currTime == 2;
  }

  /** A partial cancel reduces the resting quantity and files nothing. */
  method PartialCancelExample()
  {
    AddOrder200Fields();
    CancelOrder200Fields();
    var s := new Session();
    s.AddOrder(AddOrder200);
    s.OrderCancel(CancelOrder200);
    assert s.book == map[200 := Order(500, 200, 5)];
    assert s.ledgers[5] == [];
  }

  /** A replace moves the order to the new id with the new price and
      quantity, and with the locate the replace message carries. */
  method ReplaceExample()
  {
    AddOrder300Fields();
    ReplaceOrder300Fields();
    var s := new Session();
    s.AddOrder(AddOrder300);
    s.OrderReplace(ReplaceOrder300);
    assert s.book == map[301 := Order(900, 150, 7)];
  }
}
