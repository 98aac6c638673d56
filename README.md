# Buy-side order book of a NASDAQ TotalView-ITCH 5.0 VWAP engine, in Dafny

This project models `Vwap.H`. That file decodes ITCH 5.0 messages and keeps
the state an hourly VWAP snapshot needs:

- the live book of resting buy orders, keyed by 64-bit order id;
- one execution ledger per 16-bit locate id;
- one ticker symbol per locate id;
- the session clock and the end-of-day flag.

The model has three modules:

- `Wire` (`wire.dfy`) holds the fixed-width unsigned types and the four
  big-endian field decoders (`reinterpret2/4/6/8bytes`). `BigEndian` is the
  reference decoding (Σ w[i]·256^(n-1-i), in Horner form), and `Encode` is
  its inverse. Each decoder is proved equal to the reference on its field.
  The 48-bit timestamp decoder is proved to be below 2^48 and to ignore the
  two extra bytes it loads.
- `OrderBook` (`book.dfy`) holds `Order`, the book as a `map`, unsigned
  32-bit subtraction with wrap-around, and one pure transition per handler:
  `Add`, `Execute`, `Cancel`, `Delete` and `Replace`. Each contract spells
  out every key of the resulting book. Lemmas relate the transitions to
  each other and to the invariant "no zero-quantity entry" (`Resting`).
- `Vwap` (`session.dfy`) holds a `Session` class whose fields are the
  source's globals. Each handler is a method that decodes its fields at the
  source's offsets and changes the object and the two 65536-slot arrays.
  Its `ensures` give the complete new state in terms of the old state, the
  decoders and the `OrderBook` transitions, including what stays the same.
  Three client methods at the end apply short message sequences to a fresh
  session and prove what the handler contracts imply about the result.

The model follows the code as written; in particular:

- `orderReplace` inserts the new order under the locate id carried by the
  replace message, not the original order's locate (Vwap.H:157, 167).
- Executions are filed under the message's locate id (Vwap.H:99, 113).
- The clock is overwritten by each timestamp, not advanced monotonically
  (Vwap.H:68, 86, 100, 118).
- Adding an id that is already live keeps the existing entry, because that
  is what `emplace` does (Vwap.H:89, 167).
- The book can hold zero-quantity entries. An add or a replace of quantity
  0 is kept. Executions and cancels never create one, because a difference
  q - e with e ≠ q wraps to a nonzero value. `AddKeepsRestingIff`,
  `ReplaceKeepsRestingIff` and `ExecuteKeepsResting` state exactly this.
- A cancel of more than the resting quantity wraps around modulo 2^32 and
  keeps the order, as the source's unsigned `-=` does (Vwap.H:145).

Messages are `seq<byte>` and start at their type byte. The source reads
fields without bounds checks. Each handler method instead requires the
message to be long enough for every byte it reads (`requires |msg| >= n`).
The 6-byte timestamp decoder loads eight bytes, so `systemMsg` needs 13
bytes, just as the source reads them.

## Model

| member | source | states |
|---|---|---|
| `Wire.Read2BytesValue` | Vwap.H:39-41 | the 16-bit decoder returns the big-endian value of the two bytes at the offset |
| `Wire.Read4BytesValue` | Vwap.H:35-37 | the 32-bit decoder returns the big-endian value of the four bytes at the offset |
| `Wire.Read8BytesValue` | Vwap.H:27-29 | the 64-bit decoder returns the big-endian value of the eight bytes at the offset |
| `Wire.Read6BytesValue` | Vwap.H:31-33 | the masked-and-shifted 8-byte load equals the big-endian value of the first six bytes only, and is below 2^48 |
| `Wire.Read6BytesIgnoresTail` | Vwap.H:31-33 | the timestamp decoder does not depend on the two bytes it loads past the 48-bit field |
| `Wire.ReadEncoded` | Vwap.H:27-41 | decoding an n-byte big-endian encoding of v (n = 2, 4, 6 or 8) at its offset gives back v, whatever bytes surround it; for the 6-byte timestamp decoder at least two bytes must follow the field, since it loads eight |
| `OrderBook.Sub32` | Vwap.H:111 | `qty -= x` on a 32-bit unsigned quantity: the result plus x is the old quantity modulo 2^32; it is the plain difference when there is no underflow; it is zero exactly when the two are equal |
| `OrderBook.Emplace` | Vwap.H:89-92 | emplace adds the key with the new order only if it is absent; every existing entry, including one under the same key, is kept |
| `OrderBook.Add` | Vwap.H:88-93 | only side 'B' changes the book; then the id becomes a key, mapped to the new order unless it was already present; other entries are unchanged |
| `OrderBook.Execute` | Vwap.H:103-112 | an absent id leaves the book unchanged; the id is removed exactly when the executed quantity equals the resting one; otherwise it stays with its price and locate, and its new quantity plus the executed one is the old quantity mod 2^32; no other entry changes |
| `OrderBook.Cancel` | Vwap.H:142-147 | an absent id leaves the book unchanged; the order is removed iff the cancelled quantity equals the resting one; otherwise it keeps its price and locate with the quantity decremented mod 2^32; only that id can change |
| `OrderBook.Delete` | Vwap.H:152-153 | exactly the given id is removed, whatever its quantity; every other entry is unchanged |
| `OrderBook.Replace` | Vwap.H:163-167 | an absent old id leaves the book unchanged and the new id is not inserted; otherwise the keys become old keys minus the old id plus the new id; the new id maps to the replacement order unless it was already another live key; all other entries are unchanged |
| `OrderBook.CancelIsExecute` | Vwap.H:138-148 | a cancel and an execution of the same quantity leave the same book |
| `OrderBook.DeleteIdempotent` | Vwap.H:150-154 | deleting an id twice is the same as deleting it once |
| `OrderBook.ExecuteKeepsResting` | Vwap.H:108-112 | executions, cancels and deletes never create a zero-quantity entry in a book that had none |
| `OrderBook.AddKeepsRestingIff` | Vwap.H:88-93 | on a book with no zero-quantity entries, an add keeps that property iff it does not insert a new buy order with quantity 0 |
| `OrderBook.ReplaceKeepsRestingIff` | Vwap.H:163-167 | on a book with no zero-quantity entries, a replace keeps that property iff it does not insert a replacement with quantity 0 |
| `Vwap.Session.constructor` | Vwap.H:20-24 | the clock starts at 0, the last snapshot time at 3 hours, the end flag false, the book empty, and every ledger and symbol slot empty |
| `Vwap.Session.SystemMsg` | Vwap.H:67-71 | the clock becomes the 48-bit timestamp at offset 5; the end flag becomes true if byte 11 is 'E' and otherwise keeps its old value; book, ledgers and symbols are unchanged |
| `Vwap.Session.StockRelatedMsg` | Vwap.H:74-81 | the symbol slot of the locate at offset 1 becomes bytes 11..18, and that locate's ledger becomes empty; every other slot, the book and the clock are unchanged |
| `Vwap.Session.AddOrder` | Vwap.H:84-94 | the clock becomes the timestamp at offset 5; the book becomes `Add` of the id at 11, the side at 19 and Order(price at 32, quantity at 20, locate at 1); ledgers and symbols are unchanged |
| `Vwap.Session.OrderExec` | Vwap.H:98-114 | the clock becomes the timestamp at offset 5; the book becomes `Execute` of the id at 11 and the quantity at 19; if the id was resting, exactly one Order(resting price, quantity, locate at 1) is appended to that locate's ledger, and otherwise no ledger changes |
| `Vwap.Session.OrderExecPrice` | Vwap.H:116-136 | as OrderExec, but the appended record carries the price at offset 32 |
| `Vwap.Session.OrderCancel` | Vwap.H:138-148 | the book becomes `Cancel` of the id at 11 and the quantity at 19; the clock, the ledgers and the symbols are unchanged |
| `Vwap.Session.OrderDelete` | Vwap.H:150-154 | the book becomes `Delete` of the id at 11; nothing else changes |
| `Vwap.Session.OrderReplace` | Vwap.H:156-168 | the book becomes `Replace` with the old id at 11, the new id at 19 and Order(price at 31, quantity at 27, locate at 1 of this message); the clock and the ledgers are unchanged |
| `Vwap.Session.NonCrossTrade` | Vwap.H:173-179 | no state changes |
| `Vwap.Session.CrossTrade` | Vwap.H:181-182 | no state changes |
| `Vwap.Session.BrokenTrade` | Vwap.H:187-189 | no state changes |

## Left out

- `formatTime` (Vwap.H:191-194) renders an hour as text for output. It is
  not book logic.
- How the source loads bytes (unaligned pointer casts, `__builtin_bswap*`,
  host byte order) is not modelled. Only the resulting big-endian value is.
  The mask `((1L << 48) - 1) << 16` is written as the bit pattern the
  compiler produces, 0xFFFF_FFFF_FFFF_0000, applied arithmetically (clear
  the low 16 bits, then divide by 2^16).
- Out-of-bounds reads are not modelled. The source reads fixed offsets
  without checking the message length; each handler instead requires a
  message long enough.
- `Vwap.Session.SystemMsg` cannot be called on a correctly sized system
  event message. That message is 12 bytes long, but the source's timestamp
  decoder loads eight bytes at offset 5 (Vwap.H:68, Vwap.H:32), that is one
  byte past its end. This is an over-read in the source, not just a length
  rule: the model requires the 13 bytes the source reads and does not say
  what the byte after the message is.
- `unordered_map` hashing and bucket layout are not modelled, nor the
  `reserve(1 << 5)` capacity hint of a fresh ledger. Neither is observable:
  the book is a `map` and a ledger a `seq`.
- The hourly snapshot scheduler and the VWAP sums are not modelled. No code
  in this file reads `LASTPRINTED` or `EPSILON1`; the model keeps only their
  values (`lastPrinted`, which every handler leaves unchanged, and the
  constants `Hour` and `Epsilon1`).
- Commented-out code is not modelled: the non-printable check in
  `orderExecPrice`, the timestamp reads in cancel, delete and replace, and
  the body of `nonCrossTrade`. None of it runs.
- Message framing and dispatch on the type byte are done by callers outside
  this file.
- Symbols are kept as their 8 raw bytes rather than as a `std::string` of
  characters.
