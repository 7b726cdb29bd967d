/**
  Rows of the trade-history table, the orders read from them, and the
  deduplication ledger: the set of order ids already processed and the
  append-only list of admitted orders. `Scan` is the admission block of one
  polling cycle, as a function of the ledger, the rows of the page and the
  current time.
*/
module Orders {
  import opened Wrappers
  import opened Text
  import opened Numbers

  /**
    One table row as six raw cell texts. `time` is the instant, in seconds,
    that parsing the stripped first cell with the format '%Y-%m-%d %H:%M:%S'
    yields, or None when the text does not have that format.
  */
  datatype Row = Row(
    timeCell: string,
    time: Option<int>,
    symbolCell: string,
    sideCell: string,
    priceCell: string,
    quantityCell: string,
    profitCell: string)

  /** The identity of an order: the fields its id text `time-symbol-side-price` is made of. */
  datatype OrderKey = OrderKey(time: string, symbol: string, side: string, price: real)

  /** An admitted order; `time` is the stripped time text, `at` the instant it denotes. */
  datatype Order = Order(
    time: string,
    at: int,
    symbol: string,
    side: string,
    price: real,
    quantity: real,
    profit: real)
  {
    function Key(): OrderKey {
      OrderKey(time, symbol, side, price)
    }
  }

  /** The instant truncated to its minute. */
  function MinuteStart(t: int): (m: int)
    ensures m <= t < m + 60
    ensures m % 60 == 0
  {
    t - t % 60
  }

  /** Both instants truncated to the minute are at most two minutes apart. */
  predicate InWindow(now: int, at: int) {
    -120 <= MinuteStart(now) - MinuteStart(at) <= 120
  }

  /**
    In seconds, the window admits every row at most 120 seconds away from
    now, and nothing 180 seconds away or more.
  */
  lemma WindowBounds(now: int, at: int)
    ensures -120 <= now - at <= 120 ==> InWindow(now, at)
    ensures InWindow(now, at) ==> -180 < now - at < 180
  {
    var d := MinuteStart(now) - MinuteStart(at);
    assert d % 60 == 0 by {
      assert d == (now / 60 - at / 60) * 60;
    }
    if -120 <= now - at <= 120 {
      assert -180 < d < 180;
    }
  }

  datatype RowReading = OutsideWindow | Malformed | Read(order: Order)

  /**
    Reading one row: a time text that does not parse makes the row
    Malformed (in the source, an exception that ends the polling loop); a
    row outside the two-minute window is skipped before its other cells are
    read; an in-window row is read by `ReadCells`. A read order is in the
    window.
  */
  function ReadRow(row: Row, now: int): (r: RowReading)
    ensures r.Read? ==> InWindow(now, r.order.at) && row.time == Some(r.order.at)
    ensures r.Read? ==> r.order.price >= 0.0 && r.order.quantity >= 0.0
    ensures (row.time.None? ==> r == Malformed) && (row.time.Some? && !InWindow(now, row.time.value) ==> r == OutsideWindow)
  {
    match row.time
    case None => Malformed
    case Some(at) =>
      if !InWindow(now, at) then OutsideWindow else ReadCells(row, at)
  }

  /** A row whose time parses and lies in the window is read by `ReadCells`, at that time. */
  lemma ReadRowInWindow(row: Row, now: int)
    requires row.time.Some? && InWindow(now, row.time.value)
    ensures ReadRow(row, now) == ReadCells(row, row.time.value)
  {
  }

  /**
    Reading the cells of an in-window row: a price, quantity or profit cell
    that does not parse after clean-up makes the row Malformed; the price
    and quantity of a read order are never negative.
  */
  function ReadCells(row: Row, at: int): (r: RowReading)
    ensures r != OutsideWindow
    ensures r.Read? ==> r.order.at == at && r.order.price >= 0.0 && r.order.quantity >= 0.0
  {
    var priceText := CleanNumeric(Strip(row.priceCell));
    var quantityText := CleanNumeric(Strip(row.quantityCell));
    var price := ParseFloat(priceText);
    var quantity := ParseFloat(quantityText);
    var profit := ParseFloat(CleanProfit(Strip(row.profitCell)));
    ParseDigitsAndDots(priceText);
    ParseDigitsAndDots(quantityText);
    ParseFloatOfDigitsAndDots(priceText);
    ParseFloatOfDigitsAndDots(quantityText);
    if price.None? || quantity.None? || profit.None? then Malformed
    else
      Read(Order(Strip(row.timeCell), at, NormaliseSymbol(Strip(row.symbolCell)), Strip(row.sideCell),
                 price.value, quantity.value, profit.value))
  }

  /**
    Exactly when the cells of a row are read: the cleaned price and quantity
    texts each have at most one dot and some digit, and the cleaned profit
    text is a number.
  */
  lemma ReadCellsAccepts(row: Row, at: int)
    ensures var p := CleanNumeric(Strip(row.priceCell));
      var q := CleanNumeric(Strip(row.quantityCell));
      ReadCells(row, at).Read? <==>
        (multiset(p)['.'] <= 1 && HasDigit(p) && multiset(q)['.'] <= 1 && HasDigit(q) &&
         ParseFloat(CleanProfit(Strip(row.profitCell))).Some?)
  {
    var p := CleanNumeric(Strip(row.priceCell));
    var q := CleanNumeric(Strip(row.quantityCell));
    ReadCellsParses(row, at);
    ParseDigitsAndDots(p);
    ParseDigitsAndDots(q);
    ParseFloatOfDigitsAndDots(p);
    ParseFloatOfDigitsAndDots(q);
  }

  lemma ReadCellsParses(row: Row, at: int)
    ensures ReadCells(row, at).Read? <==>
      && ParseFloat(CleanNumeric(Strip(row.priceCell))).Some?
      && ParseFloat(CleanNumeric(Strip(row.quantityCell))).Some?
      && ParseFloat(CleanProfit(Strip(row.profitCell))).Some?
  {
  }

  /**
    The order read from the cells of a row carries the stripped time and
    side, the normalised symbol, and the parsed price, quantity and profit
    (the profit's sign included).
  */
  lemma ReadCellsFields(row: Row, at: int)
    ensures ReadCells(row, at).Read? ==>
      var o := ReadCells(row, at).order;
      && o.time == Strip(row.timeCell) && o.at == at
      && o.symbol == NormaliseSymbol(Strip(row.symbolCell)) && o.side == Strip(row.sideCell)
      && ParseFloat(CleanNumeric(Strip(row.priceCell))) == Some(o.price)
      && ParseFloat(CleanNumeric(Strip(row.quantityCell))) == Some(o.quantity)
      && ParseFloat(CleanProfit(Strip(row.profitCell))) == Some(o.profit)
  {
  }

  /** The ids of a list of orders. */
  function KeySet(orders: seq<Order>): set<OrderKey> {
    if orders == [] then {} else KeySet(orders[..|orders| - 1]) + {orders[|orders| - 1].Key()}
  }

  lemma {:induction false} KeySetMembers(orders: seq<Order>, k: OrderKey)
    ensures k in KeySet(orders) <==> exists i :: 0 <= i < |orders| && orders[i].Key() == k
  {
    if orders != [] {
      var n := |orders| - 1;
      KeySetMembers(orders[..n], k);
      if exists i :: 0 <= i < n && orders[..n][i].Key() == k {
        var i :| 0 <= i < n && orders[..n][i].Key() == k;
        assert orders[i].Key() == k;
      }
      if exists i :: 0 <= i < |orders| && orders[i].Key() == k {
        var i :| 0 <= i < |orders| && orders[i].Key() == k;
        if i < n {
          assert orders[..n][i].Key() == k;
        }
      }
    }
  }

  lemma {:induction false} KeySetConcat(a: seq<Order>, b: seq<Order>)
    ensures KeySet(a + b) == KeySet(a) + KeySet(b)
  {
    if b != [] {
      var n := |b| - 1;
      KeySetConcat(a, b[..n]);
      assert (a + b)[..|a + b| - 1] == a + b[..n];
    } else {
      assert a + b == a;
    }
  }

  /** No two orders of the list have the same id. */
  predicate KeysDistinct(orders: seq<Order>) {
    forall i, j :: 0 <= i < j < |orders| ==> orders[i].Key() != orders[j].Key()
  }

  /** Any run at the end of a list with distinct ids has distinct ids. */
  lemma DistinctSuffix(orders: seq<Order>, d: nat)
    requires KeysDistinct(orders) && d <= |orders|
    ensures KeysDistinct(orders[d..])
  {
    forall i, j | 0 <= i < j < |orders| - d ensures orders[d..][i].Key() != orders[d..][j].Key() {
      assert orders[d..][i] == orders[d + i] && orders[d..][j] == orders[d + j];
    }
  }

  lemma DistinctConcat(a: seq<Order>, b: seq<Order>)
    requires KeysDistinct(a) && KeysDistinct(b)
    requires forall j :: 0 <= j < |b| ==> b[j].Key() !in KeySet(a)
    ensures KeysDistinct(a + b)
  {
    forall i, j | 0 <= i < j < |a + b| ensures (a + b)[i].Key() != (a + b)[j].Key() {
      if i < |a| <= j {
        KeySetMembers(a, b[j - |a|].Key());
        assert a[i].Key() != b[j - |a|].Key();
      }
    }
  }

  /** The processed-ids set and the list of admitted orders. */
  datatype Ledger = Ledger(seen: set<OrderKey>, orders: seq<Order>)

  /** Every listed order has been recorded as processed, and no id is listed twice. */
  predicate LedgerValid(l: Ledger) {
    KeysDistinct(l.orders) && KeySet(l.orders) <= l.seen
  }

  /**
    Admitting one read order: an id already processed changes nothing; a new
    id is recorded and the order is appended, once, at the end.
  */
  function Admit(l: Ledger, o: Order): (r: Ledger)
    ensures o.Key() in r.seen
    ensures o.Key() in l.seen ==> r == l
    ensures o.Key() !in l.seen ==> r.seen == l.seen + {o.Key()} && r.orders == l.orders + [o]
  {
    if o.Key() in l.seen then l else Ledger(l.seen + {o.Key()}, l.orders + [o])
  }

  /**
    `l2` is `l` with a run of orders appended: the old list is a prefix, the
    appended orders have ids not processed before and distinct among
    themselves, and exactly their ids were added to the processed set.
  */
  predicate Extends(l: Ledger, l2: Ledger) {
    && |l.orders| <= |l2.orders|
    && l2.orders[..|l.orders|] == l.orders
    && l2.seen == l.seen + KeySet(l2.orders[|l.orders|..])
    && (forall i :: |l.orders| <= i < |l2.orders| ==> l2.orders[i].Key() !in l.seen)
    && KeysDistinct(l2.orders[|l.orders|..])
  }

  lemma ExtendsRefl(l: Ledger)
    ensures Extends(l, l)
  {
    assert l.orders[|l.orders|..] == [];
  }

  /** Admitting an order keeps a ledger an extension of where it started. */
  lemma ExtendsAdmit(l: Ledger, p: Ledger, o: Order)
    requires Extends(l, p)
    ensures Extends(l, Admit(p, o))
  {
    if o.Key() !in p.seen {
      var q := Admit(p, o);
      var n := |l.orders|;
      var added := p.orders[n..];
      assert q.orders[n..] == added + [o];
      assert (added + [o])[..|added|] == added;
      assert q.orders[..n] == l.orders;
      forall j | 0 <= j < |added| ensures added[j].Key() != o.Key() {
        KeySetMembers(added, added[j].Key());
      }
    }
  }

  /** A ledger that is valid stays valid when extended. */
  lemma ExtendsValid(l: Ledger, l2: Ledger)
    requires LedgerValid(l) && Extends(l, l2)
    ensures LedgerValid(l2)
  {
    var n := |l.orders|;
    var added := l2.orders[n..];
    assert l2.orders == l.orders + added;
    forall j | 0 <= j < |added| ensures added[j].Key() !in KeySet(l.orders) {
      assert added[j] == l2.orders[n + j];
    }
    DistinctConcat(l.orders, added);
    KeySetConcat(l.orders, added);
  }

  /** The outcome of reading a page: the new ledger, whether a new order was admitted, whether a row aborted the read. */
  datatype ScanResult = ScanResult(ledger: Ledger, found: bool, aborted: bool)

  /** The reading of every row of the page. */
  function Readings(rows: seq<Row>, now: int): (rs: seq<RowReading>)
    ensures |rs| == |rows| && forall i :: 0 <= i < |rows| ==> rs[i] == ReadRow(rows[i], now)
  {
    seq(|rows|, i requires 0 <= i < |rows| => ReadRow(rows[i], now))
  }

  /**
    One row of the admission block: after an abort nothing happens; a
    Malformed row aborts; a read order with a new id is admitted and marks
    the cycle as having found data.
  */
  function Step(p: ScanResult, rd: RowReading): ScanResult {
    if p.aborted then p
    else
      match rd
      case OutsideWindow => p
      case Malformed => p.(aborted := true)
      case Read(o) =>
        if o.Key() in p.ledger.seen then p
        else ScanResult(Admit(p.ledger, o), true, false)
  }

  function ScanReadings(l: Ledger, rds: seq<RowReading>): ScanResult {
    if rds == [] then ScanResult(l, false, false)
    else Step(ScanReadings(l, rds[..|rds| - 1]), rds[|rds| - 1])
  }

  /** Once a row has aborted the block, the remaining rows change nothing. */
  lemma {:induction false} AbortedScanStops(l: Ledger, rds: seq<RowReading>, i: nat)
    requires i <= |rds| && ScanReadings(l, rds[..i]).aborted
    ensures ScanReadings(l, rds) == ScanReadings(l, rds[..i])
    decreases |rds|
  {
    if i < |rds| {
      var n := |rds| - 1;
      assert rds[..n][..i] == rds[..i];
      AbortedScanStops(l, rds[..n], i);
    } else {
      assert rds[..i] == rds;
    }
  }

  /** The scan of the first `i + 1` readings is one step after the scan of the first `i`. */
  lemma ScanPrefixStep(l: Ledger, rds: seq<RowReading>, i: nat)
    requires i < |rds|
    ensures ScanReadings(l, rds[..i + 1]) == Step(ScanReadings(l, rds[..i]), rds[i])
  {
    assert rds[..i + 1][..i] == rds[..i];
  }

  /**
    The positions of the readings whose order the scan admitted, in
    reading order.
  */
  function AdmittedRows(l: Ledger, rds: seq<RowReading>): seq<nat> {
    if rds == [] then []
    else
      var n := |rds| - 1;
      var p := ScanReadings(l, rds[..n]);
      AdmittedRows(l, rds[..n]) +
        (if !p.aborted && rds[n].Read? && rds[n].order.Key() !in p.ledger.seen then [n] else [])
  }

  lemma {:induction false} ScanReadingsProvenance(l: Ledger, rds: seq<RowReading>)
    ensures var r := ScanReadings(l, rds).ledger;
      var idx := AdmittedRows(l, rds);
      && |r.orders| == |l.orders| + |idx|
      && r.orders[..|l.orders|] == l.orders
      && (forall j :: 0 <= j < |idx| ==> idx[j] < |rds| && rds[idx[j]] == Read(r.orders[|l.orders| + j]))
      && (forall j, k :: 0 <= j < k < |idx| ==> idx[j] < idx[k])
  {
    if rds != [] {
      var n := |rds| - 1;
      var p := ScanReadings(l, rds[..n]);
      var r := ScanReadings(l, rds).ledger;
      var idx := AdmittedRows(l, rds[..n]);
      ScanReadingsProvenance(l, rds[..n]);
      assert forall j :: 0 <= j < |idx| ==> rds[idx[j]] == rds[..n][idx[j]];
      if !p.aborted && rds[n].Read? && rds[n].order.Key() !in p.ledger.seen {
        assert r.orders == p.ledger.orders + [rds[n].order];
      } else {
        assert r == p.ledger;
      }
    }
  }

  /**
    Where the admitted orders come from: the orders a scan appends are,
    one for one and in row order, the orders read from rows of the page;
    the orders already in the ledger stay as they were.
  */
  lemma ScanProvenance(l: Ledger, rows: seq<Row>, now: int)
    ensures var r := Scan(l, rows, now).ledger;
      var idx := AdmittedRows(l, Readings(rows, now));
      && |r.orders| == |l.orders| + |idx|
      && r.orders[..|l.orders|] == l.orders
      && (forall j :: 0 <= j < |idx| ==> idx[j] < |rows| && ReadRow(rows[idx[j]], now) == Read(r.orders[|l.orders| + j]))
      && (forall j, k :: 0 <= j < k < |idx| ==> idx[j] < idx[k])
  {
    ScanReadingsProvenance(l, Readings(rows, now));
  }

  /**
    The admission block of one cycle over the rows of the page, in order.
    A Malformed row stops the block (the exception leaves the loop), keeping
    what the earlier rows admitted.
  */
  function Scan(l: Ledger, rows: seq<Row>, now: int): ScanResult {
    ScanReadings(l, Readings(rows, now))
  }

  lemma {:induction false} ScanReadingsExtends(l: Ledger, rds: seq<RowReading>)
    ensures Extends(l, ScanReadings(l, rds).ledger)
    ensures ScanReadings(l, rds).found <==> |ScanReadings(l, rds).ledger.orders| > |l.orders|
  {
    if rds == [] {
      ExtendsRefl(l);
    } else {
      var p := ScanReadings(l, rds[..|rds| - 1]);
      ScanReadingsExtends(l, rds[..|rds| - 1]);
      match rds[|rds| - 1]
      case OutsideWindow =>
      case Malformed =>
      case Read(o) => ExtendsAdmit(l, p.ledger, o);
    }
  }

  /**
    A scan only appends: the result extends the starting ledger, and the
    cycle reports new data exactly when some order was appended.
  */
  lemma ScanExtends(l: Ledger, rows: seq<Row>, now: int)
    ensures Extends(l, Scan(l, rows, now).ledger)
    ensures Scan(l, rows, now).found <==> |Scan(l, rows, now).ledger.orders| > |l.orders|
  {
    ScanReadingsExtends(l, Readings(rows, now));
  }

  /** Hence a valid ledger is valid after any scan. */
  lemma ScanValid(l: Ledger, rows: seq<Row>, now: int)
    requires LedgerValid(l)
    ensures LedgerValid(Scan(l, rows, now).ledger)
  {
    ScanExtends(l, rows, now);
    ExtendsValid(l, Scan(l, rows, now).ledger);
  }

  lemma {:induction false} ScanReadingsRecords(l: Ledger, rds: seq<RowReading>)
    requires !ScanReadings(l, rds).aborted
    ensures forall i :: 0 <= i < |rds| ==> !rds[i].Malformed?
    ensures forall i :: 0 <= i < |rds| && rds[i].Read? ==> rds[i].order.Key() in ScanReadings(l, rds).ledger.seen
  {
    if rds != [] {
      var n := |rds| - 1;
      var p := ScanReadings(l, rds[..n]);
      var r := ScanReadings(l, rds);
      assert !p.aborted;
      ScanReadingsRecords(l, rds[..n]);
      assert p.ledger.seen <= r.ledger.seen;
      forall i | 0 <= i < |rds|
        ensures !rds[i].Malformed?
        ensures rds[i].Read? ==> rds[i].order.Key() in r.ledger.seen
      {
        if i < n {
          assert rds[i] == rds[..n][i];
        }
      }
    }
  }

  /**
    After a scan that did not abort, every row of the page was read or lay
    outside the window, and the id of every read row is recorded.
  */
  lemma ScanRecordsEveryRow(l: Ledger, rows: seq<Row>, now: int)
    requires !Scan(l, rows, now).aborted
    ensures forall i :: 0 <= i < |rows| ==> !ReadRow(rows[i], now).Malformed?
    ensures forall i :: 0 <= i < |rows| && ReadRow(rows[i], now).Read? ==>
      ReadRow(rows[i], now).order.Key() in Scan(l, rows, now).ledger.seen
  {
    ScanReadingsRecords(l, Readings(rows, now));
  }

  lemma {:induction false} ScanOfKnownReadings(l: Ledger, rds: seq<RowReading>)
    requires forall i :: 0 <= i < |rds| ==> !rds[i].Malformed?
    requires forall i :: 0 <= i < |rds| && rds[i].Read? ==> rds[i].order.Key() in l.seen
    ensures ScanReadings(l, rds) == ScanResult(l, false, false)
  {
    if rds != [] {
      var n := |rds| - 1;
      forall i | 0 <= i < n ensures rds[..n][i] == rds[i] { }
      ScanOfKnownReadings(l, rds[..n]);
    }
  }

  /**
    Reading the same page again in the same minute admits nothing: the
    cycle reports no new data and the ledger does not change.
  */
  lemma RescanAdmitsNothing(l: Ledger, rows: seq<Row>, now: int)
    requires !Scan(l, rows, now).aborted
    ensures var l2 := Scan(l, rows, now).ledger; Scan(l2, rows, now) == ScanResult(l2, false, false)
  {
    var rds := Readings(rows, now);
    ScanReadingsRecords(l, rds);
    ScanOfKnownReadings(ScanReadings(l, rds).ledger, rds);
  }

  /** Expiry of the snapshot: the list of orders is emptied, the processed ids are kept. */
  function Expire(l: Ledger): (r: Ledger)
    ensures r.orders == [] && r.seen == l.seen && LedgerValid(r)
  {
    Ledger(l.seen, [])
  }

  /** An order whose id was processed before expiry is never admitted again after it. */
  lemma ExpiredIdsStayRejected(l: Ledger, rows: seq<Row>, now: int)
    ensures forall o :: o in Scan(Expire(l), rows, now).ledger.orders ==> o.Key() !in l.seen
  {
    ScanExtends(Expire(l), rows, now);
    var r := Scan(Expire(l), rows, now).ledger;
    assert r.orders[0..] == r.orders;
  }
}
