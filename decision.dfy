/**
  The mirroring decision for one admitted order, the order request it turns
  into, and the pass over the list of admitted orders that submits them.
  The exchange is external: a submission is recorded as the request that
  would be sent, whatever the exchange answers.
*/
module Decision {
  import opened Wrappers
  import opened Orders

  /** Session settings: leverage (0 = none), the two portfolio sizes, and two mode flags. */
  datatype Config = Config(
    leverage: int,
    traderPortfolioSize: real,
    yourPortfolioSize: real,
    closeOnlyMode: bool,
    reverseCopy: bool)

  datatype Side = OpenLong | CloseLong | OpenShort | CloseShort {
    predicate IsClosing() {
      this == CloseLong || this == CloseShort
    }
  }

  /**
    The side-label dispatch, first match wins. The third test repeats
    "Buy/long", which the first test has already taken.
  */
  function Classify(text: string): Option<Side> {
    if text == "Open long" || text == "Buy/long" then Some(OpenLong)
    else if text == "Close long" || text == "Sell/Short" then Some(CloseLong)
    else if text == "Open short" || text == "Buy/long" then Some(OpenShort)
    else if text == "Close short" || text == "Buy/Long" then Some(CloseShort)
    else None
  }

  /** The labels the dispatch recognises and the side each one selects. */
  const LabelTable: map<string, Side> := map[
    "Open long" := OpenLong, "Buy/long" := OpenLong,
    "Close long" := CloseLong, "Sell/Short" := CloseLong,
    "Open short" := OpenShort,
    "Close short" := CloseShort, "Buy/Long" := CloseShort]

  /**
    The dispatch is the label table: seven labels are recognised, and the
    only label that opens a short is "Open short".
  */
  lemma ClassifyIsTable(text: string)
    ensures Classify(text) == if text in LabelTable then Some(LabelTable[text]) else None
    ensures Classify(text) == Some(OpenShort) <==> text == "Open short"
  {
  }

  /** The mirrored size `(T * Y) / T`; the trader's size cancels out. */
  function BaseQuantity(cfg: Config): (q: real)
    requires cfg.traderPortfolioSize != 0.0
    ensures q == cfg.yourPortfolioSize
  {
    (cfg.traderPortfolioSize * cfg.yourPortfolioSize) / cfg.traderPortfolioSize
  }

  /** Closing sides get a 5% markup over the base size. */
  function SideQuantity(cfg: Config, side: Side): (q: real)
    requires cfg.traderPortfolioSize != 0.0
    ensures q == if side.IsClosing() then cfg.yourPortfolioSize * 1.05 else cfg.yourPortfolioSize
  {
    if side.IsClosing() then BaseQuantity(cfg) * 1.05 else BaseQuantity(cfg)
  }

  /**
    Raising a quantity to the symbol's minimum: for a symbol in the table the
    result is the larger of the two; for any other symbol the quantity is
    returned as it is.
  */
  function AdjustToMin(table: map<string, real>, symbol: string, q: real): (r: real)
    ensures symbol in table ==> r >= q && r >= table[symbol] && (r == q || r == table[symbol])
    ensures symbol !in table ==> r == q
  {
    if symbol in table && q < table[symbol] then table[symbol] else q
  }

  /** Mirror the order, skip it, or fail on a symbol missing from the minimum table. */
  datatype Verdict = Mirror | Skip | MissingMinimum

  /**
    `adjust_quantity_to_min(...) >= min_order_quantity[symbol]`: the lookup
    fails for a symbol missing from the table; otherwise the adjusted
    quantity always meets the minimum.
  */
  function MeetsMinimum(table: map<string, real>, symbol: string, q: real): (v: Verdict)
    ensures v == if symbol in table then Mirror else MissingMinimum
  {
    var adjusted := AdjustToMin(table, symbol, q);
    if symbol !in table then MissingMinimum
    else if adjusted >= table[symbol] then Mirror
    else Skip
  }

  /** The side dispatch of the decision: an unrecognised label is skipped. */
  function SideCheck(table: map<string, real>, o: Order, q: real): Verdict {
    match Classify(o.side)
    case None => Skip
    case Some(side) => MeetsMinimum(table, o.symbol, if side.IsClosing() then q * 1.05 else q)
  }

  /**
    `should_open_position`, with the clock as the parameter `now`: in close-only
    mode, for a settled order (non-zero realised profit) and for an order more
    than 60 seconds old, nothing is mirrored; otherwise a recognised label
    whose symbol is in the table is always mirrored, and the reverse-copy
    flag makes no difference.
  */
  function ShouldOpenPosition(cfg: Config, table: map<string, real>, o: Order, now: int): (v: Verdict)
    requires cfg.traderPortfolioSize != 0.0
    ensures v == Mirror <==>
      !cfg.closeOnlyMode && o.profit == 0.0 && now - o.at <= 60 && Classify(o.side).Some? && o.symbol in table
    ensures v == MissingMinimum <==>
      !cfg.closeOnlyMode && o.profit == 0.0 && now - o.at <= 60 && Classify(o.side).Some? && o.symbol !in table
  {
    if cfg.closeOnlyMode then Skip
    else if o.profit != 0.0 then Skip
    else if now - o.at > 60 then Skip
    else
      var q := BaseQuantity(cfg);
      if cfg.reverseCopy then SideCheck(table, o, q) else SideCheck(table, o, q)
  }

  /** Both branches on the reverse-copy flag decide alike. */
  lemma ReverseCopyIrrelevant(cfg: Config, table: map<string, real>, o: Order, now: int)
    requires cfg.traderPortfolioSize != 0.0
    ensures ShouldOpenPosition(cfg, table, o, now) == ShouldOpenPosition(cfg.(reverseCopy := !cfg.reverseCopy), table, o, now)
  {
  }

  datatype Direction = Buy | Sell

  /** A market order request as the exchange client is called with it. */
  datatype Submission = Submission(
    symbol: string,
    direction: Direction,
    positionSide: Option<string>,
    quantity: real,
    leverage: Option<int>)

  /** The four position methods: direction, size, and leverage on opening sides when it is set. */
  function Request(cfg: Config, table: map<string, real>, o: Order, side: Side): Submission
    requires cfg.traderPortfolioSize != 0.0
  {
    match side
    case OpenLong =>
      var q := AdjustToMin(table, o.symbol, BaseQuantity(cfg));
      if cfg.leverage != 0 then Submission(o.symbol, Buy, Some("LONG"), q, Some(cfg.leverage))
      else Submission(o.symbol, Buy, None, q, None)
    case CloseLong =>
      Submission(o.symbol, Sell, None, AdjustToMin(table, o.symbol, BaseQuantity(cfg) * 1.05), None)
    case OpenShort =>
      var q := AdjustToMin(table, o.symbol, BaseQuantity(cfg));
      if cfg.leverage != 0 then Submission(o.symbol, Sell, None, q, Some(cfg.leverage))
      else Submission(o.symbol, Sell, None, q, None)
    case CloseShort =>
      Submission(o.symbol, Buy, None, AdjustToMin(table, o.symbol, BaseQuantity(cfg) * 1.05), None)
  }

  /**
    The request for a side: BUY opens a long and closes a short, SELL the
    other two; the size is the larger of the side's quantity and the symbol's
    minimum; leverage goes only with opening sides, and the LONG position
    side only with a leveraged opening long.
  */
  lemma RequestShape(cfg: Config, table: map<string, real>, o: Order, side: Side)
    requires cfg.traderPortfolioSize != 0.0 && o.symbol in table
    ensures var r := Request(cfg, table, o, side);
      var q := SideQuantity(cfg, side);
      && r.symbol == o.symbol
      && r.direction == (if side == OpenLong || side == CloseShort then Buy else Sell)
      && r.quantity == (if q < table[o.symbol] then table[o.symbol] else q)
      && (r.leverage.Some? <==> !side.IsClosing() && cfg.leverage != 0)
      && (r.leverage.Some? ==> r.leverage.value == cfg.leverage)
      && (r.positionSide.Some? <==> side == OpenLong && cfg.leverage != 0)
      && (r.positionSide.Some? ==> r.positionSide.value == "LONG")
  {
  }

  /**
    The outcome of one pass: the requests submitted, the orders they mirror
    (one each, in the same order), and whether a missing minimum ended the pass.
  */
  datatype ProcessResult = ProcessResult(requests: seq<Submission>, mirrored: seq<Order>, aborted: bool)

  /** What deciding one order leads to: nothing, the missing-minimum failure, or a request. */
  datatype Outcome = Skipped | Failed | Sent(order: Order, request: Submission)

  /**
    The decision for one order followed by the side dispatch of
    `process_orders`. A request is sent exactly when the decision says to
    mirror (so the dispatch's "unsupported side" branch is never reached),
    for the order's own side and never below the symbol's minimum.
  */
  function OutcomeOf(cfg: Config, table: map<string, real>, o: Order, now: int): (out: Outcome)
    requires cfg.traderPortfolioSize != 0.0
    ensures out == Failed <==> ShouldOpenPosition(cfg, table, o, now) == MissingMinimum
    ensures out.Sent? <==> ShouldOpenPosition(cfg, table, o, now) == Mirror
    ensures out.Sent? ==>
      && out.order == o && out.request == Request(cfg, table, o, Classify(o.side).value)
      && out.request.symbol in table && out.request.quantity >= table[out.request.symbol]
  {
    match ShouldOpenPosition(cfg, table, o, now)
    case Skip => Skipped
    case MissingMinimum => Failed
    case Mirror =>
      match Classify(o.side)
      case Some(side) => RequestShape(cfg, table, o, side); Sent(o, Request(cfg, table, o, side))
      case None => Skipped
  }

  /** The outcome for every order of the list. */
  function Outcomes(cfg: Config, table: map<string, real>, orders: seq<Order>, now: int): (os: seq<Outcome>)
    requires cfg.traderPortfolioSize != 0.0
    ensures |os| == |orders| && forall i :: 0 <= i < |orders| ==> os[i] == OutcomeOf(cfg, table, orders[i], now)
  {
    seq(|orders|, i requires 0 <= i < |orders| => OutcomeOf(cfg, table, orders[i], now))
  }

  /** One order of a pass: after a failure nothing happens; a failure ends the pass; a request is appended. */
  function PassStep(p: ProcessResult, out: Outcome): ProcessResult {
    if p.aborted then p
    else
      match out
      case Skipped => p
      case Failed => p.(aborted := true)
      case Sent(o, r) => ProcessResult(p.requests + [r], p.mirrored + [o], false)
  }

  function Pass(outs: seq<Outcome>): ProcessResult {
    if outs == [] then ProcessResult([], [], false) else PassStep(Pass(outs[..|outs| - 1]), outs[|outs| - 1])
  }

  /**
    `process_orders`: decide every order of the list in turn and submit
    those to mirror. The failed lookup of a missing minimum propagates out of
    the pass (and out of the polling loop); requests already made stand.
  */
  function Process(cfg: Config, table: map<string, real>, orders: seq<Order>, now: int): ProcessResult
    requires cfg.traderPortfolioSize != 0.0
  {
    Pass(Outcomes(cfg, table, orders, now))
  }

  /** A pass over one more outcome is one more step of the pass. */
  lemma PassPrefixStep(outs: seq<Outcome>, k: nat)
    requires k < |outs|
    ensures Pass(outs[..k + 1]) == PassStep(Pass(outs[..k]), outs[k])
  {
    assert outs[..k + 1][..k] == outs[..k];
  }

  /** Once an outcome has aborted the pass, the remaining outcomes change nothing. */
  lemma {:induction false} AbortedPassStops(outs: seq<Outcome>, i: nat)
    requires i <= |outs| && Pass(outs[..i]).aborted
    ensures Pass(outs) == Pass(outs[..i])
    decreases |outs|
  {
    if i < |outs| {
      var n := |outs| - 1;
      assert outs[..n][..i] == outs[..i];
      AbortedPassStops(outs[..n], i);
    } else {
      assert outs[..i] == outs;
    }
  }

  /**
    A pass emits one request per sent outcome, in order, with the order it
    mirrors, and aborts exactly when some outcome is a failure.
  */
  lemma {:induction false} PassSpec(outs: seq<Outcome>)
    ensures var r := Pass(outs);
      && |r.requests| == |r.mirrored| <= |outs|
      && (forall i :: 0 <= i < |r.mirrored| ==> exists j :: 0 <= j < |outs| && outs[j] == Sent(r.mirrored[i], r.requests[i]))
      && (r.aborted <==> exists j :: 0 <= j < |outs| && outs[j] == Failed)
  {
    if outs != [] {
      var n := |outs| - 1;
      PassSpec(outs[..n]);
      var p := Pass(outs[..n]);
      forall i | 0 <= i < |p.mirrored|
        ensures exists j :: 0 <= j < |outs| && outs[j] == Sent(p.mirrored[i], p.requests[i])
      {
        var j :| 0 <= j < n && outs[..n][j] == Sent(p.mirrored[i], p.requests[i]);
        assert outs[j] == outs[..n][j];
      }
      if exists j :: 0 <= j < n && outs[..n][j] == Failed {
        var j :| 0 <= j < n && outs[..n][j] == Failed;
        assert outs[j] == Failed;
      }
      if exists j :: 0 <= j < |outs| && outs[j] == Failed {
        var j :| 0 <= j < |outs| && outs[j] == Failed;
        if j < n {
          assert outs[..n][j] == Failed;
        }
      }
    }
  }

  /** A pass whose sent outcomes are for orders with distinct ids mirrors each id at most once. */
  lemma {:induction false} PassDistinct(outs: seq<Outcome>)
    requires forall j, k :: 0 <= j < k < |outs| && outs[j].Sent? && outs[k].Sent? ==> outs[j].order.Key() != outs[k].order.Key()
    ensures KeysDistinct(Pass(outs).mirrored)
  {
    if outs != [] {
      var n := |outs| - 1;
      var p := Pass(outs[..n]);
      PassDistinct(outs[..n]);
      PassSpec(outs[..n]);
      if !p.aborted && outs[n].Sent? {
        forall i | 0 <= i < |p.mirrored| ensures p.mirrored[i].Key() != outs[n].order.Key() {
          var j :| 0 <= j < n && outs[..n][j] == Sent(p.mirrored[i], p.requests[i]);
          assert outs[j] == outs[..n][j];
        }
      }
    }
  }

  /**
    What a pass submits: one request per mirrored order, each for an order
    of the list that passed the decision, for its own side, never below the
    symbol's minimum; and the pass aborts exactly when some order reaches
    the missing-minimum failure.
  */
  lemma ProcessSpec(cfg: Config, table: map<string, real>, orders: seq<Order>, now: int)
    requires cfg.traderPortfolioSize != 0.0
    ensures var r := Process(cfg, table, orders, now);
      && |r.requests| == |r.mirrored| <= |orders|
      && (forall i :: 0 <= i < |r.mirrored| ==> r.mirrored[i] in orders)
      && (forall i :: 0 <= i < |r.mirrored| ==>
            ShouldOpenPosition(cfg, table, r.mirrored[i], now) == Mirror &&
            r.requests[i] == Request(cfg, table, r.mirrored[i], Classify(r.mirrored[i].side).value))
      && (forall i :: 0 <= i < |r.requests| ==> r.requests[i].symbol in table && r.requests[i].quantity >= table[r.requests[i].symbol])
      && (r.aborted <==> exists i :: 0 <= i < |orders| && ShouldOpenPosition(cfg, table, orders[i], now) == MissingMinimum)
  {
    var outs := Outcomes(cfg, table, orders, now);
    var r := Pass(outs);
    PassSpec(outs);
    forall i | 0 <= i < |r.mirrored|
      ensures r.mirrored[i] in orders && ShouldOpenPosition(cfg, table, r.mirrored[i], now) == Mirror
      ensures r.requests[i] == Request(cfg, table, r.mirrored[i], Classify(r.mirrored[i].side).value)
      ensures r.requests[i].symbol in table && r.requests[i].quantity >= table[r.requests[i].symbol]
    {
      var j :| 0 <= j < |outs| && outs[j] == Sent(r.mirrored[i], r.requests[i]);
      assert outs[j] == OutcomeOf(cfg, table, orders[j], now);
    }
    if exists i :: 0 <= i < |orders| && ShouldOpenPosition(cfg, table, orders[i], now) == MissingMinimum {
      var i :| 0 <= i < |orders| && ShouldOpenPosition(cfg, table, orders[i], now) == MissingMinimum;
      assert outs[i] == Failed;
    }
  }

  /**
    The orders of the list the decision mirrors, in list order: an order is
    in it exactly when it is in the list and its verdict is Mirror.
  */
  function Qualifying(cfg: Config, table: map<string, real>, orders: seq<Order>, now: int): (q: seq<Order>)
    requires cfg.traderPortfolioSize != 0.0
    ensures forall o :: o in q <==> o in orders && ShouldOpenPosition(cfg, table, o, now) == Mirror
  {
    if orders == [] then []
    else
      var n := |orders| - 1;
      var o := orders[n];
      assert orders == orders[..n] + [o];
      Qualifying(cfg, table, orders[..n], now) + (if ShouldOpenPosition(cfg, table, o, now) == Mirror then [o] else [])
  }

  /**
    The position of the first order whose symbol is missing from the
    minimum table (where the lookup raises), or the length of the list when
    there is none.
  */
  function FirstFailure(cfg: Config, table: map<string, real>, orders: seq<Order>, now: int): (f: nat)
    requires cfg.traderPortfolioSize != 0.0
    ensures f <= |orders|
    ensures forall j :: 0 <= j < f ==> ShouldOpenPosition(cfg, table, orders[j], now) != MissingMinimum
    ensures f < |orders| ==> ShouldOpenPosition(cfg, table, orders[f], now) == MissingMinimum
  {
    if orders == [] then 0
    else if ShouldOpenPosition(cfg, table, orders[0], now) == MissingMinimum then 0
    else 1 + FirstFailure(cfg, table, orders[1..], now)
  }

  /** The orders of the sent outcomes, in order. */
  function SentOrders(outs: seq<Outcome>): seq<Order> {
    if outs == [] then []
    else
      var out := outs[|outs| - 1];
      SentOrders(outs[..|outs| - 1]) + (if out.Sent? then [out.order] else [])
  }

  /** A pass with no failure mirrors the order of every sent outcome, in order, and does not abort. */
  lemma {:induction false} PassWithoutFailure(outs: seq<Outcome>)
    requires forall j :: 0 <= j < |outs| ==> outs[j] != Failed
    ensures Pass(outs).mirrored == SentOrders(outs) && !Pass(outs).aborted
  {
    if outs != [] {
      PassWithoutFailure(outs[..|outs| - 1]);
    }
  }

  /** The sent outcomes of a list's decisions are its qualifying orders. */
  lemma {:induction false} SentAreQualifying(cfg: Config, table: map<string, real>, orders: seq<Order>, outs: seq<Outcome>, now: int)
    requires cfg.traderPortfolioSize != 0.0
    requires |outs| == |orders| && forall i :: 0 <= i < |orders| ==> outs[i] == OutcomeOf(cfg, table, orders[i], now)
    ensures SentOrders(outs) == Qualifying(cfg, table, orders, now)
  {
    if orders != [] {
      var n := |orders| - 1;
      SentAreQualifying(cfg, table, orders[..n], outs[..n], now);
    }
  }

  /**
    Which orders a pass mirrors: up to the first order with a missing
    minimum, exactly the orders the decision mirrors, in list order; the
    pass aborts exactly when such an order exists.
  */
  lemma ProcessMirrorsQualifying(cfg: Config, table: map<string, real>, orders: seq<Order>, now: int)
    requires cfg.traderPortfolioSize != 0.0
    ensures var f := FirstFailure(cfg, table, orders, now);
      var r := Process(cfg, table, orders, now);
      r.mirrored == Qualifying(cfg, table, orders[..f], now) && r.aborted == (f < |orders|)
  {
    var outs := Outcomes(cfg, table, orders, now);
    var f := FirstFailure(cfg, table, orders, now);
    assert forall j :: 0 <= j < f ==> outs[..f][j] == outs[j];
    PassWithoutFailure(outs[..f]);
    SentAreQualifying(cfg, table, orders[..f], outs[..f], now);
    if f < |orders| {
      PassPrefixStep(outs, f);
      AbortedPassStops(outs, f + 1);
    } else {
      assert outs[..f] == outs && orders[..f] == orders;
    }
  }

  /**
    What a pass submits, completely: the qualifying orders before the first
    missing minimum, each with the request for its own side.
  */
  lemma ProcessComplete(cfg: Config, table: map<string, real>, orders: seq<Order>, now: int)
    requires cfg.traderPortfolioSize != 0.0
    ensures var f := FirstFailure(cfg, table, orders, now);
      var r := Process(cfg, table, orders, now);
      && r.mirrored == Qualifying(cfg, table, orders[..f], now)
      && r.aborted == (f < |orders|)
      && |r.requests| == |r.mirrored|
      && forall i :: 0 <= i < |r.requests| ==>
           ShouldOpenPosition(cfg, table, r.mirrored[i], now) == Mirror &&
           r.requests[i] == Request(cfg, table, r.mirrored[i], Classify(r.mirrored[i].side).value)
  {
    ProcessMirrorsQualifying(cfg, table, orders, now);
    ProcessSpec(cfg, table, orders, now);
  }

  /** In close-only mode a pass submits nothing and never fails. */
  lemma CloseOnlySubmitsNothing(cfg: Config, table: map<string, real>, orders: seq<Order>, now: int)
    requires cfg.traderPortfolioSize != 0.0 && cfg.closeOnlyMode
    ensures Process(cfg, table, orders, now) == ProcessResult([], [], false)
  {
    PassOfSkips(Outcomes(cfg, table, orders, now));
  }

  lemma {:induction false} PassOfSkips(outs: seq<Outcome>)
    requires forall j :: 0 <= j < |outs| ==> outs[j] == Skipped
    ensures Pass(outs) == ProcessResult([], [], false)
  {
    if outs != [] {
      PassOfSkips(outs[..|outs| - 1]);
    }
  }

  /** A pass over a list whose ids are distinct mirrors each id at most once. */
  lemma ProcessMirrorsDistinct(cfg: Config, table: map<string, real>, orders: seq<Order>, now: int)
    requires cfg.traderPortfolioSize != 0.0 && KeysDistinct(orders)
    ensures KeysDistinct(Process(cfg, table, orders, now).mirrored)
  {
    var outs := Outcomes(cfg, table, orders, now);
    forall j, k | 0 <= j < k < |outs| && outs[j].Sent? && outs[k].Sent?
      ensures outs[j].order.Key() != outs[k].order.Key()
    {
      assert outs[j].order == orders[j] && outs[k].order == orders[k];
    }
    PassDistinct(outs);
  }

  /**
    One polling cycle as written: the save step runs a pass over the whole
    list of admitted orders, and the cycle runs a second pass over the same
    list right after it.
  */
  function CyclePasses(cfg: Config, table: map<string, real>, orders: seq<Order>, saveNow: int, loopNow: int): ProcessResult
    requires cfg.traderPortfolioSize != 0.0
  {
    var first := Process(cfg, table, orders, saveNow);
    if first.aborted then first
    else
      var second := Process(cfg, table, orders, loopNow);
      ProcessResult(first.requests + second.requests, first.mirrored + second.mirrored, second.aborted)
  }

  /**
    As written, a cycle whose two passes run within the same second submits
    every request of the pass twice: whenever anything is mirrored, some id
    is mirrored twice in one cycle.
  */
  lemma CycleRepeatsPass(cfg: Config, table: map<string, real>, orders: seq<Order>, now: int)
    requires cfg.traderPortfolioSize != 0.0 && !Process(cfg, table, orders, now).aborted
    ensures var p := Process(cfg, table, orders, now);
      CyclePasses(cfg, table, orders, now, now) == ProcessResult(p.requests + p.requests, p.mirrored + p.mirrored, false)
    ensures Process(cfg, table, orders, now).mirrored != [] ==> !KeysDistinct(CyclePasses(cfg, table, orders, now, now).mirrored)
  {
    var m := Process(cfg, table, orders, now).mirrored;
    if m != [] {
      assert (m + m)[0] == (m + m)[|m|];
    }
  }

  /**
    The inputs that show it: one fresh unsettled "Open long" order for a
    listed symbol, with no leverage set, makes a single cycle send the same
    BUY request twice.
  */
  lemma CycleSubmitsTwice(cfg: Config, table: map<string, real>, o: Order, now: int)
    requires cfg.traderPortfolioSize != 0.0 && !cfg.closeOnlyMode && cfg.leverage == 0
    requires o.side == "Open long" && o.profit == 0.0 && o.symbol in table && now - o.at <= 60
    ensures var r := Submission(o.symbol, Buy, None, AdjustToMin(table, o.symbol, cfg.yourPortfolioSize), None);
      CyclePasses(cfg, table, [o], now, now).requests == [r, r]
  {
    var r := Submission(o.symbol, Buy, None, AdjustToMin(table, o.symbol, cfg.yourPortfolioSize), None);
    assert Classify(o.side) == Some(OpenLong);
    assert ShouldOpenPosition(cfg, table, o, now) == Mirror;
    assert Request(cfg, table, o, OpenLong) == r;
    assert Outcomes(cfg, table, [o], now) == [Sent(o, r)];
    assert [Sent(o, r)][..0] == [];
    assert Pass([Sent(o, r)]) == ProcessResult([r], [o], false);
    assert Process(cfg, table, [o], now) == ProcessResult([r], [o], false);
  }

  /** The concatenation of a session's per-cycle runs of admitted orders. */
  function Flatten(batches: seq<seq<Order>>): seq<Order> {
    if batches == [] then [] else Flatten(batches[..|batches| - 1]) + batches[|batches| - 1]
  }

  /**
    The intended schedule: each cycle runs one pass over the orders it has
    just admitted, and no pass over older ones. The result is what the
    session mirrors, cycle after cycle.
  */
  function SessionMirrored(cfg: Config, table: map<string, real>, batches: seq<seq<Order>>, nows: seq<int>): seq<Order>
    requires cfg.traderPortfolioSize != 0.0 && |nows| == |batches|
  {
    if batches == [] then []
    else
      var n := |batches| - 1;
      SessionMirrored(cfg, table, batches[..n], nows[..n]) + Process(cfg, table, batches[n], nows[n]).mirrored
  }

  /**
    Under the intended schedule an order is mirrored at most once over the
    whole session: everything mirrored was admitted, and since the ledger
    never admits an id twice, no id is mirrored twice.
  */
  lemma {:induction false} SessionMirrorsOnce(cfg: Config, table: map<string, real>, batches: seq<seq<Order>>, nows: seq<int>)
    requires cfg.traderPortfolioSize != 0.0 && |nows| == |batches|
    requires KeysDistinct(Flatten(batches))
    ensures var m := SessionMirrored(cfg, table, batches, nows);
      KeysDistinct(m) && forall i :: 0 <= i < |m| ==> m[i] in Flatten(batches)
  {
    if batches != [] {
      var n := |batches| - 1;
      var last := batches[n];
      DistinctParts(Flatten(batches[..n]), last);
      SessionMirrorsOnce(cfg, table, batches[..n], nows[..n]);
      ProcessSpec(cfg, table, last, nows[n]);
      ProcessMirrorsDistinct(cfg, table, last, nows[n]);
      AppendDrawn(SessionMirrored(cfg, table, batches[..n], nows[..n]), Process(cfg, table, last, nows[n]).mirrored,
                  Flatten(batches[..n]), last);
    }
  }

  /**
    Appending a list drawn from `d` with distinct ids to a list drawn from
    `c` with distinct ids keeps the ids distinct, when `c + d` has distinct
    ids; the result is drawn from `c + d`.
  */
  lemma AppendDrawn(a: seq<Order>, b: seq<Order>, c: seq<Order>, d: seq<Order>)
    requires KeysDistinct(a) && KeysDistinct(b) && KeysDistinct(c + d)
    requires forall i :: 0 <= i < |a| ==> a[i] in c
    requires forall j :: 0 <= j < |b| ==> b[j] in d
    ensures KeysDistinct(a + b) && forall i :: 0 <= i < |a + b| ==> (a + b)[i] in c + d
  {
    DistinctParts(c, d);
    KeysWithin(a, c);
    forall j | 0 <= j < |b| ensures b[j].Key() !in KeySet(a) {
      assert b[j] in d;
      var y :| 0 <= y < |d| && d[y] == b[j];
      assert d[y].Key() !in KeySet(c);
    }
    DistinctConcat(a, b);
    forall i | 0 <= i < |a + b| ensures (a + b)[i] in c + d {
      if i < |a| {
        assert (a + b)[i] == a[i];
      } else {
        assert (a + b)[i] == b[i - |a|];
      }
    }
  }

  /** Both parts of a list with distinct ids have distinct ids, and none of them in common. */
  lemma DistinctParts(a: seq<Order>, b: seq<Order>)
    requires KeysDistinct(a + b)
    ensures KeysDistinct(a) && KeysDistinct(b)
    ensures forall j :: 0 <= j < |b| ==> b[j].Key() !in KeySet(a)
  {
    forall i, j | 0 <= i < j < |a| ensures a[i].Key() != a[j].Key() {
      assert a[i] == (a + b)[i] && a[j] == (a + b)[j];
    }
    forall i, j | 0 <= i < j < |b| ensures b[i].Key() != b[j].Key() {
      assert b[i] == (a + b)[|a| + i] && b[j] == (a + b)[|a| + j];
    }
    forall j | 0 <= j < |b| ensures b[j].Key() !in KeySet(a) {
      forall x | 0 <= x < |a| ensures a[x].Key() != b[j].Key() {
        assert (a + b)[x] == a[x] && (a + b)[|a| + j] == b[j];
      }
      KeySetMembers(a, b[j].Key());
    }
  }

  /** The ids of a list drawn from another are among that other's ids. */
  lemma KeysWithin(a: seq<Order>, c: seq<Order>)
    requires forall i :: 0 <= i < |a| ==> a[i] in c
    ensures KeySet(a) <= KeySet(c)
  {
    forall k | k in KeySet(a) ensures k in KeySet(c) {
      KeySetMembers(a, k);
      var x :| 0 <= x < |a| && a[x].Key() == k;
      var w :| 0 <= w < |c| && c[w] == a[x];
      KeySetMembers(c, k);
    }
  }
}
