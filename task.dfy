/**
  The scraping session as an object: the processed-ids set, the list of
  admitted orders, the page counter, the history file's contents and the
  requests sent to the exchange, updated in place by one polling cycle at a
  time. The browser, the clock, the exchange and the file system are
  outside: what they answer comes in as parameters.
*/
module Task {
  import opened Wrappers
  import opened Orders
  import opened Summary
  import opened Decision

  /**
    `find_element_with_retry`: up to `maxAttempts` lookups, stopping at the
    first that succeeds. `lookups[k]` is whether attempt `k` finds the
    element; attempts past the end of `lookups` fail.
  */
  method FindElementWithRetry(lookups: seq<bool>, maxAttempts: nat) returns (found: bool, attempt: nat)
    ensures found <==> exists k :: 0 <= k < maxAttempts && k < |lookups| && lookups[k]
    ensures found ==> attempt < maxAttempts && attempt < |lookups| && lookups[attempt]
    ensures found ==> forall k :: 0 <= k < attempt ==> !lookups[k]
  {
    attempt := 0;
    while attempt < maxAttempts
      invariant attempt <= maxAttempts
      invariant forall k :: 0 <= k < attempt ==> !(k < |lookups| && lookups[k])
    {
      if attempt < |lookups| && lookups[attempt] {
        return true, attempt;
      }
      attempt := attempt + 1;
    }
    return false, attempt;
  }

  /** The number of lookups of the next-page button before the cycle gives up. */
  const MaxAttempts: nat := 3

  /** How a polling cycle ended: no new data (back to page 1), carried on, or the loop stopped. */
  datatype CycleOutcome = NoNewData | Continued | Stopped

  class ScrapeTask {
    const config: Config
    /** The exchange's minimum order size per symbol, fetched once at start-up. */
    const minOrderQuantity: map<string, real>
    var processedOrders: set<OrderKey>
    var allOrders: seq<Order>
    var currentPage: int
    var running: bool
    /** The entries last written to the history file. */
    var historyFile: seq<Entry>
    /** Whether a five-minute deletion timer has been started (the source's `self.timer is not None`). */
    var timerArmed: bool
    /** The requests sent to the exchange so far, oldest first. */
    var submissions: seq<Submission>
    /** Every order ever admitted, including those since cleared from `allOrders`. */
    ghost var admitted: seq<Order>

    /**
      The session invariant: each admitted id is processed and no id is
      admitted twice, the current list is the latest run of admitted orders,
      and pages count from 1.
    */
    ghost predicate Valid()
      reads this
    {
      && config.traderPortfolioSize != 0.0
      && currentPage >= 1
      && KeysDistinct(admitted)
      && KeySet(admitted) == processedOrders
      && |allOrders| <= |admitted|
      && allOrders == admitted[|admitted| - |allOrders|..]
    }

    function CurrentLedger(): Ledger
      reads this
    {
      Ledger(processedOrders, allOrders)
    }

    /**
      A new session: nothing processed, page 1, both modes off. The
      minimum-size table is what the exchange reported (possibly nothing).
    */
    constructor (leverage: int, traderPortfolioSize: real, yourPortfolioSize: real, minOrderQuantity: map<string, real>)
      requires traderPortfolioSize != 0.0
      ensures config == Config(leverage, traderPortfolioSize, yourPortfolioSize, false, false)
      ensures this.minOrderQuantity == minOrderQuantity
      ensures processedOrders == {} && allOrders == [] && currentPage == 1 && !running
      ensures historyFile == [] && !timerArmed && submissions == []
      ensures Valid()
    {
      config := Config(leverage, traderPortfolioSize, yourPortfolioSize, false, false);
      this.minOrderQuantity := minOrderQuantity;
      processedOrders := {};
      allOrders := [];
      currentPage := 1;
      running := false;
      historyFile := [];
      timerArmed := false;
      submissions := [];
      admitted := [];
    }

    /**
      The admission block of one cycle: read the rows of the page in order
      and admit every in-window order whose id is new. The outcome is the
      ledger scan of the rows; a malformed row ends the block, keeping what
      the earlier rows admitted. Processed ids are never forgotten.
    */
    method ScrapePage(rows: seq<Row>, now: int) returns (found: bool, aborted: bool)
      requires Valid()
      modifies this
      ensures Valid()
      ensures var r := Scan(old(CurrentLedger()), rows, now);
        CurrentLedger() == r.ledger && found == r.found && aborted == r.aborted
      ensures old(processedOrders) <= processedOrders
      ensures currentPage == old(currentPage) && running == old(running) && historyFile == old(historyFile)
      ensures timerArmed == old(timerArmed) && submissions == old(submissions)
    {
      ghost var l0 := CurrentLedger();
      ghost var rds := Readings(rows, now);
      found, aborted := false, false;
      var i := 0;
      while i < |rows| && !aborted
        invariant 0 <= i <= |rows|
        invariant Valid()
        invariant var r := ScanReadings(l0, rds[..i]);
          CurrentLedger() == r.ledger && found == r.found && aborted == r.aborted
        invariant currentPage == old(currentPage) && running == old(running) && historyFile == old(historyFile)
        invariant timerArmed == old(timerArmed) && submissions == old(submissions)
      {
        found, aborted := ScanRow(rows, i, now, l0, found);
        i := i + 1;
      }
      if aborted {
        AbortedScanStops(l0, rds, i);
      } else {
        assert rds[..|rds|] == rds;
      }
      ScanExtends(l0, rows, now);
    }

    /** Row `i` of the admission block: the scan of the rows before it, extended by one row. */
    method ScanRow(rows: seq<Row>, i: nat, now: int, ghost l0: Ledger, found: bool) returns (found': bool, bad: bool)
      requires Valid() && i < |rows|
      requires var r := ScanReadings(l0, Readings(rows, now)[..i]);
        CurrentLedger() == r.ledger && found == r.found && !r.aborted
      modifies this
      ensures Valid()
      ensures var r := ScanReadings(l0, Readings(rows, now)[..i + 1]);
        CurrentLedger() == r.ledger && found' == r.found && bad == r.aborted
      ensures currentPage == old(currentPage) && running == old(running) && historyFile == old(historyFile)
      ensures timerArmed == old(timerArmed) && submissions == old(submissions)
    {
      ghost var rds := Readings(rows, now);
      ScanPrefixStep(l0, rds, i);
      var rd := ReadRow(rows[i], now);
      assert rd == rds[i];
      var admittedNow;
      admittedNow, bad := ApplyReading(rd, ScanReadings(l0, rds[..i]));
      found' := found || admittedNow;
    }

    /**
      One row of the admission block, given the scan so far: a malformed
      row is reported; a read order with a new id is admitted.
    */
    method ApplyReading(rd: RowReading, ghost p: ScanResult) returns (admittedNow: bool, bad: bool)
      requires Valid() && p.ledger == CurrentLedger() && !p.aborted
      modifies this
      ensures Valid()
      ensures var q := Step(p, rd);
        CurrentLedger() == q.ledger && bad == q.aborted && q.found == (p.found || admittedNow)
      ensures currentPage == old(currentPage) && running == old(running) && historyFile == old(historyFile)
      ensures timerArmed == old(timerArmed) && submissions == old(submissions)
    {
      admittedNow, bad := false, false;
      match rd {
        case OutsideWindow =>
        case Malformed =>
          bad := true;
        case Read(o) =>
          if o.Key() !in processedOrders {
            AdmitOrder(o);
            admittedNow := true;
          }
      }
    }

    /** Record a new id and append its order. */
    method AdmitOrder(o: Order)
      requires Valid() && o.Key() !in processedOrders
      modifies this
      ensures Valid()
      ensures CurrentLedger() == Admit(old(CurrentLedger()), o) && admitted == old(admitted) + [o]
      ensures currentPage == old(currentPage) && running == old(running) && historyFile == old(historyFile)
      ensures timerArmed == old(timerArmed) && submissions == old(submissions)
    {
      KeySetMembers(admitted, o.Key());
      assert (admitted + [o])[..|admitted|] == admitted;
      processedOrders := processedOrders + {o.Key()};
      allOrders := allOrders + [o];
      admitted := admitted + [o];
    }

    /** `go_to_first_page`: the counter returns to 1 when the first page was reached. */
    method GoToFirstPage(reached: bool)
      requires Valid()
      modifies this
      ensures Valid()
      ensures currentPage == if reached then 1 else old(currentPage)
      ensures processedOrders == old(processedOrders) && allOrders == old(allOrders) && running == old(running)
      ensures historyFile == old(historyFile) && timerArmed == old(timerArmed) && submissions == old(submissions)
      ensures admitted == old(admitted)
    {
      if reached {
        currentPage := 1;
      }
    }

    /** Send one request to the exchange; its answer, or failure, changes nothing here. */
    method Submit(o: Order, side: Side)
      requires config.traderPortfolioSize != 0.0
      modifies this
      ensures submissions == old(submissions) + [Request(config, minOrderQuantity, o, side)]
      ensures processedOrders == old(processedOrders) && allOrders == old(allOrders) && currentPage == old(currentPage)
      ensures running == old(running) && historyFile == old(historyFile) && timerArmed == old(timerArmed)
      ensures admitted == old(admitted)
    {
      submissions := submissions + [Request(config, minOrderQuantity, o, side)];
    }

    /** One order of a pass, after the pass so far `p`: decide, then dispatch on the side label. */
    method ProcessOne(o: Order, now: int, ghost p: ProcessResult, ghost s0: seq<Submission>) returns (stop: bool)
      requires config.traderPortfolioSize != 0.0
      requires !p.aborted && submissions == s0 + p.requests
      modifies this
      ensures processedOrders == old(processedOrders) && allOrders == old(allOrders) && currentPage == old(currentPage)
      ensures running == old(running) && historyFile == old(historyFile) && timerArmed == old(timerArmed)
      ensures admitted == old(admitted)
      ensures var q := PassStep(p, OutcomeOf(config, minOrderQuantity, o, now));
        submissions == s0 + q.requests && stop == q.aborted
    {
      var verdict := ShouldOpenPosition(config, minOrderQuantity, o, now);
      if verdict == MissingMinimum {
        return true;
      }
      if verdict == Mirror {
        match Classify(o.side) {
          case Some(side) => Submit(o, side);
          case None =>
        }
      }
      return false;
    }

    /**
      `process_orders`: one pass over the whole current list, submitting
      the request of every order the decision mirrors. The pass is the specification `Process`;
      a missing minimum stops it, with the requests already sent kept.
    */
    method ProcessOrders(now: int) returns (aborted: bool)
      requires Valid()
      modifies this
      ensures Valid()
      ensures processedOrders == old(processedOrders) && allOrders == old(allOrders) && currentPage == old(currentPage)
      ensures running == old(running) && historyFile == old(historyFile) && timerArmed == old(timerArmed)
      ensures admitted == old(admitted)
      ensures var p := Process(config, minOrderQuantity, allOrders, now);
        submissions == old(submissions) + p.requests && aborted == p.aborted
    {
      aborted := RunPass(allOrders, now);
    }

    /** The loop of a pass over `orders`, one order at a time. */
    method RunPass(orders: seq<Order>, now: int) returns (aborted: bool)
      requires config.traderPortfolioSize != 0.0
      modifies this
      ensures processedOrders == old(processedOrders) && allOrders == old(allOrders) && currentPage == old(currentPage)
      ensures running == old(running) && historyFile == old(historyFile) && timerArmed == old(timerArmed)
      ensures admitted == old(admitted)
      ensures var p := Process(config, minOrderQuantity, orders, now);
        submissions == old(submissions) + p.requests && aborted == p.aborted
    {
      ghost var outs := Outcomes(config, minOrderQuantity, orders, now);
      aborted := false;
      var k := 0;
      while k < |orders| && !aborted
        invariant k <= |orders| == |outs|
        invariant var p := Pass(outs[..k]);
          submissions == old(submissions) + p.requests && aborted == p.aborted
        invariant processedOrders == old(processedOrders) && allOrders == old(allOrders) && currentPage == old(currentPage)
        invariant running == old(running) && historyFile == old(historyFile) && timerArmed == old(timerArmed)
        invariant admitted == old(admitted)
      {
        assert outs[k] == OutcomeOf(config, minOrderQuantity, orders[k], now);
        PassPrefixStep(outs, k);
        aborted := ProcessOne(orders[k], now, Pass(outs[..k]), old(submissions));
        k := k + 1;
      }
      if aborted {
        AbortedPassStops(outs, k);
      } else {
        assert outs[..|outs|] == outs;
      }
    }

    /**
      `save_orders_to_file`: write the summary of the current list (which,
      since no id is listed twice, is one entry per order with its own
      figures), run a pass, and re-arm the deletion timer unless the pass
      failed.
    */
    method SaveOrdersToFile(now: int) returns (aborted: bool)
      requires Valid()
      modifies this
      ensures Valid()
      ensures EntriesOf(historyFile, allOrders)
      ensures var p := Process(config, minOrderQuantity, allOrders, now);
        submissions == old(submissions) + p.requests && aborted == p.aborted
      ensures timerArmed == (old(timerArmed) || !aborted)
      ensures processedOrders == old(processedOrders) && allOrders == old(allOrders) && currentPage == old(currentPage)
      ensures running == old(running) && admitted == old(admitted)
    {
      var entries := SummarizeOrders(allOrders);
      DistinctSuffix(admitted, |admitted| - |allOrders|);
      SummaryOfDistinct(allOrders);
      historyFile := entries;
      aborted := ProcessOrders(now);
      if !aborted {
        timerArmed := true;
      }
    }

    /**
      `delete_orders_from_file`, run by the timer: the list and the file are
      emptied; the processed ids stay, so the deleted orders are never
      admitted again. The timer stays recorded as started, as the source
      keeps its timer object after it fires.
    */
    method DeleteOrdersFromFile()
      requires Valid()
      modifies this
      ensures Valid()
      ensures allOrders == [] && historyFile == []
      ensures processedOrders == old(processedOrders) && currentPage == old(currentPage) && running == old(running)
      ensures submissions == old(submissions) && timerArmed == old(timerArmed) && admitted == old(admitted)
    {
      allOrders := [];
      historyFile := [];
    }

    /**
      `start_scraping`, after the browser has been set up: the session is
      marked running, so the polling cycles that follow do their work.
    */
    method StartScraping()
      requires Valid()
      modifies this
      ensures Valid()
      ensures running
      ensures processedOrders == old(processedOrders) && allOrders == old(allOrders) && currentPage == old(currentPage)
      ensures historyFile == old(historyFile) && timerArmed == old(timerArmed) && submissions == old(submissions)
      ensures admitted == old(admitted)
    {
      running := true;
    }

    /** The stop button: the loop ends before its next cycle. */
    method Stop()
      requires Valid()
      modifies this
      ensures Valid()
      ensures !running
      ensures processedOrders == old(processedOrders) && allOrders == old(allOrders) && currentPage == old(currentPage)
      ensures historyFile == old(historyFile) && timerArmed == old(timerArmed) && submissions == old(submissions)
      ensures admitted == old(admitted)
    {
      running := false;
    }

    /**
      One cycle of the polling loop. A session that is not running stops at
      once. Otherwise the admission block runs: a malformed row stops the
      loop; with no new data the session goes back to page 1 and the cycle
      ends; otherwise the cycle goes on as `AdvanceAndProcess` says. `now`
      is the clock of the admission block, `saveNow` and `loopNow` the clock
      during the two passes.
    */
    method Cycle(rows: seq<Row>, now: int, nextLookups: seq<bool>, hasNextPage: bool, firstPageReached: bool,
                 saveNow: int, loopNow: int) returns (outcome: CycleOutcome)
      requires Valid()
      modifies this
      ensures Valid()
      ensures running == old(running) && old(processedOrders) <= processedOrders
      ensures !old(running) ==>
        && outcome == Stopped && CurrentLedger() == old(CurrentLedger()) && currentPage == old(currentPage)
        && historyFile == old(historyFile) && timerArmed == old(timerArmed) && submissions == old(submissions)
      ensures old(running) ==>
        var r := Scan(old(CurrentLedger()), rows, now);
        && CurrentLedger() == r.ledger
        && (r.aborted || !r.found ==>
              historyFile == old(historyFile) && timerArmed == old(timerArmed) && submissions == old(submissions))
        && (r.aborted ==> outcome == Stopped && currentPage == old(currentPage))
        && (!r.aborted && !r.found ==>
              outcome == NoNewData && currentPage == if firstPageReached then 1 else old(currentPage))
      ensures var r := Scan(old(CurrentLedger()), rows, now);
        old(running) && !r.aborted && r.found ==>
          Advanced(nextLookups, hasNextPage, firstPageReached, saveNow, loopNow, old(currentPage),
                   old(historyFile), old(timerArmed), old(submissions), outcome)
    {
      if !running {
        return Stopped;
      }
      var found, aborted := ScrapePage(rows, now);
      if aborted {
        outcome := Stopped;
      } else if !found {
        GoToFirstPage(firstPageReached);
        outcome := NoNewData;
      } else {
        outcome := AdvanceAndProcess(nextLookups, hasNextPage, firstPageReached, saveNow, loopNow);
      }
    }

    /**
      The state after the rest of a cycle that admitted something, given the
      page counter, file, timer flag and requests before it. When none of the
      first three lookups finds the next-page button, the loop stops and
      nothing else changes. Otherwise the counter moves on a page (back to 1
      when there is no page after it and the first page was reached); the
      file holds one entry per listed order; both passes of `CyclePasses`
      are submitted; the timer is started unless the first pass failed; and
      the loop carries on exactly when neither pass failed.
    */
    ghost predicate Advanced(nextLookups: seq<bool>, hasNextPage: bool, firstPageReached: bool, saveNow: int, loopNow: int,
                             page0: int, file0: seq<Entry>, timer0: bool, sent0: seq<Submission>, outcome: CycleOutcome)
      requires config.traderPortfolioSize != 0.0
      reads this
    {
      var buttonFound := exists k :: 0 <= k < MaxAttempts && k < |nextLookups| && nextLookups[k];
      var c := CyclePasses(config, minOrderQuantity, allOrders, saveNow, loopNow);
      && (!buttonFound ==>
            outcome == Stopped && currentPage == page0 && historyFile == file0 && timerArmed == timer0 && submissions == sent0)
      && (buttonFound ==>
            && currentPage == (if !hasNextPage && firstPageReached then 1 else page0 + 1)
            && EntriesOf(historyFile, allOrders)
            && timerArmed == (timer0 || !Process(config, minOrderQuantity, allOrders, saveNow).aborted)
            && submissions == sent0 + c.requests
            && outcome == (if c.aborted then Stopped else Continued))
    }

    /**
      The rest of a cycle that admitted something: find the next-page
      button (three failed lookups stop the loop), move on a page, save the
      file with its pass, then run the second pass. The ledger and the
      running flag do not change.
    */
    method AdvanceAndProcess(nextLookups: seq<bool>, hasNextPage: bool, firstPageReached: bool,
                             saveNow: int, loopNow: int) returns (outcome: CycleOutcome)
      requires Valid()
      modifies this
      ensures Valid()
      ensures processedOrders == old(processedOrders) && allOrders == old(allOrders)
      ensures running == old(running) && admitted == old(admitted)
      ensures Advanced(nextLookups, hasNextPage, firstPageReached, saveNow, loopNow, old(currentPage),
                       old(historyFile), old(timerArmed), old(submissions), outcome)
    {
      var buttonFound, _ := FindElementWithRetry(nextLookups, MaxAttempts);
      if !buttonFound {
        return Stopped;
      }
      NextPage(hasNextPage, firstPageReached);
      var aborted := SaveAndProcess(saveNow, loopNow);
      outcome := if aborted then Stopped else Continued;
    }

    /** Move on a page; when there is no page after it, go back to the first page. */
    method NextPage(hasNextPage: bool, firstPageReached: bool)
      requires Valid()
      modifies this
      ensures Valid()
      ensures currentPage == if !hasNextPage && firstPageReached then 1 else old(currentPage) + 1
      ensures processedOrders == old(processedOrders) && allOrders == old(allOrders) && running == old(running)
      ensures historyFile == old(historyFile) && timerArmed == old(timerArmed) && submissions == old(submissions)
      ensures admitted == old(admitted)
    {
      currentPage := currentPage + 1;
      if !hasNextPage {
        GoToFirstPage(firstPageReached);
      }
    }

    /**
      The save step and the second pass: together they submit both passes
      of `CyclePasses`, and fail as it does.
    */
    method SaveAndProcess(saveNow: int, loopNow: int) returns (aborted: bool)
      requires Valid()
      modifies this
      ensures Valid()
      ensures EntriesOf(historyFile, allOrders)
      ensures timerArmed == (old(timerArmed) || !Process(config, minOrderQuantity, allOrders, saveNow).aborted)
      ensures var c := CyclePasses(config, minOrderQuantity, allOrders, saveNow, loopNow);
        submissions == old(submissions) + c.requests && aborted == c.aborted
      ensures processedOrders == old(processedOrders) && allOrders == old(allOrders) && currentPage == old(currentPage)
      ensures running == old(running) && admitted == old(admitted)
    {
      ghost var s0 := submissions;
      aborted := SaveOrdersToFile(saveNow);
      if !aborted {
        ghost var s1 := submissions;
        aborted := ProcessOrders(loopNow);
        SecondPassAppends(s0, s1, submissions, saveNow, loopNow);
      }
    }

    /**
      When the save step's pass did not fail, the requests after the second
      pass are those before the save step followed by both passes of the cycle.
    */
    lemma SecondPassAppends(s0: seq<Submission>, s1: seq<Submission>, s2: seq<Submission>, saveNow: int, loopNow: int)
      requires config.traderPortfolioSize != 0.0
      requires var first := Process(config, minOrderQuantity, allOrders, saveNow);
        !first.aborted && s1 == s0 + first.requests
      requires s2 == s1 + Process(config, minOrderQuantity, allOrders, loopNow).requests
      ensures var c := CyclePasses(config, minOrderQuantity, allOrders, saveNow, loopNow);
        s2 == s0 + c.requests && c.aborted == Process(config, minOrderQuantity, allOrders, loopNow).aborted
    {
      assert s0 + Process(config, minOrderQuantity, allOrders, saveNow).requests + Process(config, minOrderQuantity, allOrders, loopNow).requests
        == s0 + (Process(config, minOrderQuantity, allOrders, saveNow).requests + Process(config, minOrderQuantity, allOrders, loopNow).requests);
    }
  }
}
