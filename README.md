# Trade-mirroring scraper: ingestion, deduplication and decision core

This project is a Dafny model of the core of `ScrapeTask` in `main.py`.
`ScrapeTask` runs a polling loop that reads a trader's public trade-history table page
by page. It keeps each order once, in a ledger of processed ids plus the list
of admitted orders. It writes a per-id summary of that list to a history
file, then decides for each admitted order whether to mirror it on the
user's exchange account, and with which market-order request.

The model is split into modules that follow the program's own layers:

- `Text` covers the cell clean-up: Python's `strip`, `str.replace(pat, '')`,
  the `[^\d.]` filter and the ` ?Perpetual` removal.
- `Numbers` is `float()` on the texts the clean-up can produce, whitespace
  around the number included.
- `Orders` holds the table row and the order. It also holds the order id, the
  two-minute window, the ledger and its admission rule, and the admission
  block of one cycle (`Scan`). Expiry of the list is here too.
- `Summary` is `summarize_orders`: a dictionary loop, specified by first
  occurrences and per-id sums.
- `Decision` covers the side-label dispatch, sizing, the minimum-quantity
  adjustment, `should_open_position`, the four position requests and a pass
  of `process_orders`. Its specification functions are `Process` and
  `CyclePasses`.
- `Task` is the session itself: a `class ScrapeTask` whose fields (the
  processed ids, the list, the page counter, the history file, the timer flag
  and the requests sent) are updated in place, one polling cycle at a time.
  Each method is proved against the specification functions above. The class
  invariant says that no id is ever admitted twice.

The clock, the browser, the exchange and the file system are parameters.
`now` is an instant in whole seconds. A row arrives as its six cell texts plus
the instant its time text denotes (`None` when the text is not in
`%Y-%m-%d %H:%M:%S` form). The minimum-quantity table is a map given at
construction. A request sent to the exchange is recorded as a `Submission`,
whatever the exchange answers. A lookup of the next-page button is a boolean
per attempt.

The model follows the code as written; in particular:

- Close-only mode blocks every side, not only the opening sides
  (`main.py:259-260`).
- A cell that does not parse (the time, a price, a quantity or a profit)
  raises out of the polling loop. The model therefore stops the session
  (`Orders.Scan` aborts, `Cycle` returns `Stopped`); it does not drop the row.
- When three lookups of the next-page button fail, the loop ends; there is no
  return to the first page (`main.py:181-191`, `main.py:173-174`).
- A symbol missing from the minimum table raises a `KeyError` in
  `should_open_position`. That ends the pass and the loop (`Verdict.MissingMinimum`).
- When the symbol is in the table, the minimum check always holds, because
  the quantity was first raised to that minimum.
- The third dispatch test repeats `Buy/long`, which the first test already
  takes. "Buy/Long" (capital L) closes a short. The `Unsupported order side`
  branch of `process_orders` is never reached, because `should_open_position`
  has already refused unknown labels.
- Aggregation never merges two orders. The ledger admits each
  (time, symbol, side, price) once, and the summary groups by that same tuple.
  Two rows that differ only in quantity therefore give one order, not a
  summed one.

## Model

| member | source | states |
|---|---|---|
| Text.Strip | main.py:118-128 | the result is the input with a run of whitespace removed at each end, and it neither starts nor ends with whitespace |
| Text.StripIdempotent | main.py:209-211 | stripping an already stripped text changes nothing |
| Text.StripKeepsNonSpace | main.py:118-128 | stripping keeps the count of every non-whitespace character |
| Text.RemoveAll | main.py:130-134 | `str.replace(pat, '')`: the result is never longer than the input; which characters survive, and in what order, is stated by `RemoveAllKeeps`, `RemoveCharDrops`, `RemoveAllIdentity`, `RemoveCharConcat` and `RemoveAllKeepsPrefix` |
| Text.RemoveAllIdentity | main.py:130-134 | only whole occurrences are removed: a text in which `pat` occurs nowhere comes back unchanged |
| Text.RemoveCharConcat | main.py:130-134 | removing `,` works piece by piece: the removal of a concatenation is the concatenation of the removals, so the surviving characters keep their order |
| Text.RemoveAllKeepsPrefix | main.py:133-133 | a prefix without the first letter of `pat` passes through `replace(pat, '')` untouched, in front of the removal of the rest |
| Text.RemoveAllKeeps | main.py:130-134 | `replace(pat, '')` never removes a character that is not in `pat` |
| Text.RemoveCharDrops | main.py:130-134 | removing `,` leaves no comma and keeps the count of every other character |
| Text.KeepDigitsAndDots | main.py:130-131 | the `[^\d.]` filter leaves only digits and dots, and keeps every digit and dot of the input |
| Text.KeepDigitsAndDotsConcat | main.py:130-131 | the filter works character by character: filtering a concatenation concatenates the filtered parts, so the kept digits and dots stay in input order |
| Text.CleanNumeric | main.py:130-132 | no contract of its own; `CleanNumericIsDigitFilter` states what it computes |
| Text.CleanNumericIsDigitFilter | main.py:130-132 | the price and quantity clean-up equals the digit filter alone: the comma removal before it is redundant |
| Text.CleanProfitKeeps | main.py:133-134 | the profit clean-up keeps every character other than the letters of `USDT`, commas and whitespace (so a minus sign survives), and leaves no comma |
| Text.CleanProfit | main.py:133-134 | no contract of its own; `CleanProfitKeeps` states what it keeps and removes, `CleanProfitOfAmount` what it leaves of a cell `amount USDT` |
| Text.CleanProfitOfAmount | main.py:133-134 | the profit clean-up of an amount followed by " USDT" gives back exactly the amount, minus sign, digits and dot in place, whenever the amount has no `U`, no comma and no whitespace at its ends |
| Text.RemovePerpetual | main.py:210-210 | the marker removal never lengthens the label; `RemovePerpetualIdentity`, `RemovePerpetualSuffix` and `RemovePerpetualBareSuffix` state what it does |
| Text.RemovePerpetualIdentity | main.py:209-211 | a label without `Perpetual` passes through the marker removal unchanged |
| Text.RemovePerpetualSuffix | main.py:209-210 | the marker removal turns `BASE Perpetual` into `BASE` |
| Text.RemovePerpetualBareSuffix | main.py:210-210 | the optional space of the pattern: `BASEPerpetual` also becomes `BASE`, for a base without a marker that does not end in a space |
| Text.NormaliseSymbol | main.py:209-211 | no contract of its own; `NormaliseMarkedSymbol` states it |
| Text.NormaliseMarkedSymbol | main.py:209-211 | the symbol clean-up turns `BASE Perpetual` into the stripped `BASE` |
| Numbers.ParseDecimal | main.py:130-134 | `float()` of a text without surrounding whitespace; no contract of its own, `ParseDecimalAccepts` states which texts it accepts, `ParseNatText`, `ParseFractionText`, `ParseNegatedFractionText` and `ParseZeros` what it returns |
| Numbers.ParseDecimalAccepts | main.py:130-134 | for every text: `float()` accepts it exactly when, after an optional `-` or `+`, it is only digits with at most one dot and some digit; anything else ("5 USD", "1.2.3", ".") is refused |
| Numbers.ParseUnsignedAccepts | main.py:130-134 | the unsigned part is accepted exactly when it is digits with at most one dot and some digit |
| Numbers.ParseFloat | main.py:130-134 | Python's `float()`: whitespace at either end is ignored and the rest goes to `ParseDecimal`; no contract of its own, `ParseFloatIgnoresSpace` and `ParseFloatOfDigitsAndDots` state it |
| Numbers.ParseFloatIgnoresSpace | main.py:133-134 | `float()` ignores whitespace before and after the number: " 5" and "5 " parse as 5 |
| Numbers.ParseFloatOfDigitsAndDots | main.py:130-132 | on the price and quantity texts, which are only digits and dots, `float()` is `ParseDecimal` |
| Numbers.ParseNatText | main.py:130-134 | `float()` of a natural number's decimal text, with or without a minus sign, gives that number back |
| Numbers.ParseFractionText | main.py:130-134 | `float()` of `a.b`, with `a` and `b` natural numbers written out, is `a` plus `b` moved as many places right of the point as `b` has digits |
| Numbers.ParseNegatedFractionText | main.py:133-134 | `float()` of `-a.b` is the negation of the value of `a.b`, so a loss keeps its sign |
| Numbers.DecimalValueIsDivision | main.py:130-134 | the value of a fraction part of `n` digits is that part divided by `10^n` |
| Numbers.ParseZeros | main.py:262-262 | a profit of zeros with or without a dot ("0", "0.00", ".0") parses as 0, the value the mirror decision requires |
| Numbers.ProfitCellOfNat | main.py:128-134 | a profit cell `n USDT` or `-n USDT` is read as `n` or `-n`: clean-up and `float()` together give back the amount shown |
| Numbers.ParseDigitsAndDots | main.py:130-132 | `float()` of a digits-and-dots text succeeds exactly when it has at most one dot and some digit, and then it is not negative |
| Orders.MinuteStart | main.py:111-120 | the minute truncation is a multiple of 60 at most 59 seconds before the instant |
| Orders.WindowBounds | main.py:119-123 | the two-minute window of truncated times admits every row at most 120 s from now and nothing 180 s or more away |
| Orders.ReadRow | main.py:118-136 | a time that does not parse makes the row malformed, a row outside the window is skipped, and a read order lies in the window with a non-negative price and quantity |
| Orders.ReadRowInWindow | main.py:123-136 | a row whose time lies in the window is read from its cells, exactly as `ReadCells` reads it |
| Orders.ReadCells | main.py:124-136 | reading the cells of an in-window row never skips it; a read order carries the row's instant and a non-negative price and quantity |
| Orders.ReadCellsAccepts | main.py:124-134 | an in-window row is read exactly when each cleaned price and quantity text has at most one dot and a digit and `float()` accepts the cleaned profit |
| Orders.ReadCellsFields | main.py:124-136 | a read order carries the stripped time and side, the normalised symbol, and the parsed price, quantity and profit, sign included |
| Orders.Admit | main.py:138-151 | a known id changes nothing; a new id is recorded and its order appended once, at the end |
| Orders.ExtendsValid | main.py:138-151 | a ledger with distinct, recorded ids keeps those properties after any run of admissions |
| Orders.AbortedScanStops | main.py:118-134 | once a row is malformed, the rows after it change nothing |
| Orders.Scan | main.py:118-151 | the admission block of one cycle; no contract of its own, `AbortedScanStops`, `ScanExtends`, `ScanProvenance`, `ScanValid`, `ScanRecordsEveryRow` and `RescanAdmitsNothing` state it |
| Orders.ScanProvenance | main.py:118-151 | the list after a scan is the old list followed by the orders read from some of the page's rows, in row order: the j-th appended order is `ReadRow` of a row whose index grows with j |
| Orders.ScanExtends | main.py:118-151 | a page scan only appends new, distinct ids and records exactly them, and it reports new data exactly when something was appended |
| Orders.ScanValid | main.py:118-151 | a valid ledger is valid after any scan |
| Orders.ScanRecordsEveryRow | main.py:118-151 | after a scan that did not abort, no row was malformed and the id of every read row is recorded |
| Orders.RescanAdmitsNothing | main.py:137-139 | reading the same page again at the same time admits nothing and changes nothing |
| Orders.Expire | main.py:226-227 | expiry empties the list, keeps every processed id and leaves a valid ledger |
| Orders.ExpiredIdsStayRejected | main.py:137-139 | no order admitted after expiry has an id processed before it |
| Summary.FirstKeys | main.py:232-240 | the dictionary's keys in insertion order; no contract of its own, `FirstKeysSpec` states it |
| Summary.SumQuantity | main.py:234-236 | the summed quantity of one key; no contract of its own, `SummarizeOrders` and `SummaryOfDistinct` state it |
| Summary.SumProfit | main.py:234-237 | the summed profit of one key; no contract of its own, `SummarizeOrders` and `SummaryOfDistinct` state it |
| Summary.FirstKeysSpec | main.py:232-240 | the summary keys are exactly the ids of the orders, none twice, in order of first occurrence |
| Summary.SummarizeOrders | main.py:232-240 | the dictionary loop yields one entry per key in that order, with the summed quantity and summed profit of that key |
| Summary.SummaryOfDistinct | main.py:214-214 | for a list with distinct ids, such as the session's list, the summary is one entry per order with its own figures |
| Decision.Classify | main.py:245-252 | the side-label dispatch; no contract of its own, `ClassifyIsTable` states it |
| Decision.ClassifyIsTable | main.py:245-252 | the first-match dispatch is a table of seven labels, and only `Open short` opens a short |
| Decision.BaseQuantity | main.py:270-270 | the size `(T*Y)/T` is the user's portfolio size |
| Decision.SideQuantity | main.py:320-320 | closing sides get 1.05 times the base size, opening sides the base size |
| Decision.AdjustToMin | main.py:296-301 | for a listed symbol the result is the larger of the quantity and the minimum; otherwise the quantity itself |
| Decision.MeetsMinimum | main.py:273-291 | the minimum check fails on a missing symbol and otherwise always holds |
| Decision.ShouldOpenPosition | main.py:258-294 | mirror exactly when close-only is off, the profit is 0, the order is at most 60 s old, the label is recognised and the symbol is listed; a missing-symbol failure exactly when the same holds with the symbol unlisted |
| Decision.ReverseCopyIrrelevant | main.py:271-294 | flipping the reverse-copy flag never changes the decision |
| Decision.Request | main.py:303-351 | the request of one side; no contract of its own, `RequestShape` states it |
| Decision.RequestShape | main.py:303-351 | BUY for an opening long or closing short and SELL otherwise; size max(side size, minimum); leverage only on opening sides when set; position side present only on a leveraged opening long, and then `LONG` |
| Decision.OutcomeOf | main.py:244-256 | an order is sent exactly when the decision says mirror, and fails exactly on a missing minimum; what is sent is the request for its own side, never below the minimum |
| Decision.PassSpec | main.py:243-256 | a pass emits one request per mirrored order, each from a sent outcome, and aborts exactly when some outcome failed |
| Decision.Process | main.py:242-256 | one pass of `process_orders`; no contract of its own, `ProcessSpec` and `ProcessComplete` state it |
| Decision.Qualifying | main.py:243-245 | the orders the decision mirrors, in list order: an order is in it exactly when it is in the list and its verdict is mirror |
| Decision.FirstFailure | main.py:243-245 | the position of the first order whose symbol is missing from the minimum table, or the list's length: no earlier order has a missing minimum, and the order there has one |
| Decision.AbortedPassStops | main.py:243-256 | after a failure the rest of the list changes nothing |
| Decision.ProcessSpec | main.py:242-256 | every request of a pass is for a listed order the decision mirrors, for its own side, never below the minimum; the pass aborts exactly when some order hits a missing minimum |
| Decision.ProcessMirrorsQualifying | main.py:243-256 | a pass mirrors exactly the qualifying orders before the first missing minimum, in list order, and aborts exactly when there is such an order |
| Decision.ProcessComplete | main.py:243-256 | the whole pass: exactly the qualifying orders before the first missing minimum are mirrored, in order, each with the request for its own side; the pass aborts exactly when a missing minimum is reached |
| Decision.CloseOnlySubmitsNothing | main.py:259-260 | in close-only mode a pass submits nothing and never fails |
| Decision.ProcessMirrorsDistinct | main.py:243-256 | a pass over a list with distinct ids mirrors each id at most once |
| Decision.CyclePasses | main.py:170-171 | the two passes of one cycle; no contract of its own, `CycleRepeatsPass` states it |
| Decision.CycleRepeatsPass | main.py:170-171 | as written, a cycle's two passes at the same instant submit every request twice, and any mirrored id is mirrored twice |
| Decision.CycleSubmitsTwice | main.py:170-171 | one fresh unsettled `Open long` order for a listed symbol makes one cycle send the same BUY request twice |
| Decision.SessionMirrorsOnce | main.py:243-243 | when each cycle passes only over the orders it admitted, nothing is mirrored that was not admitted, and no id is mirrored twice in a session |
| Task.FindElementWithRetry | main.py:181-191 | the lookup succeeds exactly when one of the first `maxAttempts` attempts (3 in a cycle) does, and it reports the first such attempt |
| Task.ScrapeTask.constructor | main.py:19-38 | a new session: nothing processed, page 1, both modes off, no file, no timer, nothing sent |
| Task.ScrapeTask.StartScraping | main.py:76-83 | starting the session sets it running and changes nothing else |
| Task.ScrapeTask.ScrapePage | main.py:113-151 | the ledger after the admission block is `Scan` of the old ledger; it reports new data and the abort as `Scan` does; processed ids only grow; the session invariant holds |
| Task.ScrapeTask.ScanRow | main.py:118-151 | one row extends the scan of the rows before it by one reading |
| Task.ScrapeTask.ApplyReading | main.py:137-151 | one reading moves the ledger as one step of `Scan` does |
| Task.ScrapeTask.AdmitOrder | main.py:138-150 | a new id is added to the set and its order appended to the list |
| Task.ScrapeTask.GoToFirstPage | main.py:200-207 | the counter is back at 1 when the first page was reached and unchanged otherwise |
| Task.ScrapeTask.NextPage | main.py:163-167 | after the click the counter is one more, or 1 when there is no next page and the first page was reached; nothing else changes |
| Task.ScrapeTask.Submit | main.py:303-351 | exactly the side's request is appended to the requests sent; nothing else changes |
| Task.ScrapeTask.ProcessOne | main.py:244-256 | one order advances the submissions as one step of `Process` does |
| Task.ScrapeTask.ProcessOrders | main.py:242-256 | the requests sent grow by exactly the requests of `Process` over the whole list; the pass aborts as `Process` does |
| Task.ScrapeTask.RunPass | main.py:243-256 | the loop over a list submits exactly `Process` over it |
| Task.ScrapeTask.SaveOrdersToFile | main.py:213-224 | the file holds one entry per listed order with its own figures; exactly one pass (`Process`) is submitted; the timer is (re-)started unless the pass failed |
| Task.ScrapeTask.SaveAndProcess | main.py:170-171 | the file holds one entry per listed order; the requests sent grow by exactly `CyclePasses`, which aborts when either pass does; the timer is started unless the first pass failed |
| Task.ScrapeTask.DeleteOrdersFromFile | main.py:226-230 | the list and the file are emptied; processed ids are kept, and the invariant holds |
| Task.ScrapeTask.Stop | main.py:374-378 | the session stops running and nothing else changes |
| Task.ScrapeTask.Cycle | main.py:108-171 | a session no longer running stops with nothing changed; otherwise the ledger is `Scan` of the old one and processed ids only grow; a malformed row stops the loop with page, file, timer and requests unchanged; a scan with no new data returns `NoNewData` with the counter back at 1 when the first page was reached; after new data the cycle's whole new state is that of `AdvanceAndProcess` |
| Task.ScrapeTask.AdvanceAndProcess | main.py:158-171 | after a scan with new data: when three button lookups fail the loop stops with page, file, timer and requests unchanged; otherwise the counter is one more (or 1 when there is no next page and the first page was reached), the file holds one entry per listed order, the timer is started unless the first pass failed, the requests sent grow by exactly `CyclePasses`, and the loop stops exactly when that aborts; list, processed ids and running flag are unchanged |

## Left out

- The Streamlit UI and the global session object are not modelled (`main.py:353-383`). Only the stop button's effect is kept, as `Stop`.
- Browser work is not modelled: driver set-up, cookie acceptance, tab navigation (with its unbounded recursion on failure), page loads, scrolling, `has_next_page` and HTML parsing. Their results are parameters: rows as cell texts, a boolean per button lookup, whether the first page was reached, whether a next page exists.
- The sleeps and the timer thread are not modelled. Expiry is `DeleteOrdersFromFile`, run whenever the caller chooses; the timer is a flag.
- JSON serialisation is left out. The history file is its list of entries.
- Exchange calls are left out: client creation, the exchange-information fetch that fills the minimum table (a constructor parameter), and `futures_create_order`. A request is recorded as sent; the exchange's answer or failure is caught in the source and changes nothing.
- `strptime` and `datetime.now()` are left out. Times are whole seconds given as parameters. Microseconds are ignored.
- `should_open_position` reads the clock once per order. The model uses one instant per pass (`saveNow`, `loopNow`).
- Numbers are `real`. Float rounding, including that of the `* 1.05` product, is not modelled.
- `Numbers.ParseFloat`: surrounding whitespace, an optional sign and digits with at most one dot are parsed. Exponents, `inf`, `nan` and digit-group underscores, which Python's `float()` also accepts, are treated as parse failures, so a profit cell of that form makes the model stop where the program would read a number.
- Unicode: Python's `\d` and `strip()` also match non-Latin-1 digits and spaces. The model recognises ASCII digits and Latin-1 whitespace only.
- The order id text `time-symbol-side-price` is modelled as the tuple of its four fields. Two different tuples whose texts happen to coincide are not modelled.
- The polling loop itself is not modelled as a loop: `Cycle` models one iteration, and the caller repeats it while it returns `Continued` or `NoNewData`.
- The WebDriver quit in the `finally` block is not modelled.

## Findings

| source | as written | input that shows it | evidently intended | confidence | as-written member | corrected member |
|---|---|---|---|---|---|---|
| main.py:170-171 | every cycle that admits an order runs `process_orders` twice: once inside `save_orders_to_file` (`main.py:219`) and once right after. Each run covers the whole list of admitted orders (`main.py:243`), so a qualifying order's request is sent twice per cycle, and again in later cycles while the order is under a minute old | one unsettled `Open long` order for a symbol in the minimum table, at most 60 s old, with leverage 0: one cycle sends the same BUY request twice | each admitted order is acted on once: every cycle processes only the orders it has just admitted, so no id is mirrored twice in a session | not executed | Decision.CycleSubmitsTwice | Decision.SessionMirrorsOnce |
