/** The candle-history backfill of `CoinbasePublic.get_history`: interval lookup, the
    window arithmetic, the request loop, the sort by open time and the synthetic close
    time. The candle request is the parameter `fetch`, a function of the granularity text
    sent and the requested window (the currency pair is the same for every request of one
    call and is folded into `fetch`); clock reads and parsed day strings are plain integer
    parameters. */
module CandleHistory {
  import opened Wrappers
  import Text

  /** The interval names the granularity table knows. */
  const IntervalNames: set<string> := {"1m", "5m", "15m", "1h", "6h", "1d"}

  /** The 30-day default span, in seconds. */
  const ThirtyDays: int := 3600 * 24 * 30

  /** The venue's default cap on candles per request. */
  const DefaultLimit: int := 300

  /** The `granularity` request parameter sent for each interval name, as the table has it
      (note "6h" maps to "12600"). */
  function Granularity(interval: string): (g: Option<string>)
    ensures g.Some? <==> interval in IntervalNames
  {
    if interval == "1m" then Some("60")
    else if interval == "5m" then Some("300")
    else if interval == "15m" then Some("900")
    else if interval == "1h" then Some("3600")
    else if interval == "6h" then Some("12600")
    else if interval == "1d" then Some("86400")
    else None
  }

  /** The seconds per candle that the if/elif chain multiplies by `limit` (note "15m"
      uses 300). */
  function DivisorBase(interval: string): (b: Option<int>)
    ensures b.Some? <==> interval in IntervalNames
    ensures b.Some? ==> b.value >= 60
  {
    if interval == "1m" then Some(60 * 1)
    else if interval == "5m" then Some(60 * 5)
    else if interval == "15m" then Some(60 * 5)
    else if interval == "1h" then Some(3600)
    else if interval == "6h" then Some(3600 * 6)
    else if interval == "1d" then Some(3600 * 24)
    else None
  }

  datatype TimeRange = TimeRange(startTime: int, endTime: int)

  /** The `[startTime, endTime]` pair chosen from the optional day bounds. A day bound is
      given already converted to seconds; `firstClock` and `secondClock` are the two clock
      reads made when neither bound is given, truncated to whole seconds. */
  function ResolveRange(startDay: Option<int>, endDay: Option<int>, firstClock: int, secondClock: int): (r: TimeRange)
    ensures startDay.Some? ==> r.startTime == startDay.value
    ensures endDay.Some? ==> r.endTime == endDay.value
    ensures startDay.Some? != endDay.Some? ==> r.endTime - r.startTime == ThirtyDays
    ensures startDay.None? && endDay.None? ==> r.startTime == firstClock - ThirtyDays && r.endTime == secondClock
  {
    match (startDay, endDay)
    case (None, None) => TimeRange(firstClock - ThirtyDays, secondClock)
    case (None, Some(e)) => TimeRange(e - ThirtyDays, e)
    case (Some(s), None) => TimeRange(s, s + ThirtyDays)
    case (Some(s), Some(e)) => TimeRange(s, e)
  }

  function Abs(x: int): nat {
    if x < 0 then -x else x
  }

  /** Python's `int(a / b)` computed without rounding: the quotient truncated toward zero. */
  function TruncDiv(a: int, b: int): (q: int)
    requires b != 0
    ensures Abs(q) == Abs(a) / Abs(b)
    ensures q > 0 ==> (a < 0) == (b < 0)
    ensures q < 0 ==> (a < 0) != (b < 0)
  {
    var q: int := NatDiv(Abs(a), Abs(b));
    if (a < 0) == (b < 0) then q else -q
  }

  /** Floor division of naturals, kept behind a name so that the solver meets the
      quotient as one term. */
  function NatDiv(x: nat, y: nat): nat
    requires y > 0
  {
    x / y
  }

  datatype PlanError = UnknownInterval | ZeroDivision

  /** The quantities computed before the loop: the per-candle seconds `base`, the span
      `divisor` one request may cover, the window count `intervals` and the step `diff`. */
  datatype Plan = Plan(base: int, divisor: int, intervals: int, diff: int)

  /** The lookups and the arithmetic before the loop, for a range of `span` seconds. */
  function PlanFor(interval: string, span: int, limit: int): (r: Result<Plan, PlanError>)
    ensures r == Failure(UnknownInterval) <==> interval !in IntervalNames
    ensures r.Success? ==> r.value.base == DivisorBase(interval).value && r.value.divisor == r.value.base * limit
  {
    if Granularity(interval).None? then Failure(UnknownInterval)
    else
      var base := DivisorBase(interval).value;
      var divisor := base * limit;
      if divisor == 0 then Failure(ZeroDivision)
      else
        // int((endTime - startTime) / divisor + 1)
        var intervals := TruncDiv(span + divisor, divisor);
        if intervals == 0 then Failure(ZeroDivision)
        else Success(Plan(base, divisor, intervals, TruncDiv(span, intervals)))
  }

  /** For a non-negative span, `int(span / divisor + 1)` is the floor quotient plus one. */
  lemma WindowCount(span: int, divisor: int)
    requires span >= 0 && divisor >= 1
    ensures TruncDiv(span + divisor, divisor) == span / divisor + 1 >= 1
  {
    DivMod(span, divisor);
    DivUnique(span + divisor, divisor, span / divisor + 1, span % divisor);
  }

  /** The step never exceeds the span and stays below `divisor`, so no window is wider than
      one request may cover; it is positive once the span is at least one second and the
      divisor at least two. */
  lemma StepBounds(span: int, divisor: int)
    requires span >= 0 && divisor >= 1
    ensures var n := span / divisor + 1;
      var diff := TruncDiv(span, n);
      && diff == span / n
      && diff * n <= span
      && diff < divisor
      && (span >= 1 && divisor >= 2 ==> diff >= 1)
  {
    var n := span / divisor + 1;
    DivMod(span, n);
    StepBelowDivisor(span, divisor);
    if span >= 1 && divisor >= 2 {
      StepPositive(span, divisor);
    }
  }

  lemma StepBelowDivisor(span: int, divisor: int)
    requires span >= 0 && divisor >= 1
    ensures span / (span / divisor + 1) < divisor
  {
    var n := span / divisor + 1;
    DivMod(span, divisor);
    MulComm(n, divisor);
    var diff := span / n;
    DivMod(span, n);
    if diff >= divisor {
      MulMono(divisor, diff, n);
      assert false;
    }
  }

  lemma StepPositive(span: int, divisor: int)
    requires span >= 1 && divisor >= 2
    ensures span / (span / divisor + 1) >= 1
  {
    var q := span / divisor;
    DivMod(span, divisor);
    MulMono(2, divisor, q);
    MulComm(q, divisor);
    DivAtLeastOne(span, q + 1);
  }

  lemma DivAtLeastOne(a: int, b: int)
    requires 0 < b <= a
    ensures a / b >= 1
  {
    DivMod(a, b);
    if a / b <= 0 {
      MulMono(a / b, 0, b);
    }
  }

  lemma MulComm(a: int, b: int)
    ensures a * b == b * a
  {
  }

  lemma DivMod(a: int, b: int)
    requires b > 0
    ensures a == (a / b) * b + a % b && 0 <= a % b < b
  {
  }

  lemma MulMono(a: int, b: int, c: int)
    requires a <= b && c >= 0
    ensures a * c <= b * c
  {
  }

  lemma DivUnique(a: int, b: int, k: int, r: int)
    requires b > 0 && 0 <= r < b && a == k * b + r
    ensures a / b == k
  {
    DivMod(a, b);
    var q := a / b;
    if q < k {
      MulMono(q + 1, k, b);
      assert false;
    } else if q > k {
      MulMono(k + 1, q, b);
      assert false;
    }
  }

  /** One requested window: the `start` and `end` request parameters, in seconds. */
  datatype Window = Window(start: int, end: int)

  /** The number of full `diff` steps that fit in `[startTime, endTime]`. */
  function FullSteps(startTime: int, endTime: int, diff: int): int
    requires diff > 0
  {
    (endTime - startTime) / diff
  }

  /** Window `j` of the planned sequence: full steps of `diff`, the last one ending at
      `endTime`. */
  function PlanWindow(startTime: int, endTime: int, diff: int, j: int): Window
    requires diff > 0
  {
    Window(startTime + j * diff,
           if j < FullSteps(startTime, endTime, diff) then startTime + (j + 1) * diff else endTime)
  }

  /** The windows the request loop asks for, in order, whenever it terminates: none when the
      first step already passes `endTime`, otherwise one per full step and a final window
      ending at `endTime`. */
  function PlannedWindows(startTime: int, endTime: int, diff: int): (ws: seq<Window>)
    requires diff > 0 || startTime + diff > endTime
  {
    if startTime + diff > endTime then []
    else seq(FullSteps(startTime, endTime, diff) + 1, j => PlanWindow(startTime, endTime, diff, j))
  }

  /** Arithmetic facts about the number of full steps. */
  lemma FullStepsBounds(startTime: int, endTime: int, diff: int)
    requires diff > 0 && startTime <= endTime
    ensures var m := FullSteps(startTime, endTime, diff);
      m >= 0 && m * diff <= endTime - startTime < (m + 1) * diff
  {
    DivMod(endTime - startTime, diff);
  }

  lemma StepsAtMost(x: int, span: int, diff: int)
    requires diff > 0 && span >= 0 && x * diff <= span
    ensures x <= span / diff
  {
    DivMod(span, diff);
    if x > span / diff {
      MulMono(span / diff + 1, x, diff);
    }
  }

  /** The shape of the requested windows: the first starts at `startTime`, each later one
      `diff` after the previous, every window but the last is exactly `diff` long and ends
      where the next starts, all lie within `[startTime, endTime]`, and the last ends at
      `endTime`. There are none exactly when the first step passes `endTime`, and the last
      window is degenerate (it starts at `endTime`) exactly when the range divides evenly. */
  lemma PlannedWindowsShape(startTime: int, endTime: int, diff: int)
    requires diff > 0
    ensures var ws := PlannedWindows(startTime, endTime, diff);
      && (ws == [] <==> startTime + diff > endTime)
      && (ws != [] ==> |ws| == (endTime - startTime) / diff + 1)
      && (ws != [] ==> ws[0].start == startTime && ws[|ws| - 1].end == endTime)
      && (ws != [] ==> (ws[|ws| - 1].start == endTime <==> (endTime - startTime) % diff == 0))
      && (forall j :: 0 <= j < |ws| ==> startTime <= ws[j].start <= ws[j].end <= endTime)
      && (forall j :: 0 <= j < |ws| - 1 ==> ws[j].end == ws[j].start + diff && ws[j + 1].start == ws[j].end)
  {
    var ws := PlannedWindows(startTime, endTime, diff);
    if startTime + diff <= endTime {
      var m := FullSteps(startTime, endTime, diff);
      FullStepsBounds(startTime, endTime, diff);
      DivMod(endTime - startTime, diff);
      assert ws[0].start == startTime;
      forall j | 0 <= j < |ws|
        ensures startTime <= ws[j].start <= ws[j].end <= endTime
      {
        MulMono(0, j, diff);
        if j < m {
          MulMono(j + 1, m, diff);
        } else {
          MulMono(j, m, diff);
        }
      }
      forall j | 0 <= j < |ws| - 1
        ensures ws[j].end == ws[j].start + diff && ws[j + 1].start == ws[j].end
      {
      }
    }
  }

  /** A candle row as the venue returns it: the open time first, then the other fields
      (low, high, open, close, volume). */
  type Row = r: seq<int> | |r| >= 1 witness [0]

  /** All rows returned for the given windows, in request order, every request sending
      the same `granularity`. */
  function Gather(requests: seq<Window>, granularity: string, fetch: (string, Window) -> seq<Row>): seq<Row> {
    if requests == [] then []
    else Gather(requests[..|requests| - 1], granularity, fetch) + fetch(granularity, requests[|requests| - 1])
  }

  /** While the loop has not clamped, the window it is about to request is planned
      window `k`, a full step. */
  lemma FullWindowAt(startTime: int, endTime: int, diff: int, k: nat)
    requires diff > 0 && startTime + k * diff + diff <= endTime
    ensures k < FullSteps(startTime, endTime, diff)
    ensures PlanWindow(startTime, endTime, diff, k) == Window(startTime + k * diff, startTime + k * diff + diff)
  {
    MulDistrib(k, diff);
    StepsAtMost(k + 1, endTime - startTime, diff);
  }

  /** The first step that passes `endTime` is the one after the last full step. */
  lemma ClampAt(startTime: int, endTime: int, diff: int, k: nat)
    requires diff > 0 && startTime <= endTime
    requires k <= FullSteps(startTime, endTime, diff)
    requires startTime + k * diff + diff > endTime
    ensures k == FullSteps(startTime, endTime, diff)
  {
    var m := FullSteps(startTime, endTime, diff);
    FullStepsBounds(startTime, endTime, diff);
    MulDistrib(k, diff);
    if k < m {
      MulMono(k + 1, m, diff);
    }
  }

  lemma MulDistrib(k: int, diff: int)
    ensures (k + 1) * diff == k * diff + diff
  {
  }

  /** `for data in r: response.append(data)`. */
  method AppendAll(response: seq<Row>, r: seq<Row>) returns (appended: seq<Row>)
    ensures appended == response + r
  {
    appended := response;
    for k := 0 to |r|
      invariant appended == response + r[..k]
    {
      appended := appended + [r[k]];
      assert r[..k + 1] == r[..k] + [r[k]];
    }
    assert r[..|r|] == r;
  }

  /** The request loop. It issues one request per window, appends the rows of each reply,
      and stops right after the request whose end was clamped to `endTime`. It terminates
      on every input the precondition admits; on the others it would run forever (see
      `LoopWithoutProgress`). */
  method RequestWindows(granularity: string, startTime0: int, endTime: int, diff: int, fetch: (string, Window) -> seq<Row>)
      returns (requests: seq<Window>, response: seq<Row>)
    requires diff > 0 || startTime0 + diff > endTime
    ensures requests == PlannedWindows(startTime0, endTime, diff)
    ensures response == Gather(requests, granularity, fetch)
  {
    var startTime := startTime0;
    var runningTime := startTime + diff;
    requests, response := [], [];
    var breakout := false;
    ghost var m := if diff > 0 && startTime0 + diff <= endTime then FullSteps(startTime0, endTime, diff) else 0;
    while runningTime <= endTime
      invariant requests != [] ==> startTime0 + diff <= endTime && diff > 0
      invariant startTime == startTime0 + |requests| * diff
      invariant !breakout ==> runningTime == startTime + diff
      invariant !breakout && requests != [] ==> runningTime <= endTime
      invariant breakout ==> runningTime == endTime && |requests| == m && diff > 0 && startTime0 + diff <= endTime
      invariant !breakout ==> |requests| <= m
      invariant forall j :: 0 <= j < |requests| ==> requests[j] == PlanWindow(startTime0, endTime, diff, j)
      invariant response == Gather(requests, granularity, fetch)
      decreases if breakout then 0 else 1, endTime - runningTime
    {
      ghost var before := Cursor(startTime, runningTime, breakout);
      var w := Window(startTime, runningTime);
      if !breakout {
        FullWindowAt(startTime0, endTime, diff, |requests|);
      }
      assert w == PlanWindow(startTime0, endTime, diff, |requests|);
      var r := fetch(granularity, w);
      ghost var received := response;
      assert Gather(requests + [w], granularity, fetch) == received + r by {
        assert (requests + [w])[..|requests|] == requests;
      }
      requests := requests + [w];
      response := AppendAll(response, r);
      MulDistrib(|requests| - 1, diff);
      startTime := startTime + diff;
      runningTime := runningTime + diff;
      if breakout {
        assert Pass(before, endTime, diff) == None;
        break;
      }
      if runningTime > endTime {
        ClampAt(startTime0, endTime, diff, |requests|);
        runningTime := endTime;
        breakout := true;
      }
      // One pass of this loop is the transition `Pass` below.
      assert Pass(before, endTime, diff) == Some(Cursor(startTime, runningTime, breakout));
    }
    // The loop is left exactly where `Pass` says it is.
    assert Pass(Cursor(startTime, runningTime, breakout), endTime, diff) == None;
  }

  // ---------------------------------------------------------------------------------
  // Loops that do not end

  /** The loop's variables between two passes. */
  datatype Cursor = Cursor(startTime: int, runningTime: int, breakout: bool)

  /** One pass of the loop body of `RequestWindows` as a transition on its variables (the
      asserts in that loop state that each pass is this one): `None` when the pass leaves the
      loop, either by the guard or by breaking out after the clamped request. */
  function Pass(c: Cursor, endTime: int, diff: int): Option<Cursor> {
    if c.runningTime > endTime || c.breakout then None
    else if c.runningTime + diff > endTime then Some(Cursor(c.startTime + diff, endTime, true))
    else Some(Cursor(c.startTime + diff, c.runningTime + diff, false))
  }

  /** The cursor after `n` passes, or `None` if the loop was left earlier. */
  function Passes(c: Cursor, endTime: int, diff: int, n: nat): Option<Cursor>
    decreases n
  {
    if n == 0 then Some(c)
    else match Pass(c, endTime, diff)
      case None => None
      case Some(c') => Passes(c', endTime, diff, n - 1)
  }

  /** With a step that is not positive and a first end within range, every pass leaves the
      loop guard true and never sets `breakout`: the loop runs forever. */
  lemma {:induction false} LoopWithoutProgress(startTime: int, endTime: int, diff: int, n: nat)
    requires diff <= 0 && startTime + diff <= endTime
    ensures Passes(Cursor(startTime, startTime + diff, false), endTime, diff, n)
         == Some(Cursor(startTime + n * diff, startTime + diff + n * diff, false))
    ensures startTime + diff + n * diff <= endTime
    decreases n
  {
    if n > 0 {
      LoopWithoutProgress(startTime + diff, endTime, diff, n - 1);
      MulDistrib(n - 1, diff);
      MulMono(0, n - 1, -diff);
    }
  }

  /** With a positive step, each pass steps the measure `(breakout ? 0 : 1, endTime -
      runningTime)` down, which is why the loop ends. */
  lemma PassDecreases(c: Cursor, endTime: int, diff: int)
    requires diff > 0 && Pass(c, endTime, diff).Some?
    ensures var c' := Pass(c, endTime, diff).value;
      (c.breakout == c'.breakout && 0 <= endTime - c'.runningTime < endTime - c.runningTime)
      || (!c.breakout && c'.breakout)
  {
  }

  // ---------------------------------------------------------------------------------
  // Sorting by open time

  predicate SortedByOpenTime(rows: seq<Row>) {
    forall i, j :: 0 <= i < j < |rows| ==> rows[i][0] <= rows[j][0]
  }

  /** Places `x` before the first row that does not open earlier. */
  function InsertByOpenTime(x: Row, rows: seq<Row>): (r: seq<Row>)
    requires SortedByOpenTime(rows)
    ensures SortedByOpenTime(r)
    ensures multiset(r) == multiset(rows) + multiset{x}
    ensures |r| == |rows| + 1
    ensures r[0] == x || (rows != [] && r[0] == rows[0])
  {
    if rows == [] || x[0] <= rows[0][0] then [x] + rows
    else
      assert rows == [rows[0]] + rows[1..];
      [rows[0]] + InsertByOpenTime(x, rows[1..])
  }

  /** `sorted(response, key=itemgetter(0))`: ordered by open time and a permutation of
      its input. */
  function SortByOpenTime(rows: seq<Row>): (r: seq<Row>)
    ensures SortedByOpenTime(r)
    ensures multiset(r) == multiset(rows)
    ensures |r| == |rows|
  {
    if rows == [] then []
    else
      assert rows == [rows[0]] + rows[1..];
      InsertByOpenTime(rows[0], SortByOpenTime(rows[1..]))
  }

  /** The rows that open at time `t`, in their order. */
  function OpeningAt(rows: seq<Row>, t: int): seq<Row> {
    if rows == [] then []
    else (if rows[0][0] == t then [rows[0]] else []) + OpeningAt(rows[1..], t)
  }

  lemma {:induction false} InsertKeepsOrder(x: Row, rows: seq<Row>, t: int)
    requires SortedByOpenTime(rows)
    ensures OpeningAt(InsertByOpenTime(x, rows), t) == (if x[0] == t then [x] else []) + OpeningAt(rows, t)
    decreases |rows|
  {
    if rows == [] || x[0] <= rows[0][0] {
      var r := [x] + rows;
      assert r[0] == x && r[1..] == rows;
    } else {
      var rest := InsertByOpenTime(x, rows[1..]);
      var r := [rows[0]] + rest;
      assert r[0] == rows[0] && r[1..] == rest;
      InsertKeepsOrder(x, rows[1..], t);
      assert OpeningAt(r, t) == (if rows[0][0] == t then [rows[0]] else []) + OpeningAt(rest, t);
      assert OpeningAt(rows, t) == (if rows[0][0] == t then [rows[0]] else []) + OpeningAt(rows[1..], t);
      assert x[0] == t ==> rows[0][0] != t;
    }
  }

  /** The sort is stable, as Python's is: rows that open at the same time keep the order
      in which the replies delivered them. */
  lemma {:induction false} SortIsStable(rows: seq<Row>, t: int)
    ensures OpeningAt(SortByOpenTime(rows), t) == OpeningAt(rows, t)
    decreases |rows|
  {
    if rows != [] {
      SortIsStable(rows[1..], t);
      InsertKeepsOrder(rows[0], SortByOpenTime(rows[1..]), t);
    }
  }

  // ---------------------------------------------------------------------------------
  // The synthetic close time

  /** `row.insert(1, int(row[0] + divisor/limit - 1))`, where `divisor/limit` is `base`:
      the close time goes in at index 1 and the other fields move one place right. */
  function WithCloseTime(row: Row, base: int): (r: Row)
    ensures |r| == |row| + 1
    ensures r[0] == row[0] && r[1] == row[0] + base - 1
    ensures forall k :: 1 <= k < |row| ==> r[k + 1] == row[k]
  {
    row[..1] + [row[0] + base - 1] + row[1..]
  }

  /** The venue row a processed row came from: the close time taken out again. */
  function WithoutCloseTime(r: Row): (row: Row)
    requires |r| >= 2
  {
    [r[0]] + r[2..]
  }

  lemma CloseTimeRemovable(row: Row, base: int)
    ensures WithoutCloseTime(WithCloseTime(row, base)) == row
  {
    var r := WithCloseTime(row, base);
    assert r[2..] == row[1..];
  }

  function CloseTimes(rows: seq<Row>, base: int): seq<Row> {
    seq(|rows|, i requires 0 <= i < |rows| => WithCloseTime(rows[i], base))
  }

  /** The post-processing loop: every row of the sorted list gains its close time in
      place. */
  method InsertCloseTimes(rows: array<Row>, base: int)
    modifies rows
    ensures forall i :: 0 <= i < rows.Length ==> rows[i] == WithCloseTime(old(rows[i]), base)
  {
    for i := 0 to rows.Length
      invariant forall k :: 0 <= k < i ==> rows[k] == WithCloseTime(old(rows[k]), base)
      invariant forall k :: i <= k < rows.Length ==> rows[k] == old(rows[k])
    {
      rows[i] := WithCloseTime(rows[i], base);
    }
  }

  // ---------------------------------------------------------------------------------
  // The whole backfill

  /** How `get_history` ends: it returns 0 for an unknown interval, raises
      ZeroDivisionError, never returns, or returns the processed rows. */
  datatype History = Invalid | DivisionByZero | Diverges | Rows(rows: seq<Row>)

  /** The outcome for an already resolved time range. */
  function BackfillRange(interval: string, range: TimeRange, limit: int, fetch: (string, Window) -> seq<Row>): (h: History)
    ensures h.Invalid? <==> interval !in IntervalNames
  {
    match PlanFor(interval, range.endTime - range.startTime, limit)
    case Failure(UnknownInterval) => Invalid
    case Failure(ZeroDivision) => DivisionByZero
    case Success(p) =>
      if p.diff <= 0 && range.startTime + p.diff <= range.endTime then Diverges
      else
        var requests := PlannedWindows(range.startTime, range.endTime, p.diff);
        Rows(CloseTimes(SortByOpenTime(Gather(requests, Granularity(interval).value, fetch)), p.base))
  }

  /** The outcome of `get_history(pair, start_day, end_day, interval, limit)`. */
  function Backfill(interval: string, startDay: Option<int>, endDay: Option<int>,
                    firstClock: int, secondClock: int, limit: int, fetch: (string, Window) -> seq<Row>): (h: History)
    ensures h.Invalid? <==> interval !in IntervalNames
  {
    BackfillRange(interval, ResolveRange(startDay, endDay, firstClock, secondClock), limit, fetch)
  }

  /** `get_history`, statement by statement. */
  method GetHistory(interval: string, startDay: Option<int>, endDay: Option<int>,
                    firstClock: int, secondClock: int, limit: int, fetch: (string, Window) -> seq<Row>)
      returns (h: History)
    ensures h == Backfill(interval, startDay, endDay, firstClock, secondClock, limit, fetch)
  {
    var granularity := Granularity(interval);
    if granularity.None? {
      return Invalid;
    }
    var range := ResolveRange(startDay, endDay, firstClock, secondClock);
    var startTime, endTime := range.startTime, range.endTime;
    var base := DivisorBase(interval).value;
    var divisor := base * limit;
    if divisor == 0 {
      assert PlanFor(interval, endTime - startTime, limit) == Failure(ZeroDivision);
      return DivisionByZero;
    }
    var intervals := TruncDiv(endTime - startTime + divisor, divisor);
    if intervals == 0 {
      assert PlanFor(interval, endTime - startTime, limit) == Failure(ZeroDivision);
      return DivisionByZero;
    }
    var diff := TruncDiv(endTime - startTime, intervals);
    ghost var plan := Plan(base, divisor, intervals, diff);
    assert PlanFor(interval, endTime - startTime, limit) == Success(plan);
    if diff <= 0 && startTime + diff <= endTime {
      // the loop below would never exit: see LoopWithoutProgress
      return Diverges;
    }
    var requests, response := RequestWindows(granularity.value, startTime, endTime, diff, fetch);
    var rows := SortAndClose(response, base);
    h := Rows(rows);
    BackfillOfPlan(interval, range, limit, fetch, plan);
  }

  /** The tail of `get_history`: the rows sorted by open time, then each given its close
      time in place. */
  method SortAndClose(response: seq<Row>, base: int) returns (processed: seq<Row>)
    ensures processed == CloseTimes(SortByOpenTime(response), base)
  {
    var sorted := SortByOpenTime(response);
    var rows := new Row[|sorted|](i requires 0 <= i < |sorted| => sorted[i]);
    InsertCloseTimes(rows, base);
    processed := rows[..];
    assert processed == CloseTimes(sorted, base);
  }

  // ---------------------------------------------------------------------------------
  // Properties of the backfill

  /** Where the granularity string agrees with the seconds used for the divisor: everywhere
      but "15m" (base 300 against granularity 900) and "6h" (granularity 12600 against
      base 21600). */
  lemma GranularityVersusBase(interval: string)
    requires interval in IntervalNames
    ensures Granularity(interval) == Some(Text.IntStr(DivisorBase(interval).value))
        <==> interval != "15m" && interval != "6h"
  {
    BaseDecimalsShort();
    BaseDecimalsSixHours();
    BaseDecimalsDay();
  }

  /** The decimal text of each divisor base. */
  lemma BaseDecimalsShort()
    ensures Text.IntStr(60) == "60" && Text.IntStr(300) == "300" && Text.IntStr(3600) == "3600"
  {
  }

  lemma BaseDecimalsSixHours()
    ensures Text.IntStr(21600) == "21600"
  {
  }

  lemma BaseDecimalsDay()
    ensures Text.IntStr(86400) == "86400"
  {
  }

  /** The processed rows with their close times taken out again. */
  function WithoutCloseTimes(rows: seq<Row>): (r: seq<Row>)
    requires forall i :: 0 <= i < |rows| ==> |rows[i]| >= 2
    ensures |r| == |rows|
  {
    seq(|rows|, i requires 0 <= i < |rows| => WithoutCloseTime(rows[i]))
  }

  /** Post-processing of the rows received: as many rows as received, ordered by open
      time, each with its close time at index 1, and with the close times taken out a
      stable permutation of what was received. */
  lemma ProcessedRows(received: seq<Row>, base: int)
    ensures var rows := CloseTimes(SortByOpenTime(received), base);
      && |rows| == |received|
      && SortedByOpenTime(rows)
      && (forall i :: 0 <= i < |rows| ==> |rows[i]| >= 2 && rows[i][1] == rows[i][0] + base - 1)
      && multiset(WithoutCloseTimes(rows)) == multiset(received)
      && (forall t :: OpeningAt(WithoutCloseTimes(rows), t) == OpeningAt(received, t))
  {
    var sorted := SortByOpenTime(received);
    var rows := CloseTimes(sorted, base);
    assert WithoutCloseTimes(rows) == sorted by {
      forall i | 0 <= i < |sorted|
        ensures WithoutCloseTimes(rows)[i] == sorted[i]
      {
        CloseTimeRemovable(sorted[i], base);
      }
    }
    forall t
      ensures OpeningAt(WithoutCloseTimes(rows), t) == OpeningAt(received, t)
    {
      SortIsStable(received, t);
    }
  }

  /** For a known interval, a positive limit and a forward range, the plan exists, the
      window count is the floor quotient plus one, and the step is at least one second,
      fits that many times in the range and is below the divisor. */
  lemma ForwardPlan(interval: string, span: int, limit: int)
    requires interval in IntervalNames && limit >= 1 && span >= 1
    ensures PlanFor(interval, span, limit).Success?
    ensures var p := PlanFor(interval, span, limit).value;
      && p.divisor >= 60
      && p.intervals == span / p.divisor + 1
      && p.diff == span / p.intervals
      && p.diff * p.intervals <= span
      && 1 <= p.diff < p.divisor
      && p.diff <= span
  {
    var base := DivisorBase(interval).value;
    var divisor := base * limit;
    MulMono(1, limit, base);
    MulComm(base, limit);
    WindowCount(span, divisor);
    StepBounds(span, divisor);
    var n := span / divisor + 1;
    MulMono(1, n, span / n);
  }

  lemma ForwardStep(interval: string, span: int, limit: int)
    requires interval in IntervalNames && limit >= 1 && span >= 1
    ensures PlanFor(interval, span, limit).Success?
    ensures 1 <= PlanFor(interval, span, limit).value.diff <= span
  {
    ForwardPlan(interval, span, limit);
  }

  /** For a known interval, a positive limit and a range of at least one second the
      backfill requests the planned windows: the first starts at `startTime`, the last ends
      at `endTime`, and the rows returned are the processed replies. */
  lemma BackfillRequests(interval: string, range: TimeRange, limit: int, fetch: (string, Window) -> seq<Row>)
    requires interval in IntervalNames && limit >= 1 && range.startTime < range.endTime
    ensures PlanFor(interval, range.endTime - range.startTime, limit).Success?
    ensures PlanFor(interval, range.endTime - range.startTime, limit).value.diff >= 1
    ensures var p := PlanFor(interval, range.endTime - range.startTime, limit).value;
      var requests := PlannedWindows(range.startTime, range.endTime, p.diff);
      && requests != []
      && requests[0].start == range.startTime
      && requests[|requests| - 1].end == range.endTime
      && BackfillRange(interval, range, limit, fetch)
         == Rows(CloseTimes(SortByOpenTime(Gather(requests, Granularity(interval).value, fetch)), p.base))
  {
    ForwardStep(interval, range.endTime - range.startTime, limit);
    var p := PlanFor(interval, range.endTime - range.startTime, limit).value;
    ForwardWindows(range.startTime, range.endTime, p.diff);
    BackfillOfPlan(interval, range, limit, fetch, p);
  }

  lemma ForwardWindows(startTime: int, endTime: int, diff: int)
    requires 1 <= diff <= endTime - startTime
    ensures var requests := PlannedWindows(startTime, endTime, diff);
      && requests != []
      && requests[0].start == startTime
      && requests[|requests| - 1].end == endTime
  {
    PlannedWindowsShape(startTime, endTime, diff);
  }

  lemma BackfillOfPlan(interval: string, range: TimeRange, limit: int, fetch: (string, Window) -> seq<Row>, p: Plan)
    requires PlanFor(interval, range.endTime - range.startTime, limit) == Success(p)
    requires p.diff > 0 || range.startTime + p.diff > range.endTime
    ensures BackfillRange(interval, range, limit, fetch)
         == Rows(CloseTimes(SortByOpenTime(Gather(PlannedWindows(range.startTime, range.endTime, p.diff), Granularity(interval).value, fetch)), p.base))
  {
    var requests := PlannedWindows(range.startTime, range.endTime, p.diff);
    assert BackfillRange(interval, range, limit, fetch)
        == Rows(CloseTimes(SortByOpenTime(Gather(requests, Granularity(interval).value, fetch)), p.base));
  }

  /** With equal bounds the step is zero and the loop never ends. */
  lemma EqualBoundsDiverge(interval: string, range: TimeRange, limit: int, fetch: (string, Window) -> seq<Row>)
    requires interval in IntervalNames && limit != 0 && range.startTime == range.endTime
    ensures BackfillRange(interval, range, limit, fetch) == Diverges
  {
    var divisor := DivisorBase(interval).value * limit;
    assert TruncDiv(divisor, divisor) == 1 by {
      assert NatDiv(Abs(divisor), Abs(divisor)) == 1;
    }
    assert TruncDiv(0, 1) == 0;
  }

  /** A zero limit makes the divisor zero. */
  lemma ZeroLimitRaises(interval: string, range: TimeRange, fetch: (string, Window) -> seq<Row>)
    requires interval in IntervalNames
    ensures BackfillRange(interval, range, 0, fetch) == DivisionByZero
  {
  }

  /** A range that runs backwards by less than two divisors makes the window count zero. */
  lemma ShortBackwardRangeRaises(interval: string, range: TimeRange, limit: int, fetch: (string, Window) -> seq<Row>)
    requires interval in IntervalNames && limit >= 1
    requires -2 * (DivisorBase(interval).value * limit) < range.endTime - range.startTime < 0
    ensures BackfillRange(interval, range, limit, fetch) == DivisionByZero
  {
    var divisor := DivisorBase(interval).value * limit;
    MulMono(1, limit, DivisorBase(interval).value);
    var a := range.endTime - range.startTime + divisor;
    DivUnique(Abs(a), divisor, 0, Abs(a));
    assert TruncDiv(a, divisor) == 0;
  }

  /** A range that runs backwards by two divisors or more yields a negative window count,
      a non-negative step, no request and an empty result. */
  lemma LongBackwardRangeEmpty(interval: string, range: TimeRange, limit: int, fetch: (string, Window) -> seq<Row>)
    requires interval in IntervalNames && limit >= 1
    requires range.endTime - range.startTime <= -2 * (DivisorBase(interval).value * limit)
    ensures BackfillRange(interval, range, limit, fetch) == Rows([])
  {
    var divisor := DivisorBase(interval).value * limit;
    MulMono(1, limit, DivisorBase(interval).value);
    var span := range.endTime - range.startTime;
    DivAtLeastOne(Abs(span + divisor), divisor);
    var intervals := TruncDiv(span + divisor, divisor);
    assert intervals < 0;
    assert TruncDiv(span, intervals) >= 0;
  }

  /** A windowing example, as the code runs it: range 0..1000 with a
      divisor of 1000 gives two windows counted and a step of 500, and the loop requests
      three windows, the last one degenerate. */
  lemma EvenRangeExample()
    ensures TruncDiv(1000 + 1000, 1000) == 2 && TruncDiv(1000, 2) == 500
    ensures PlannedWindows(0, 1000, 500) == [Window(0, 500), Window(500, 1000), Window(1000, 1000)]
  {
    assert NatDiv(2000, 1000) == 2;
    assert NatDiv(1000, 2) == 500;
    assert FullSteps(0, 1000, 500) == 2;
  }

  /** With the "6h" table entries one request may cover 21600 * 300 seconds, which at the
      granularity sent (12600 seconds) is 514 candles, more than the limit of 300. A
      single window count makes the step the whole range, so the degenerate window
      follows it. */
  lemma SixHourWindowExceedsLimit(fetch: (string, Window) -> seq<Row>)
    ensures PlanFor("6h", 6479999, DefaultLimit) == Success(Plan(21600, 6480000, 1, 6479999))
    ensures BackfillRange("6h", TimeRange(0, 6479999), DefaultLimit, fetch)
         == Rows(CloseTimes(SortByOpenTime(fetch("12600", Window(0, 6479999)) + fetch("12600", Window(6479999, 6479999))), 21600))
    ensures Granularity("6h") == Some("12600") && 6479999 / 12600 == 514 > DefaultLimit
  {
    assert NatDiv(6479999 + 6480000, 6480000) == 1;
    assert NatDiv(6479999, 1) == 6479999;
    assert FullSteps(0, 6479999, 6479999) == 1;
    var ws := [Window(0, 6479999), Window(6479999, 6479999)];
    assert PlannedWindows(0, 6479999, 6479999) == ws;
    assert Gather(ws, "12600", fetch) == fetch("12600", ws[0]) + fetch("12600", ws[1]) by {
      assert ws[..1] == [ws[0]] && ws[..1][..0] == [];
    }
  }

  /** A close-time example: open time 1000 with a divisor of 36000
      over a limit of 300 gets close time 1119. */
  lemma CloseTimeExample(row: Row)
    requires row[0] == 1000
    ensures WithCloseTime(row, 36000 / 300)[1] == 1119
  {
  }
}
