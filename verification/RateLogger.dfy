/** The app connector's rate logger (appc/appconnector.go): counts of calls per period. */
module RateLogger {

  /** Times and durations are in nanoseconds. */
  const MILLISECOND: nat := 1_000_000

  datatype Report = Report(count: nat, at: int)

  datatype State = State(interval: nat, start: int, periodStart: int, periodCount: nat, reports: seq<Report>)

  function New(interval: nat, now: int): State {
    State(interval, now, now, 0, [])
  }

  /** The grid periods start on: the interval cut to whole milliseconds. */
  function Pitch(interval: nat): nat {
    interval / MILLISECOND * MILLISECOND
  }

  function CurrentIntervalStart(s: State, now: int): int
    requires s.interval >= MILLISECOND && s.start <= now
  {
    now - (now - s.start) / MILLISECOND % (s.interval / MILLISECOND) * MILLISECOND
  }

  /** Reports the period that is over, unless it is empty. */
  function ClosePeriod(s: State): State {
    s.(periodCount := 0,
       reports := if s.periodCount != 0 then s.reports + [Report(s.periodCount, s.periodStart)] else s.reports)
  }

  /** Counts the call in the next period. */
  function OpenPeriod(s: State, at: int): State {
    ClosePeriod(s).(periodStart := at, periodCount := 1)
  }

  /** The end of a period divides by the interval's whole milliseconds. */
  predicate DividesByZero(s: State, now: int) {
    s.periodStart + s.interval < now && s.interval < MILLISECOND
  }

  function Update(s: State, now: int): State
    requires !DividesByZero(s, now) && s.start <= now
  {
    if s.periodStart + s.interval < now then OpenPeriod(s, CurrentIntervalStart(s, now))
    else s.(periodCount := s.periodCount + 1)
  }

  // ---- Where a period starts ----

  /** Which cell of the grid a time lies in. */
  function Cells(interval: nat, start: int): int -> int
    requires interval >= MILLISECOND
  {
    PitchPositive(interval);
    at => (at - start) / Pitch(interval)
  }

  /** Whether a time is less than a millisecond after the start of its cell. */
  function Alignment(interval: nat, start: int): int -> bool
    requires interval >= MILLISECOND
  {
    PitchPositive(interval);
    at => (at - start) % Pitch(interval) < MILLISECOND
  }

  function Cell(s: State, at: int): int
    requires s.interval >= MILLISECOND
  {
    Cells(s.interval, s.start)(at)
  }

  predicate Aligned(s: State, at: int)
    requires s.interval >= MILLISECOND
  {
    Alignment(s.interval, s.start)(at)
  }

  lemma PitchPositive(interval: nat)
    requires interval >= MILLISECOND
    ensures MILLISECOND <= Pitch(interval) <= interval
  {
    var n := interval / MILLISECOND;
    assert n >= 1;
    assert n * MILLISECOND >= MILLISECOND;
  }

  lemma {:induction false} MulStep(a: int, b: int, d: nat)
    requires a < b
    ensures a * d + d <= b * d
    decreases b - a
  {
    assert b * d == (b - 1) * d + d;
    if a < b - 1 {
      MulStep(a, b - 1, d);
    }
  }

  lemma QuotientLess(d: nat, q: int, r: int, q': int, r': int)
    requires 0 <= r && r' < d && q * d + r + d <= q' * d + r'
    ensures q < q'
  {
    if q' < q {
      MulStep(q', q, d);
    }
  }

  lemma DivModUnique(x: int, d: nat, q: int, r: int)
    requires 0 <= r < d && x == q * d + r
    ensures x / d == q && x % d == r
  {
    var q', r' := x / d, x % d;
    Division(x, d);
    if q < q' {
      MulStep(q, q', d);
    } else if q' < q {
      MulStep(q', q, d);
    }
  }

  lemma Division(x: int, d: nat)
    requires d > 0
    ensures x == x / d * d + x % d && 0 <= x % d < d
  {
  }

  /** The start computed for a call lies in the call's own cell, within its first millisecond. */
  lemma StartIsAligned(s: State, now: int)
    requires s.interval >= MILLISECOND && s.start <= now
    ensures var at := CurrentIntervalStart(s, now);
            && at <= now < at + Pitch(s.interval)
            && Aligned(s, at) && Cell(s, at) == Cell(s, now)
  {
    var n := s.interval / MILLISECOND;
    var e := now - s.start;
    var m, r := e / MILLISECOND, e % MILLISECOND;
    var q, p := m / n, m % n;
    var at := CurrentIntervalStart(s, now);
    var pitch := Pitch(s.interval);
    PitchPositive(s.interval);
    assert m == q * n + p;
    assert e == m * MILLISECOND + r;
    Expand(q, n, p);
    assert e == q * pitch + (p * MILLISECOND + r);
    Scaled(p, n);
    DivModUnique(e, pitch, q, p * MILLISECOND + r);
    DivModUnique(at - s.start, pitch, q, r);
  }

  lemma Expand(q: int, n: int, p: int)
    ensures (q * n + p) * MILLISECOND == q * (n * MILLISECOND) + p * MILLISECOND
  {
  }

  lemma Scaled(p: int, n: int)
    requires 0 <= p < n
    ensures 0 <= p * MILLISECOND <= (n - 1) * MILLISECOND
    ensures (n - 1) * MILLISECOND + MILLISECOND == n * MILLISECOND
  {
  }

  // ---- Runs under a clock that does not go back ----

  ghost predicate Monotone(start: int, times: seq<int>) {
    (forall i :: 0 <= i < |times| ==> start <= times[i])
    && forall i, j :: 0 <= i < j < |times| ==> times[i] <= times[j]
  }

  function Run(s: State, times: seq<int>): (r: State)
    requires s.interval >= MILLISECOND && forall i :: 0 <= i < |times| ==> s.start <= times[i]
    ensures r.interval == s.interval && r.start == s.start
  {
    if times == [] then s else Update(Run(s, times[..|times| - 1]), times[|times| - 1])
  }

  function Total(reports: seq<Report>): nat {
    if reports == [] then 0 else Total(reports[..|reports| - 1]) + reports[|reports| - 1].count
  }

  /** The reports' periods start in strictly increasing cells, all below `limit`. */
  ghost predicate Rising(reports: seq<Report>, cell: int -> int, limit: int) {
    && (forall i :: 0 <= i < |reports| ==> cell(reports[i].at) < limit)
    && (forall i, j :: 0 <= i < j < |reports| ==> cell(reports[i].at) < cell(reports[j].at))
  }

  ghost predicate Each(reports: seq<Report>, ok: int -> bool) {
    forall i :: 0 <= i < |reports| ==> ok(reports[i].at) && reports[i].count > 0
  }

  lemma ReportsGrow(reports: seq<Report>, cell: int -> int, ok: int -> bool, r: Report, limit: int)
    requires Rising(reports, cell, cell(r.at)) && Each(reports, ok) && ok(r.at) && r.count > 0 && cell(r.at) < limit
    ensures Rising(reports + [r], cell, limit) && Each(reports + [r], ok)
    ensures Total(reports + [r]) == Total(reports) + r.count
    ensures Rising(reports, cell, limit)
  {
    assert (reports + [r])[..|reports|] == reports;
  }

  /** What holds of the counts and periods, for a given grid. */
  ghost predicate Books(s: State, calls: nat, cell: int -> int, ok: int -> bool) {
    && Total(s.reports) + s.periodCount == calls
    && s.start <= s.periodStart && ok(s.periodStart)
    && Each(s.reports, ok) && Rising(s.reports, cell, cell(s.periodStart))
  }

  lemma OpenKeepsBooks(s: State, calls: nat, cell: int -> int, ok: int -> bool, at: int)
    requires Books(s, calls, cell, ok) && s.start <= at && ok(at) && cell(s.periodStart) < cell(at)
    ensures Books(OpenPeriod(s, at), calls + 1, cell, ok)
  {
    ReportsGrow(s.reports, cell, ok, Report(if s.periodCount != 0 then s.periodCount else 1, s.periodStart), cell(at));
  }

  ghost predicate Inv(s: State, calls: nat) {
    s.interval >= MILLISECOND && Books(s, calls, Cells(s.interval, s.start), Alignment(s.interval, s.start))
  }

  lemma CellMonotone(s: State, a: int, b: int)
    requires s.interval >= MILLISECOND && a + Pitch(s.interval) <= b
    ensures Cell(s, a) < Cell(s, b)
  {
    PitchPositive(s.interval);
    var pitch := Pitch(s.interval);
    var x, y := a - s.start, b - s.start;
    Division(x, pitch);
    Division(y, pitch);
    QuotientLess(pitch, x / pitch, x % pitch, y / pitch, y % pitch);
  }

  /** A call after the end of a period opens one in a later cell, which contains the call. */
  lemma NextPeriod(s: State, now: int)
    requires s.interval >= MILLISECOND && s.start <= now && s.periodStart + s.interval < now
    ensures var at := CurrentIntervalStart(s, now);
            && s.start <= at <= now <= at + s.interval
            && Aligned(s, at) && Cell(s, s.periodStart) < Cell(s, at)
  {
    PitchPositive(s.interval);
    StartIsAligned(s, now);
    CellMonotone(s, s.periodStart, now);
    StartNotBefore(s, now);
  }

  lemma UpdateKeepsInv(s: State, calls: nat, now: int)
    requires Inv(s, calls) && s.start <= now
    ensures Inv(Update(s, now), calls + 1)
    ensures s.periodStart <= now ==> Update(s, now).periodStart <= now <= Update(s, now).periodStart + s.interval
  {
    if s.periodStart + s.interval < now {
      NextPeriod(s, now);
      OpenKeepsBooks(s, calls, Cells(s.interval, s.start), Alignment(s.interval, s.start), CurrentIntervalStart(s, now));
    }
  }

  lemma StartNotBefore(s: State, now: int)
    requires s.interval >= MILLISECOND && s.start <= now
    ensures s.start <= CurrentIntervalStart(s, now)
  {
    var m, n := (now - s.start) / MILLISECOND, s.interval / MILLISECOND;
    assert m % n <= m;
    assert m % n * MILLISECOND <= m * MILLISECOND <= now - s.start;
  }

  /**
   * Over every run: the counts reported and the count pending add up to the calls made; every
   * period starts less than a millisecond into a grid cell; and the cells strictly increase.
   */
  lemma {:induction false} CallsAreCounted(interval: nat, start: int, times: seq<int>)
    requires interval >= MILLISECOND && Monotone(start, times)
    ensures Inv(Run(New(interval, start), times), |times|)
    ensures var s := Run(New(interval, start), times);
            times != [] ==> s.periodStart <= times[|times| - 1] <= s.periodStart + interval
  {
    PitchPositive(interval);
    if times == [] {
      DivModUnique(0, Pitch(interval), 0, 0);
    } else {
      var past, now := times[..|times| - 1], times[|times| - 1];
      CallsAreCounted(interval, start, past);
      var s := Run(New(interval, start), past);
      UpdateKeepsInv(s, |past|, now);
      assert past != [] ==> past[|past| - 1] <= now;
      assert past == [] ==> s == New(interval, start);
    }
  }

  /** With a whole number of milliseconds the grid is the interval itself. */
  lemma WholeMilliseconds(n: nat)
    ensures Pitch(n * MILLISECOND) == n * MILLISECOND
  {
    DivModUnique(n * MILLISECOND, MILLISECOND, n, 0);
  }

  /**
   * A logger divides by zero at some call if and only if its interval is under a millisecond; then
   * it does so at the first call after its first period.
   */
  lemma DividesByZeroIff(interval: nat, start: int)
    ensures DividesByZero(New(interval, start), start + interval + 1) <==> interval < MILLISECOND
    ensures interval >= MILLISECOND ==> forall s: State, now :: s.interval == interval ==> !DividesByZero(s, now)
  {
  }

  class Logger {
    const interval: nat
    const start: int
    var periodStart: int
    var periodCount: nat
    var reports: seq<Report>

    ghost function Abstract(): State
      reads this
    {
      State(interval, start, periodStart, periodCount, reports)
    }

    constructor (interval: nat, now: int)
      ensures Abstract() == New(interval, now)
    {
      this.interval, start, periodStart, periodCount, reports := interval, now, now, 0, [];
    }

    /** `reports` stands for the calls made to the callback; a division by zero comes after that call. */
    method CountCall(now: int) returns (ok: bool)
      requires start <= now
      modifies this
      ensures ok <==> !DividesByZero(old(Abstract()), now)
      ensures Abstract() == if ok then Update(old(Abstract()), now) else ClosePeriod(old(Abstract()))
    {
      var periodEnd := periodStart + interval;
      if periodEnd < now {
        if periodCount != 0 {
          reports := reports + [Report(periodCount, periodStart)];
        }
        periodCount := 0;
        if interval / MILLISECOND == 0 {
          return false;
        }
        var millisSince := (now - start) / MILLISECOND % (interval / MILLISECOND);
        periodStart := now - millisSince * MILLISECOND;
      }
      periodCount := periodCount + 1;
      return true;
    }
  }
}
