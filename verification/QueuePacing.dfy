/**
 * When the list of transmission records of the queuing-delay probe (prober/derp.go) overflows, for a
 * sender that is paced by a ticker and sweeps before every send.
 */
module QueuePacing {
  import opened Options
  import opened QueueProbe

  const SECOND: nat := 1_000_000_000

  /** The times of the sends so far. */
  function SendTimes(steps: seq<Step>): seq<int> {
    if steps == [] then []
    else SendTimes(steps[..|steps| - 1]) + if steps[|steps| - 1].Send? then [steps[|steps| - 1].at] else []
  }

  /** The last sweep since the last send. */
  function SweptSince(steps: seq<Step>): Option<int> {
    if steps == [] || steps[|steps| - 1].Send? then None
    else if steps[|steps| - 1].Sweep? then Some(steps[|steps| - 1].at)
    else SweptSince(steps[..|steps| - 1])
  }

  /**
   * A sweep at `swept` keeps the pace after the given sends: it comes as many periods after each of
   * them as there were sends since, or at most `late` earlier, and never before any of them.
   */
  ghost predicate OnPace(sends: seq<int>, period: nat, late: nat, swept: int) {
    forall i :: 0 <= i < |sends| ==> sends[i] <= swept && sends[i] + (|sends| - i) * period <= swept + late
  }

  /** A send needs a sweep since the send before it, on pace. */
  ghost predicate MaySend(period: nat, late: nat, steps: seq<Step>, at: int) {
    && SweptSince(steps).Some? && SweptSince(steps).value <= at
    && OnPace(SendTimes(steps), period, late, SweptSince(steps).value)
  }

  /** The sender keeps the pace; receptions come at any time. */
  ghost predicate Paced(period: nat, late: nat, steps: seq<Step>) {
    steps == []
    || (Paced(period, late, steps[..|steps| - 1])
        && (steps[|steps| - 1].Send? ==> MaySend(period, late, steps[..|steps| - 1], steps[|steps| - 1].at)))
  }

  /** Whenever a send comes, the list has room. */
  ghost predicate NeverOverflows(capacity: nat, timeout: int, period: nat, late: nat) {
    forall now, steps, at :: Paced(period, late, steps) && MaySend(period, late, steps, at) ==>
      |Exec(Init(capacity, timeout, now), steps).recs| < capacity
  }

  // ---- A ticker keeps the pace ----

  /** Ticks come a period apart or more, and each is dealt with no more than `late` after it came. */
  ghost predicate Ticked(ticks: seq<int>, sends: seq<int>, period: nat, late: nat) {
    && |ticks| == |sends|
    && (forall i :: 0 < i < |ticks| ==> ticks[i - 1] + period <= ticks[i])
    && (forall i :: 0 <= i < |ticks| ==> ticks[i] <= sends[i] <= ticks[i] + late)
  }

  lemma {:induction false} TicksApart(ticks: seq<int>, period: nat, i: nat, j: nat)
    requires forall k :: 0 < k < |ticks| ==> ticks[k - 1] + period <= ticks[k]
    requires i <= j < |ticks|
    ensures ticks[i] + (j - i) * period <= ticks[j]
  {
    if i < j {
      TicksApart(ticks, period, i, j - 1);
      assert (j - i) * period == (j - 1 - i) * period + period;
    }
  }

  /** The sweep for the next tick is on pace. */
  lemma TickerKeepsPace(ticks: seq<int>, sends: seq<int>, period: nat, late: nat, tick: int, swept: int)
    requires Ticked(ticks, sends, period, late) && tick <= swept
    requires forall i :: 0 <= i < |sends| ==> sends[i] <= swept
    requires ticks != [] ==> ticks[|ticks| - 1] + period <= tick
    ensures OnPace(sends, period, late, swept)
  {
    var all := ticks + [tick];
    forall i | 0 <= i < |sends|
      ensures sends[i] + (|sends| - i) * period <= swept + late
    {
      assert forall k :: 0 < k < |all| ==> all[k - 1] + period <= all[k];
      TicksApart(all, period, i, |ticks|);
    }
  }

  // ---- How long ago records were sent ----

  /** Some send at that time has at least k - 1 sends after it. */
  ghost predicate SentBefore(sends: seq<int>, at: int, k: int) {
    exists m :: 0 <= m < |sends| && m <= |sends| - k && sends[m] == at
  }

  /** Every record was sent before those behind it in the list, and `more` sends besides. */
  ghost predicate Traced(recs: seq<TxRecord>, sends: seq<int>, more: nat) {
    forall j :: 0 <= j < |recs| ==> SentBefore(sends, recs[j].at, |recs| - j + more)
  }

  lemma SentEarlier(sends: seq<int>, at: int, k: int, fewer: int)
    requires SentBefore(sends, at, k) && fewer <= k
    ensures SentBefore(sends, at, fewer)
  {
    var m :| 0 <= m < |sends| && m <= |sends| - k && sends[m] == at;
    assert m <= |sends| - fewer;
  }

  lemma {:induction false} SurvivorsTraced(recs: seq<TxRecord>, sends: seq<int>, more: nat, now: int, timeout: int)
    requires Traced(recs, sends, more)
    ensures var k := Survivors(recs, now, timeout);
            && Traced(k, sends, more) && |k| <= |recs|
            && forall i :: 0 <= i < |k| ==> !Expired(k[i], now, timeout)
  {
    if recs != [] {
      var before, last := recs[..|recs| - 1], recs[|recs| - 1];
      assert Traced(before, sends, more + 1) by {
        assert forall j :: 0 <= j < |before| ==> before[j] == recs[j];
      }
      SurvivorsTraced(before, sends, more + 1, now, timeout);
      TracedStep(Survivors(before, now, timeout), sends, more, last);
    }
  }

  lemma TracedStep(kept: seq<TxRecord>, sends: seq<int>, more: nat, last: TxRecord)
    requires Traced(kept, sends, more + 1) && SentBefore(sends, last.at, 1 + more)
    ensures Traced(kept, sends, more) && Traced(kept + [last], sends, more)
  {
    forall j | 0 <= j < |kept|
      ensures SentBefore(sends, kept[j].at, |kept| - j + more)
    {
      SentEarlier(sends, kept[j].at, |kept| - j + (more + 1), |kept| - j + more);
    }
    var next := kept + [last];
    forall j | 0 <= j < |next|
      ensures SentBefore(sends, next[j].at, |next| - j + more)
    {
      if j < |kept| {
        assert next[j] == kept[j] && |next| - j + more == |kept| - j + (more + 1);
      }
    }
  }

  lemma RemoveTraced(recs: seq<TxRecord>, sends: seq<int>, i: nat)
    requires Traced(recs, sends, 0) && i < |recs|
    ensures Traced(RemoveAt(recs, i), sends, 0)
    ensures forall j :: 0 <= j < |RemoveAt(recs, i)| ==> RemoveAt(recs, i)[j] in recs
  {
    var r := RemoveAt(recs, i);
    forall j | 0 <= j < |r|
      ensures SentBefore(sends, r[j].at, |r| - j + 0)
    {
      if j < i {
        SentEarlier(sends, recs[j].at, |recs| - j + 0, |r| - j + 0);
      } else {
        assert r[j] == recs[j + 1] && |r| - j + 0 == |recs| - (j + 1) + 0;
      }
    }
  }

  lemma SendTraced(recs: seq<TxRecord>, sends: seq<int>, rec: TxRecord)
    requires Traced(recs, sends, 0)
    ensures Traced(recs + [rec], sends + [rec.at], 0)
  {
    var next, all := recs + [rec], sends + [rec.at];
    forall j | 0 <= j < |next|
      ensures SentBefore(all, next[j].at, |next| - j + 0)
    {
      if j < |recs| {
        assert SentBefore(sends, recs[j].at, |recs| - j + 0);
        var m :| 0 <= m < |sends| && m <= |sends| - (|recs| - j + 0) && sends[m] == recs[j].at;
        assert all[m] == next[j].at && m <= |all| - (|next| - j + 0);
      } else {
        assert all[|sends|] == rec.at;
      }
    }
  }

  /** Records can be traced to their sends, and none was due at the sweep since. */
  ghost predicate Roomy(recs: seq<TxRecord>, timeout: int, sends: seq<int>, swept: Option<int>) {
    && Traced(recs, sends, 0)
    && (swept.Some? ==> forall i :: 0 <= i < |recs| ==> !Expired(recs[i], swept.value, timeout))
  }

  /** What capacity, timeout, period and lateness must satisfy. */
  predicate Enough(capacity: nat, timeout: int, period: nat, late: nat) {
    timeout <= 0 || timeout + late <= capacity * period
  }

  lemma RoomForOne(recs: seq<TxRecord>, capacity: nat, timeout: int, period: nat, late: nat, sends: seq<int>, swept: int)
    requires Roomy(recs, timeout, sends, Some(swept)) && OnPace(sends, period, late, swept)
    requires Enough(capacity, timeout, period, late) && 1 <= capacity
    ensures |recs| < capacity
  {
    if recs != [] {
      assert SentBefore(sends, recs[0].at, |recs| - 0 + 0);
      var m :| 0 <= m < |sends| && m <= |sends| - |recs| && sends[m] == recs[0].at;
      assert !Expired(recs[0], swept, timeout);
      Products(|recs|, |sends| - m, period);
      LessFromProduct(|recs|, capacity, period);
    }
  }

  lemma LessFromProduct(a: nat, b: nat, p: nat)
    requires a * p < b * p
    ensures a < b
  {
    assert b <= a ==> b * p <= a * p;
  }

  lemma SweepRoomy(s: State, at: int, sends: seq<int>)
    requires Traced(s.recs, sends, 0)
    ensures Roomy(AfterSweep(s, at).recs, s.timeout, sends, Some(at)) && |AfterSweep(s, at).recs| <= |s.recs|
  {
    SurvivorsTraced(s.recs, sends, 0, at, s.timeout);
  }

  lemma SendRoomy(s: State, at: int, sends: seq<int>)
    requires Traced(s.recs, sends, 0) && |s.recs| < s.capacity
    ensures Roomy(AfterSend(s, at).recs, s.timeout, sends + [at], None) && |AfterSend(s, at).recs| == |s.recs| + 1
  {
    SendTraced(s.recs, sends, TxRecord(at, s.next));
  }

  lemma ReceiveRoomy(s: State, sq: nat, at: int, sends: seq<int>, swept: Option<int>)
    requires Roomy(s.recs, s.timeout, sends, swept)
    ensures Roomy(AfterReceive(s, sq, at).recs, s.timeout, sends, swept) && |AfterReceive(s, sq, at).recs| <= |s.recs|
  {
    if Position(s.recs, sq) >= 0 {
      RemoveTraced(s.recs, sends, Position(s.recs, sq));
    }
  }

  /** In every paced run records can be traced to their sends, and fit. */
  lemma {:induction false} PacedKeepsRoom(capacity: nat, timeout: int, period: nat, late: nat, now: int, steps: seq<Step>)
    requires Paced(period, late, steps) && Enough(capacity, timeout, period, late) && 1 <= capacity
    ensures var s := Exec(Init(capacity, timeout, now), steps);
            && s.capacity == capacity && s.timeout == timeout && |s.recs| <= capacity
            && Roomy(s.recs, timeout, SendTimes(steps), SweptSince(steps))
  {
    if steps != [] {
      var past, step := steps[..|steps| - 1], steps[|steps| - 1];
      PacedKeepsRoom(capacity, timeout, period, late, now, past);
      var s, sends := Exec(Init(capacity, timeout, now), past), SendTimes(past);
      StepTimes(steps);
      match step {
        case Sweep(at) => SweepRoomy(s, at, sends);
        case Send(at) =>
          RoomForOne(s.recs, capacity, timeout, period, late, sends, SweptSince(past).value);
          SendRoomy(s, at, sends);
        case Receive(sq, at) => ReceiveRoomy(s, sq, at, sends, SweptSince(past));
      }
    }
  }

  lemma StepTimes(steps: seq<Step>)
    requires steps != []
    ensures var past, step := steps[..|steps| - 1], steps[|steps| - 1];
            && SendTimes(steps) == (if step.Send? then SendTimes(past) + [step.at] else SendTimes(past))
            && SweptSince(steps) == if step.Send? then None else if step.Sweep? then Some(step.at) else SweptSince(past)
  {
  }

  // ---- A list that is too short fills up ----

  /** The first tick is dealt with as late as can be, and each later one as soon as it has come. */
  function TickTime(n: nat, period: nat, late: nat): nat {
    if n * period <= late then late else n * period
  }

  function Ticks(n: nat, period: nat, late: nat): seq<Step> {
    if n == 0 then []
    else Ticks(n - 1, period, late) + [Sweep(TickTime(n - 1, period, late))] + [Send(TickTime(n - 1, period, late))]
  }

  lemma {:induction false} NoneExpired(recs: seq<TxRecord>, now: int, timeout: int)
    requires forall i :: 0 <= i < |recs| ==> !Expired(recs[i], now, timeout)
    ensures Survivors(recs, now, timeout) == recs
  {
    if recs != [] {
      NoneExpired(recs[..|recs| - 1], now, timeout);
    }
  }

  lemma PacedSweep(period: nat, late: nat, steps: seq<Step>, at: int)
    requires Paced(period, late, steps) && OnPace(SendTimes(steps), period, late, at)
    ensures Paced(period, late, steps + [Sweep(at)]) && MaySend(period, late, steps + [Sweep(at)], at)
    ensures SendTimes(steps + [Sweep(at)]) == SendTimes(steps)
  {
    assert (steps + [Sweep(at)])[..|steps|] == steps;
    assert SendTimes(steps + [Sweep(at)]) == SendTimes(steps);
  }

  lemma PacedSend(period: nat, late: nat, steps: seq<Step>, at: int)
    requires Paced(period, late, steps) && MaySend(period, late, steps, at)
    ensures Paced(period, late, steps + [Send(at)]) && SendTimes(steps + [Send(at)]) == SendTimes(steps) + [at]
  {
    assert (steps + [Send(at)])[..|steps|] == steps;
  }

  /** The sends of n ticks. */
  ghost predicate TickSends(sends: seq<int>, n: nat, period: nat, late: nat) {
    |sends| == n && forall i :: 0 <= i < n ==> sends[i] == TickTime(i, period, late)
  }

  lemma Products(n: nat, m: nat, p: nat)
    requires n <= m
    ensures n * p <= m * p && (m - n) * p == m * p - n * p
  {
  }

  /** Tick n is on pace after those before it. */
  lemma TickOnPace(sends: seq<int>, n: nat, period: nat, late: nat)
    requires TickSends(sends, n, period, late)
    ensures OnPace(sends, period, late, TickTime(n, period, late))
  {
    forall i | 0 <= i < |sends|
      ensures sends[i] <= TickTime(n, period, late)
      ensures sends[i] + (|sends| - i) * period <= TickTime(n, period, late) + late
    {
      Products(i, n, period);
    }
  }

  /** A record for every tick, none from before the first. */
  ghost predicate AllThere(s: State, n: nat, capacity: nat, timeout: int, late: nat) {
    && s.capacity == capacity && s.timeout == timeout && |s.recs| == n
    && forall i :: 0 <= i < n ==> late <= s.recs[i].at
  }

  lemma NotYetDue(n: nat, capacity: nat, timeout: int, period: nat, late: nat)
    requires n <= capacity && !Enough(capacity, timeout, period, late)
    ensures TickTime(n, period, late) - late < timeout
  {
    Products(n, capacity, period);
  }

  /** The sweep of tick n removes nothing. */
  lemma TickSweep(n: nat, capacity: nat, timeout: int, period: nat, late: nat, past: seq<Step>)
    requires n <= capacity && !Enough(capacity, timeout, period, late)
    requires Paced(period, late, past) && TickSends(SendTimes(past), n, period, late)
    requires AllThere(Exec(Init(capacity, timeout, 0), past), n, capacity, timeout, late)
    ensures var at := TickTime(n, period, late); var steps := past + [Sweep(at)];
            && Paced(period, late, steps) && MaySend(period, late, steps, at) && SendTimes(steps) == SendTimes(past)
            && AllThere(Exec(Init(capacity, timeout, 0), steps), n, capacity, timeout, late)
  {
    var at, s := TickTime(n, period, late), Exec(Init(capacity, timeout, 0), past);
    TickOnPace(SendTimes(past), n, period, late);
    PacedSweep(period, late, past, at);
    ExecSnoc(Init(capacity, timeout, 0), past, Sweep(at));
    NotYetDue(n, capacity, timeout, period, late);
    NoneExpired(s.recs, at, timeout);
  }

  /** A run of n ticks that left every record in the list. */
  ghost predicate Filled(steps: seq<Step>, n: nat, capacity: nat, timeout: int, period: nat, late: nat) {
    && Paced(period, late, steps) && TickSends(SendTimes(steps), n, period, late)
    && AllThere(Exec(Init(capacity, timeout, 0), steps), n, capacity, timeout, late)
  }

  lemma OneTick(n: nat, capacity: nat, timeout: int, period: nat, late: nat, past: seq<Step>)
    requires n < capacity && !Enough(capacity, timeout, period, late) && Filled(past, n, capacity, timeout, period, late)
    ensures var at := TickTime(n, period, late);
            Filled(past + [Sweep(at)] + [Send(at)], n + 1, capacity, timeout, period, late)
  {
    var at := TickTime(n, period, late);
    var swept := past + [Sweep(at)];
    TickSweep(n, capacity, timeout, period, late, past);
    PacedSend(period, late, swept, at);
    TickSendsSnoc(SendTimes(past), n, period, late);
    ExecSnoc(Init(capacity, timeout, 0), swept, Send(at));
    SendThere(Exec(Init(capacity, timeout, 0), swept), n, capacity, timeout, late, at);
  }

  lemma {:induction false} TicksFill(n: nat, capacity: nat, timeout: int, period: nat, late: nat)
    requires n <= capacity && !Enough(capacity, timeout, period, late)
    ensures Filled(Ticks(n, period, late), n, capacity, timeout, period, late)
  {
    if n > 0 {
      TicksFill(n - 1, capacity, timeout, period, late);
      OneTick(n - 1, capacity, timeout, period, late, Ticks(n - 1, period, late));
    }
  }

  lemma TickSendsSnoc(sends: seq<int>, n: nat, period: nat, late: nat)
    requires TickSends(sends, n, period, late)
    ensures TickSends(sends + [TickTime(n, period, late)], n + 1, period, late)
  {
  }

  lemma SendThere(s: State, n: nat, capacity: nat, timeout: int, late: nat, at: int)
    requires AllThere(s, n, capacity, timeout, late) && n < capacity && late <= at
    ensures AllThere(AfterSend(s, at), n + 1, capacity, timeout, late)
  {
  }

  /**
   * Overflow is unexpected, as the source calls it, exactly if timeout and lateness together are no
   * more than one period per place, or packets time out at once.
   */
  lemma NeverOverflowsIff(capacity: nat, timeout: int, period: nat, late: nat)
    requires 1 <= capacity
    ensures NeverOverflows(capacity, timeout, period, late) <==> Enough(capacity, timeout, period, late)
  {
    if Enough(capacity, timeout, period, late) {
      forall now, steps, at | Paced(period, late, steps) && MaySend(period, late, steps, at)
        ensures |Exec(Init(capacity, timeout, now), steps).recs| < capacity
      {
        PacedKeepsRoom(capacity, timeout, period, late, now, steps);
        RoomForOne(Exec(Init(capacity, timeout, now), steps).recs, capacity, timeout, period, late,
                   SendTimes(steps), SweptSince(steps).value);
      }
    } else {
      TicksFill(capacity, capacity, timeout, period, late);
      TickSweep(capacity, capacity, timeout, period, late, Ticks(capacity, period, late));
    }
  }

  // ---- The capacity and the period the source chooses ----

  /** The packets sent in one timeout, rounded up, and one more. */
  function ChosenCapacity(perSecond: nat, timeout: nat): nat {
    (perSecond * timeout + SECOND - 1) / SECOND + 1
  }

  /** Whole nanoseconds between ticks. */
  function ChosenPeriod(perSecond: nat): nat
    requires perSecond > 0
  {
    SECOND / perSecond
  }

  /** What rounding the capacity up spares: more than a second's worth of packets, and less than two. */
  function Spare(perSecond: nat, timeout: nat): int {
    ChosenCapacity(perSecond, timeout) * SECOND - perSecond * timeout
  }

  lemma SpareRange(perSecond: nat, timeout: nat)
    ensures SECOND <= Spare(perSecond, timeout) < 2 * SECOND
  {
    var x := perSecond * timeout;
    assert (x + SECOND - 1) / SECOND * SECOND + (x + SECOND - 1) % SECOND == x + SECOND - 1;
  }

  /** What the whole-nanosecond ticks lose of a second, for each place, and what is sent during the lateness. */
  function Uses(perSecond: nat, timeout: nat, late: nat): nat
    requires perSecond > 0
  {
    ChosenCapacity(perSecond, timeout) * (SECOND % perSecond) + perSecond * late
  }

  /**
   * The chosen capacity suffices if and only if what it spares covers what the whole-nanosecond ticks
   * lose of a second, for each place, and what is sent during the lateness.
   */
  lemma ChosenNeverOverflowsIff(perSecond: nat, timeout: nat, late: nat)
    requires perSecond > 0
    ensures NeverOverflows(ChosenCapacity(perSecond, timeout), timeout, ChosenPeriod(perSecond), late)
       <==> timeout == 0 || Uses(perSecond, timeout, late) <= Spare(perSecond, timeout)
  {
    var n, p := ChosenCapacity(perSecond, timeout), ChosenPeriod(perSecond);
    assert SECOND == perSecond * p + SECOND % perSecond;
    NeverOverflowsIff(n, timeout, p, late);
    SpareCovers(perSecond, timeout, late, n, p, SECOND, SECOND % perSecond);
  }

  lemma SpareCovers(q: nat, timeout: nat, late: nat, n: nat, p: nat, second: nat, r: nat)
    requires q > 0 && second == q * p + r
    ensures timeout + late <= n * p <==> n * r + q * late <= n * second - q * timeout
  {
    Distribute(n, second, q, p, r);
    ScaleLess(q, timeout + late, n * p);
    assert q * (timeout + late) == q * timeout + q * late;
  }

  lemma Distribute(n: nat, second: nat, q: nat, p: nat, r: nat)
    requires second == q * p + r
    ensures n * second == q * (n * p) + n * r
  {
  }

  lemma ScaleLess(q: nat, a: nat, b: nat)
    requires q > 0
    ensures q * a <= q * b <==> a <= b
  {
    assert a <= b ==> q * a <= q * b;
    assert a > b ==> q * a > q * b;
  }

  /** At a rate that divides a second it suffices whenever each tick is dealt with before the next. */
  lemma EvenRateNeverOverflows(perSecond: nat, timeout: nat, late: nat)
    requires perSecond > 0 && SECOND % perSecond == 0 && late <= ChosenPeriod(perSecond)
    ensures NeverOverflows(ChosenCapacity(perSecond, timeout), timeout, ChosenPeriod(perSecond), late)
  {
    SpareRange(perSecond, timeout);
    EvenUse(perSecond, timeout, late);
    ChosenNeverOverflowsIff(perSecond, timeout, late);
  }

  lemma EvenUse(perSecond: nat, timeout: nat, late: nat)
    requires perSecond > 0 && SECOND % perSecond == 0 && late <= ChosenPeriod(perSecond)
    ensures Uses(perSecond, timeout, late) <= SECOND
  {
    ScaleLess(perSecond, late, ChosenPeriod(perSecond));
    assert ChosenCapacity(perSecond, timeout) * 0 == 0;
  }

  /** A rate at which it does not suffice for a timeout of five seconds, though every tick is dealt with at once. */
  lemma UnevenRateOverflows()
    ensures !NeverOverflows(ChosenCapacity(20_001, 5 * SECOND), 5 * SECOND, ChosenPeriod(20_001), 0)
  {
    assert ChosenPeriod(20_001) == 49_997 && ChosenCapacity(20_001, 5 * SECOND) == 100_006;
    NeverOverflowsIff(100_006, 5 * SECOND, 49_997, 0);
  }
}
