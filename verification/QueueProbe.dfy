/**
 * Accounting of the queuing-delay probe (prober/derp.go): a sender and a receiver share an ordered,
 * bounded list of transmission records under a mutex.
 */
module QueueProbe {
  import opened Bytes

  datatype TxRecord = TxRecord(at: int, sq: nat)

  /** What became of one packet. */
  datatype Outcome = Dropped(sq: nat) | Measured(sq: nat, rtt: int)

  /**
   * `dropped` and `delays` are the metrics and `next` the 64-bit sequence number; the rest is
   * bookkeeping: `sent` counts the records ever appended and `outcomes` lists what became of them.
   */
  datatype State = State(capacity: nat, timeout: int, recs: seq<TxRecord>, next: nat, sent: nat,
                         dropped: nat, delays: seq<int>, outcomes: seq<Outcome>, now: int, sweptAt: int)

  function Init(capacity: nat, timeout: int, now: int): State {
    State(capacity, timeout, [], 0, 0, 0, [], [], now, now)
  }

  // ---- The three critical sections ----

  predicate Expired(r: TxRecord, now: int, timeout: int) {
    now - r.at >= timeout
  }

  function Survivors(recs: seq<TxRecord>, now: int, timeout: int): seq<TxRecord> {
    if recs == [] then []
    else
      var before := Survivors(recs[..|recs| - 1], now, timeout);
      if Expired(recs[|recs| - 1], now, timeout) then before else before + [recs[|recs| - 1]]
  }

  function Losses(recs: seq<TxRecord>, now: int, timeout: int): seq<Outcome> {
    if recs == [] then []
    else
      var before := Losses(recs[..|recs| - 1], now, timeout);
      if Expired(recs[|recs| - 1], now, timeout) then before + [Dropped(recs[|recs| - 1].sq)] else before
  }

  function AfterSweep(s: State, now: int): State {
    var losses := Losses(s.recs, now, s.timeout);
    s.(recs := Survivors(s.recs, now, s.timeout), dropped := s.dropped + |losses|, outcomes := s.outcomes + losses,
       now := now, sweptAt := now)
  }

  function RemoveAt(recs: seq<TxRecord>, i: nat): seq<TxRecord>
    requires i < |recs|
  {
    recs[..i] + recs[i + 1..]
  }

  /** A full list loses its oldest record to make room. */
  function Room(recs: seq<TxRecord>, capacity: nat): seq<TxRecord> {
    if |recs| == capacity && recs != [] then RemoveAt(recs, 0) else recs
  }

  function Evicted(recs: seq<TxRecord>, capacity: nat): seq<Outcome> {
    if |recs| == capacity && recs != [] then [Dropped(recs[0].sq)] else []
  }

  function AfterSend(s: State, now: int): State {
    var evicted := Evicted(s.recs, s.capacity);
    s.(recs := Room(s.recs, s.capacity) + [TxRecord(now, s.next)],
       dropped := s.dropped + |evicted|, outcomes := s.outcomes + evicted,
       next := (s.next + 1) % UINT64, sent := s.sent + 1, now := now)
  }

  /** The position of a sequence number, or -1. */
  function Position(recs: seq<TxRecord>, sq: nat): (i: int)
    ensures -1 <= i < |recs|
    ensures i >= 0 ==> recs[i].sq == sq
    ensures i < 0 ==> forall j :: 0 <= j < |recs| ==> recs[j].sq != sq
  {
    if recs == [] then -1
    else if recs[|recs| - 1].sq == sq then |recs| - 1
    else Position(recs[..|recs| - 1], sq)
  }

  /** `at` is read before the lock is taken, so it may lie before times already recorded. */
  function AfterReceive(s: State, sq: nat, at: int): State {
    var i := Position(s.recs, sq);
    if i < 0 then s
    else
      var rtt := at - s.recs[i].at;
      s.(recs := RemoveAt(s.recs, i), delays := s.delays + [rtt], outcomes := s.outcomes + [Measured(sq, rtt)])
  }

  // ---- Runs: any interleaving of the critical sections ----

  datatype Step = Sweep(at: int) | Send(at: int) | Receive(sq: nat, at: int)

  function Apply(s: State, step: Step): State {
    match step
    case Sweep(at) => AfterSweep(s, at)
    case Send(at) => AfterSend(s, at)
    case Receive(sq, at) => AfterReceive(s, sq, at)
  }

  function Sends(steps: seq<Step>): nat {
    if steps == [] then 0 else Sends(steps[..|steps| - 1]) + if steps[|steps| - 1].Send? then 1 else 0
  }

  function Exec(s: State, steps: seq<Step>): State {
    if steps == [] then s else Apply(Exec(s, steps[..|steps| - 1]), steps[|steps| - 1])
  }

  /** The last time stamp taken under the lock. */
  function Clock(now: int, steps: seq<Step>): int {
    if steps == [] then now
    else if steps[|steps| - 1].Receive? then Clock(now, steps[..|steps| - 1])
    else steps[|steps| - 1].at
  }

  /** Sweeps and sends read the clock under the lock, so their time stamps do not go back. */
  ghost predicate Monotone(now: int, steps: seq<Step>) {
    steps == []
    || (Monotone(now, steps[..|steps| - 1])
        && (steps[|steps| - 1].Receive? || Clock(now, steps[..|steps| - 1]) <= steps[|steps| - 1].at))
  }

  // ---- Exactly-once accounting ----

  function One(b: bool): nat {
    if b then 1 else 0
  }

  /** How often a sequence number is outstanding. */
  function Outstanding(recs: seq<TxRecord>, sq: nat): nat {
    if recs == [] then 0 else Outstanding(recs[..|recs| - 1], sq) + One(recs[|recs| - 1].sq == sq)
  }

  /** How often a sequence number has been settled. */
  function Fates(outcomes: seq<Outcome>, sq: nat): nat {
    if outcomes == [] then 0 else Fates(outcomes[..|outcomes| - 1], sq) + One(outcomes[|outcomes| - 1].sq == sq)
  }

  lemma {:induction false} OutstandingConcat(a: seq<TxRecord>, b: seq<TxRecord>, sq: nat)
    ensures Outstanding(a + b, sq) == Outstanding(a, sq) + Outstanding(b, sq)
  {
    if b == [] {
      assert a + b == a;
    } else {
      OutstandingConcat(a, b[..|b| - 1], sq);
      assert (a + b)[..|a + b| - 1] == a + b[..|b| - 1];
    }
  }

  lemma {:induction false} FatesConcat(a: seq<Outcome>, b: seq<Outcome>, sq: nat)
    ensures Fates(a + b, sq) == Fates(a, sq) + Fates(b, sq)
  {
    if b == [] {
      assert a + b == a;
    } else {
      FatesConcat(a, b[..|b| - 1], sq);
      assert (a + b)[..|a + b| - 1] == a + b[..|b| - 1];
    }
  }

  ghost predicate Increasing(recs: seq<TxRecord>) {
    forall i, j :: 0 <= i < j < |recs| ==> recs[i].sq < recs[j].sq
  }

  function CountDropped(outcomes: seq<Outcome>): nat {
    if outcomes == [] then 0 else CountDropped(outcomes[..|outcomes| - 1]) + if outcomes[|outcomes| - 1].Dropped? then 1 else 0
  }

  function Delays(outcomes: seq<Outcome>): seq<int> {
    if outcomes == [] then []
    else Delays(outcomes[..|outcomes| - 1]) + if outcomes[|outcomes| - 1].Measured? then [outcomes[|outcomes| - 1].rtt] else []
  }

  lemma {:induction false} CountsAdd(outcomes: seq<Outcome>)
    ensures CountDropped(outcomes) + |Delays(outcomes)| == |outcomes|
  {
    if outcomes != [] {
      CountsAdd(outcomes[..|outcomes| - 1]);
    }
  }

  lemma SettleOne(outcomes: seq<Outcome>, o: Outcome)
    ensures CountDropped(outcomes + [o]) == CountDropped(outcomes) + One(o.Dropped?)
    ensures Delays(outcomes + [o]) == Delays(outcomes) + if o.Measured? then [o.rtt] else []
  {
    assert (outcomes + [o])[..|outcomes|] == outcomes;
  }

  lemma EvictedCount(outcomes: seq<Outcome>, recs: seq<TxRecord>, capacity: nat)
    ensures CountDropped(outcomes + Evicted(recs, capacity)) == CountDropped(outcomes) + |Evicted(recs, capacity)|
    ensures Delays(outcomes + Evicted(recs, capacity)) == Delays(outcomes)
  {
    if |recs| == capacity && recs != [] {
      SettleOne(outcomes, Dropped(recs[0].sq));
    } else {
      assert outcomes + [] == outcomes;
    }
  }

  lemma {:induction false} LossesCount(outcomes: seq<Outcome>, recs: seq<TxRecord>, now: int, timeout: int)
    ensures CountDropped(outcomes + Losses(recs, now, timeout)) == CountDropped(outcomes) + |Losses(recs, now, timeout)|
    ensures Delays(outcomes + Losses(recs, now, timeout)) == Delays(outcomes)
  {
    if recs == [] {
      assert outcomes + [] == outcomes;
    } else {
      var before, last := recs[..|recs| - 1], recs[|recs| - 1];
      LossesCount(outcomes, before, now, timeout);
      if Expired(last, now, timeout) {
        var l := Losses(before, now, timeout);
        assert outcomes + (l + [Dropped(last.sq)]) == (outcomes + l) + [Dropped(last.sq)];
        SettleOne(outcomes + l, Dropped(last.sq));
      }
    }
  }

  ghost predicate Accounted(s: State, sq: nat) {
    Outstanding(s.recs, sq) + Fates(s.outcomes, sq) == One(sq < s.sent)
  }

  /** Of the numbers sent, each is outstanding once or settled once; of the others, none is either. */
  ghost predicate Ledger(s: State) {
    |s.recs| + |s.outcomes| == s.sent && forall sq: nat :: Accounted(s, sq)
  }

  /** A record was sent since the last sweep, or was not due at that sweep. */
  ghost predicate Timely(r: TxRecord, s: State) {
    r.sq < s.sent && r.at <= s.now && (s.sweptAt <= r.at || s.sweptAt - r.at < s.timeout)
  }

  ghost predicate Inv(s: State) {
    && 1 <= s.capacity
    && s.sent <= UINT64 && s.next == s.sent % UINT64
    && |s.recs| <= s.capacity
    && Increasing(s.recs)
    && Ledger(s)
    && s.dropped == CountDropped(s.outcomes) && s.delays == Delays(s.outcomes)
    && s.sweptAt <= s.now
    && forall i :: 0 <= i < |s.recs| ==> Timely(s.recs[i], s)
  }

  /** Every survivor is one of the records, and survivors keep their order. */
  lemma {:induction false} SurvivorsOk(recs: seq<TxRecord>, now: int, timeout: int)
    requires Increasing(recs)
    ensures var k := Survivors(recs, now, timeout);
            && Increasing(k)
            && (forall i :: 0 <= i < |k| ==> k[i] in recs && !Expired(k[i], now, timeout))
    ensures |Survivors(recs, now, timeout)| + |Losses(recs, now, timeout)| == |recs|
  {
    if recs != [] {
      var before, last := recs[..|recs| - 1], recs[|recs| - 1];
      SurvivorsOk(before, now, timeout);
      var k := Survivors(before, now, timeout);
      assert forall i :: 0 <= i < |k| ==> k[i].sq < last.sq;
    }
  }

  lemma {:induction false} SweepAccounts(recs: seq<TxRecord>, now: int, timeout: int, sq: nat)
    ensures Outstanding(Survivors(recs, now, timeout), sq) + Fates(Losses(recs, now, timeout), sq) == Outstanding(recs, sq)
  {
    if recs != [] {
      SweepAccounts(recs[..|recs| - 1], now, timeout, sq);
    }
  }

  lemma SweepKeepsInv(s: State, now: int)
    requires Inv(s) && s.now <= now
    ensures Inv(AfterSweep(s, now))
  {
    SurvivorsOk(s.recs, now, s.timeout);
    LossesCount(s.outcomes, s.recs, now, s.timeout);
    var s' := AfterSweep(s, now);
    forall sq: nat
      ensures Accounted(s', sq)
    {
      assert Accounted(s, sq);
      SweepAccounts(s.recs, now, s.timeout, sq);
      FatesConcat(s.outcomes, Losses(s.recs, now, s.timeout), sq);
    }
    forall i | 0 <= i < |s'.recs|
      ensures Timely(s'.recs[i], s')
    {
      var j :| 0 <= j < |s.recs| && s.recs[j] == s'.recs[i];
      assert Timely(s.recs[j], s);
    }
  }

  lemma RemoveOk(recs: seq<TxRecord>, i: nat)
    requires i < |recs| && Increasing(recs)
    ensures Increasing(RemoveAt(recs, i))
    ensures forall j :: 0 <= j < |RemoveAt(recs, i)| ==> RemoveAt(recs, i)[j] in recs
  {
  }

  lemma RemoveAccounts(recs: seq<TxRecord>, i: nat, sq: nat)
    requires i < |recs|
    ensures Outstanding(RemoveAt(recs, i), sq) + One(recs[i].sq == sq) == Outstanding(recs, sq)
  {
    assert recs == recs[..i] + ([recs[i]] + recs[i + 1..]);
    OutstandingConcat(recs[..i], [recs[i]] + recs[i + 1..], sq);
    OutstandingConcat([recs[i]], recs[i + 1..], sq);
    OutstandingConcat(recs[..i], recs[i + 1..], sq);
  }

  lemma SendAccounts(s: State, now: int, sq: nat)
    ensures var s' := AfterSend(s, now);
            Outstanding(s'.recs, sq) + Fates(s'.outcomes, sq)
            == Outstanding(s.recs, sq) + Fates(s.outcomes, sq) + One(s.next == sq)
  {
    OutstandingConcat(Room(s.recs, s.capacity), [TxRecord(now, s.next)], sq);
    FatesConcat(s.outcomes, Evicted(s.recs, s.capacity), sq);
    if |s.recs| == s.capacity && s.recs != [] {
      RemoveAccounts(s.recs, 0, sq);
    }
  }

  lemma SendKeepsOrder(s: State, now: int)
    requires Increasing(s.recs) && s.next == s.sent && s.sweptAt <= s.now <= now
    requires forall i :: 0 <= i < |s.recs| ==> Timely(s.recs[i], s)
    ensures Increasing(AfterSend(s, now).recs)
    ensures var s' := AfterSend(s, now); forall i :: 0 <= i < |s'.recs| ==> Timely(s'.recs[i], s')
  {
    var kept := Room(s.recs, s.capacity);
    if kept != s.recs {
      RemoveOk(s.recs, 0);
    }
    forall j | 0 <= j < |kept|
      ensures Timely(kept[j], s)
    {
      var i :| 0 <= i < |s.recs| && s.recs[i] == kept[j];
    }
    assert AfterSend(s, now).recs == kept + [TxRecord(now, s.next)];
  }

  lemma SendKeepsInv(s: State, now: int)
    requires Inv(s) && s.now <= now && s.sent < UINT64
    ensures Inv(AfterSend(s, now))
  {
    SendKeepsOrder(s, now);
    EvictedCount(s.outcomes, s.recs, s.capacity);
    var s' := AfterSend(s, now);
    forall sq: nat
      ensures Accounted(s', sq)
    {
      assert Accounted(s, sq);
      SendAccounts(s, now, sq);
    }
  }

  lemma ReceiveKeepsInv(s: State, sq: nat, at: int)
    requires Inv(s)
    ensures Inv(AfterReceive(s, sq, at))
  {
    var i := Position(s.recs, sq);
    if i >= 0 {
      RemoveOk(s.recs, i);
      SettleOne(s.outcomes, Measured(sq, at - s.recs[i].at));
      var s' := AfterReceive(s, sq, at);
      forall q: nat
        ensures Accounted(s', q)
      {
        assert Accounted(s, q);
        RemoveAccounts(s.recs, i, q);
        FatesConcat(s.outcomes, [Measured(sq, at - s.recs[i].at)], q);
      }
      forall j | 0 <= j < |s'.recs|
        ensures Timely(s'.recs[j], s')
      {
        var k :| 0 <= k < |s.recs| && s.recs[k] == s'.recs[j];
        assert Timely(s.recs[k], s);
      }
    }
  }

  lemma {:induction false} RunFromKeepsInv(s: State, steps: seq<Step>)
    requires Inv(s) && Monotone(s.now, steps) && s.sent + Sends(steps) <= UINT64
    ensures var t := Exec(s, steps);
            && Inv(t) && t.sent == s.sent + Sends(steps) && t.now == Clock(s.now, steps)
            && t.capacity == s.capacity && t.timeout == s.timeout
  {
    if steps != [] {
      var past, step := steps[..|steps| - 1], steps[|steps| - 1];
      RunFromKeepsInv(s, past);
      var t := Exec(s, past);
      match step
      case Sweep(at) => SweepKeepsInv(t, at);
      case Send(at) => SendKeepsInv(t, at);
      case Receive(sq, at) => ReceiveKeepsInv(t, sq, at);
    }
  }

  lemma RunKeepsInv(capacity: nat, timeout: int, now: int, steps: seq<Step>)
    requires 1 <= capacity && Monotone(now, steps) && Sends(steps) <= UINT64
    ensures Inv(Exec(Init(capacity, timeout, now), steps))
    ensures var s := Exec(Init(capacity, timeout, now), steps);
            s.sent == Sends(steps) && s.capacity == capacity && s.timeout == timeout
            && s.now == Clock(now, steps)
  {
    RunFromKeepsInv(Init(capacity, timeout, now), steps);
  }

  /**
   * Conservation over every run: records appended are drops plus observations plus records
   * outstanding; the list stays ordered and within its capacity; and every sequence number has
   * exactly one fate or is still outstanding, and no other number has either.
   */
  lemma Conservation(capacity: nat, timeout: int, now: int, steps: seq<Step>)
    requires 1 <= capacity && Monotone(now, steps) && Sends(steps) <= UINT64
    ensures var s := Exec(Init(capacity, timeout, now), steps);
            && Sends(steps) == s.dropped + |s.delays| + |s.recs|
            && |s.recs| <= capacity && Increasing(s.recs)
            && Ledger(s)
  {
    RunKeepsInv(capacity, timeout, now, steps);
    var s := Exec(Init(capacity, timeout, now), steps);
    CountsAdd(s.outcomes);
  }

  /** A measured round trip exceeds the timeout by less than the time since the last sweep. */
  lemma MeasuredDelayBound(s: State, sq: nat, at: int)
    requires Inv(s) && 0 < s.timeout && Position(s.recs, sq) >= 0
    ensures var r := s.recs[Position(s.recs, sq)];
            && AfterReceive(s, sq, at).outcomes == s.outcomes + [Measured(sq, at - r.at)]
            && at - r.at < s.timeout + (at - s.sweptAt)
  {
    assert Timely(s.recs[Position(s.recs, sq)], s);
  }

  // ---- Which packets are measured ----

  /** An append now would push the record of this number out. */
  predicate Evicts(s: State, sq: nat) {
    |s.recs| == s.capacity && s.recs != [] && s.recs[0].sq == sq
  }

  /** The step removes the record from the list, if it is there. */
  predicate TakesAway(s: State, step: Step, rec: TxRecord) {
    match step
    case Sweep(at) => Expired(rec, at, s.timeout)
    case Send(_) => Evicts(s, rec.sq)
    case Receive(sq, _) => sq == rec.sq
  }

  lemma RemovedIff(recs: seq<TxRecord>, i: nat, rec: TxRecord)
    requires Increasing(recs) && i < |recs| && rec in recs
    ensures rec in RemoveAt(recs, i) <==> recs[i].sq != rec.sq
  {
    var j :| 0 <= j < |recs| && recs[j] == rec;
    if j < i {
      assert RemoveAt(recs, i)[j] == rec;
    } else if i < j {
      assert RemoveAt(recs, i)[j - 1] == rec;
    }
  }

  lemma StepTakesAway(s: State, step: Step, rec: TxRecord)
    requires Inv(s) && rec in s.recs && (step.Send? ==> s.sent < UINT64)
    ensures rec in Apply(s, step).recs <==> !TakesAway(s, step, rec)
  {
    var i :| 0 <= i < |s.recs| && s.recs[i] == rec;
    assert Timely(s.recs[i], s);
    match step
    case Sweep(at) =>
      SurvivorsOk(s.recs, at, s.timeout);
      if !Expired(rec, at, s.timeout) {
        SurvivorStays(s.recs, at, s.timeout, i);
      }
    case Send(at) =>
      var kept := Room(s.recs, s.capacity);
      assert rec in kept + [TxRecord(at, s.next)] <==> rec in kept || rec == TxRecord(at, s.next);
      if |s.recs| == s.capacity {
        RemovedIff(s.recs, 0, rec);
      }
    case Receive(sq, at) =>
      var p := Position(s.recs, sq);
      if p >= 0 {
        RemovedIff(s.recs, p, rec);
      }
  }

  /** A record of an earlier number that is not in the list does not come back. */
  lemma StaysAway(s: State, step: Step, rec: TxRecord)
    requires Inv(s) && rec !in s.recs && rec.sq < s.sent && (step.Send? ==> s.sent < UINT64)
    ensures rec !in Apply(s, step).recs
  {
    match step
    case Sweep(at) => SurvivorsOk(s.recs, at, s.timeout);
    case Send(at) =>
      if |s.recs| == s.capacity {
        RemoveOk(s.recs, 0);
      }
    case Receive(sq, at) =>
      if Position(s.recs, sq) >= 0 {
        RemoveOk(s.recs, Position(s.recs, sq));
      }
  }

  /** No step of the run removed the record. */
  ghost predicate Untouched(s: State, steps: seq<Step>, rec: TxRecord) {
    steps == []
    || (Untouched(s, steps[..|steps| - 1], rec)
        && !TakesAway(Exec(s, steps[..|steps| - 1]), steps[|steps| - 1], rec))
  }

  lemma {:induction false} OutstandingIffUntouched(s: State, steps: seq<Step>, rec: TxRecord)
    requires Inv(s) && rec in s.recs && rec.sq < s.sent && Monotone(s.now, steps) && s.sent + Sends(steps) <= UINT64
    ensures rec in Exec(s, steps).recs <==> Untouched(s, steps, rec)
  {
    if steps != [] {
      var past, step := steps[..|steps| - 1], steps[|steps| - 1];
      OutstandingIffUntouched(s, past, rec);
      RunFromKeepsInv(s, past);
      if rec in Exec(s, past).recs {
        StepTakesAway(Exec(s, past), step, rec);
      } else {
        StaysAway(Exec(s, past), step, rec);
      }
    }
  }

  /** No sweep at or after the time the packet was due. */
  predicate NoSweepFrom(steps: seq<Step>, due: int) {
    forall n :: 0 <= n < |steps| && steps[n].Sweep? ==> steps[n].at < due
  }

  predicate NotReceived(steps: seq<Step>, sq: nat) {
    forall n :: 0 <= n < |steps| && steps[n].Receive? ==> steps[n].sq != sq
  }

  ghost predicate NotEvicted(s: State, steps: seq<Step>, sq: nat) {
    forall n :: 0 <= n < |steps| && steps[n].Send? ==> !Evicts(Exec(s, steps[..n]), sq)
  }

  lemma {:induction false} UntouchedMeans(s: State, steps: seq<Step>, rec: TxRecord)
    ensures Untouched(s, steps, rec)
       <==> Undisturbed(s, steps, rec)
  {
    if steps != [] {
      var n := |steps| - 1;
      var past := steps[..n];
      UntouchedMeans(s, past, rec);
      TimeoutIsConstant(s, past);
      NotEvictedSnoc(s, steps, rec.sq);
      NoSweepSnoc(steps, rec.at + s.timeout);
      NotReceivedSnoc(steps, rec.sq);
      TakesAwayMeans(Exec(s, past), steps[n], rec);
    }
  }

  lemma TakesAwayMeans(s: State, step: Step, rec: TxRecord)
    ensures TakesAway(s, step, rec)
       <==> (step.Sweep? && step.at >= rec.at + s.timeout) || (step.Receive? && step.sq == rec.sq) || (step.Send? && Evicts(s, rec.sq))
  {
  }

  lemma NoSweepSnoc(steps: seq<Step>, due: int)
    requires steps != []
    ensures var n := |steps| - 1;
            NoSweepFrom(steps, due) <==> NoSweepFrom(steps[..n], due) && (steps[n].Sweep? ==> steps[n].at < due)
  {
    assert steps == steps[..|steps| - 1] + [steps[|steps| - 1]];
  }

  lemma NotReceivedSnoc(steps: seq<Step>, sq: nat)
    requires steps != []
    ensures var n := |steps| - 1;
            NotReceived(steps, sq) <==> NotReceived(steps[..n], sq) && (steps[n].Receive? ==> steps[n].sq != sq)
  {
    assert steps == steps[..|steps| - 1] + [steps[|steps| - 1]];
  }

  lemma NotEvictedSnoc(s: State, steps: seq<Step>, sq: nat)
    requires steps != []
    ensures var n := |steps| - 1;
            NotEvicted(s, steps, sq)
            <==> NotEvicted(s, steps[..n], sq) && (steps[n].Send? ==> !Evicts(Exec(s, steps[..n]), sq))
  {
    var n := |steps| - 1;
    var past := steps[..n];
    assert forall i :: 0 <= i < n ==> past[i] == steps[i] && past[..i] == steps[..i];
  }

  lemma {:induction false} TimeoutIsConstant(s: State, steps: seq<Step>)
    ensures Exec(s, steps).timeout == s.timeout
  {
    if steps != [] {
      TimeoutIsConstant(s, steps[..|steps| - 1]);
    }
  }

  /** A reception records the time since the packet was sent. */
  predicate Measures(t: State, rec: TxRecord, at: int) {
    AfterReceive(t, rec.sq, at).delays == t.delays + [at - rec.at]
  }

  /** Not received before, not swept when it was due, not evicted. */
  ghost predicate Undisturbed(s: State, steps: seq<Step>, rec: TxRecord) {
    NotReceived(steps, rec.sq) && NoSweepFrom(steps, rec.at + s.timeout) && NotEvicted(s, steps, rec.sq)
  }

  /**
   * Exactly which receptions are measured: a packet sent at r and received after further steps is
   * measured, however late, if and only if it was not received before, no sweep ran at or after
   * r + timeout, and its record was not evicted by a full list.
   */
  lemma MeasuredIff(s: State, r: int, after: seq<Step>, at: int)
    requires Inv(s) && s.now <= r && Monotone(r, after) && s.sent + 1 + Sends(after) <= UINT64
    ensures var s1, rec := AfterSend(s, r), TxRecord(r, s.sent);
            var t := Exec(s1, after);
            && (Measures(t, rec, at) <==> Undisturbed(s1, after, rec))
            && (Measures(t, rec, at) || AfterReceive(t, s.sent, at) == t)
  {
    SendLists(s, r);
    MeasuredFrom(AfterSend(s, r), TxRecord(r, s.sent), after, at);
  }

  lemma SendLists(s: State, r: int)
    requires Inv(s) && s.now <= r && s.sent < UINT64
    ensures var s1 := AfterSend(s, r);
            Inv(s1) && TxRecord(r, s.sent) in s1.recs && s1.sent == s.sent + 1 && s1.now == r && s1.timeout == s.timeout
  {
    SendKeepsInv(s, r);
    var s1 := AfterSend(s, r);
    assert s1.recs[|s1.recs| - 1] == TxRecord(r, s.sent);
  }

  lemma MeasuredFrom(s: State, rec: TxRecord, after: seq<Step>, at: int)
    requires Inv(s) && rec in s.recs && rec.sq < s.sent && Monotone(s.now, after) && s.sent + Sends(after) <= UINT64
    ensures var t := Exec(s, after);
            && (Measures(t, rec, at) <==> Undisturbed(s, after, rec))
            && (Measures(t, rec, at) || AfterReceive(t, rec.sq, at) == t)
  {
    ReceivedIffUntouched(s, after, rec, at);
    MeasuresOrNot(Exec(s, after), rec, at, Untouched(s, after, rec));
    UntouchedMeans(s, after, rec);
  }

  lemma MeasuresOrNot(t: State, rec: TxRecord, at: int, untouched: bool)
    requires if untouched then Measures(t, rec, at) else AfterReceive(t, rec.sq, at) == t
    ensures (Measures(t, rec, at) <==> untouched) && (Measures(t, rec, at) || AfterReceive(t, rec.sq, at) == t)
  {
    assert |t.delays + [at - rec.at]| != |t.delays|;
  }

  lemma ReceivedIffUntouched(s: State, steps: seq<Step>, rec: TxRecord, at: int)
    requires Inv(s) && rec in s.recs && rec.sq < s.sent && Monotone(s.now, steps) && s.sent + Sends(steps) <= UINT64
    ensures var t := Exec(s, steps);
            if Untouched(s, steps, rec) then Measures(t, rec, at) else AfterReceive(t, rec.sq, at) == t
  {
    OutstandingIffUntouched(s, steps, rec);
    OnlyRecordOf(s, steps, rec);
    ReceiveOne(Exec(s, steps), rec, at);
  }

  lemma ReceiveOne(s: State, rec: TxRecord, at: int)
    requires var i := Position(s.recs, rec.sq); (i >= 0 ==> s.recs[i] == rec) && (i >= 0 <==> rec in s.recs)
    ensures if rec in s.recs then Measures(s, rec, at) else AfterReceive(s, rec.sq, at) == s
  {
  }

  /** While a number is outstanding its record is the one it was sent with. */
  lemma {:induction false} OnlyRecordOf(s: State, steps: seq<Step>, rec: TxRecord)
    requires Inv(s) && rec in s.recs && rec.sq < s.sent && Monotone(s.now, steps) && s.sent + Sends(steps) <= UINT64
    ensures var i := Position(Exec(s, steps).recs, rec.sq);
            && (i >= 0 ==> Exec(s, steps).recs[i] == rec) && (i >= 0 <==> rec in Exec(s, steps).recs)
  {
    var t := Exec(s, steps);
    var i := Position(t.recs, rec.sq);
    if steps == [] {
      var j :| 0 <= j < |s.recs| && s.recs[j] == rec;
      PositionUnique(s.recs, j);
    } else {
      var past := steps[..|steps| - 1];
      OnlyRecordOf(s, past, rec);
      RunFromKeepsInv(s, past);
      if i >= 0 {
        NewOrOld(Exec(s, past), steps[|steps| - 1], t.recs[i]);
        if t.recs[i] in Exec(s, past).recs {
          var k :| 0 <= k < |Exec(s, past).recs| && Exec(s, past).recs[k] == t.recs[i];
          PositionUnique(Exec(s, past).recs, k);
        }
      }
    }
  }

  lemma NewOrOld(s: State, step: Step, rec: TxRecord)
    requires Inv(s) && rec in Apply(s, step).recs && (step.Send? ==> s.sent < UINT64)
    ensures rec in s.recs || rec.sq == s.sent
  {
    if rec !in s.recs && rec.sq < s.sent {
      StaysAway(s, step, rec);
    }
    match step
    case Sweep(at) => SurvivorsOk(s.recs, at, s.timeout);
    case Send(at) =>
      if |s.recs| == s.capacity {
        RemoveOk(s.recs, 0);
      }
    case Receive(sq, at) =>
      if Position(s.recs, sq) >= 0 {
        RemoveOk(s.recs, Position(s.recs, sq));
      }
  }

  lemma {:induction false} SurvivorStays(recs: seq<TxRecord>, now: int, timeout: int, i: nat)
    requires i < |recs| && !Expired(recs[i], now, timeout)
    ensures recs[i] in Survivors(recs, now, timeout)
  {
    if i < |recs| - 1 {
      SurvivorStays(recs[..|recs| - 1], now, timeout, i);
    }
  }

  /** One late packet that is measured: the comment that late packets never count as measurements does not hold. */
  lemma LateButMeasured(capacity: nat, timeout: int)
    requires 1 <= capacity && 0 < timeout
    ensures Exec(Init(capacity, timeout, 0), [Send(0), Receive(0, timeout + 5)]).outcomes == [Measured(0, timeout + 5)]
  {
    var steps := [Send(0), Receive(0, timeout + 5)];
    var s0 := Init(capacity, timeout, 0);
    assert steps[..1] == [Send(0)] && [Send(0)][..0] == [];
    var s1 := Exec(s0, [Send(0)]);
    assert Exec(s0, []) == s0;
    assert s1 == AfterSend(s0, 0);
    assert s1.recs == [TxRecord(0, 0)] && s1.outcomes == [];
    assert Position(s1.recs, 0) == 0;
  }

  lemma ExecSnoc(s: State, steps: seq<Step>, step: Step)
    ensures Exec(s, steps + [step]) == Apply(Exec(s, steps), step)
  {
    assert (steps + [step])[..|steps|] == steps;
  }

  /** A packet that no sweep has touched and that is still not measured, because a full list evicted it. */
  lemma EvictedNotMeasured(timeout: int)
    ensures Exec(Init(1, timeout, 0), [Send(0), Send(1), Receive(0, timeout + 5)]).delays == []
  {
    var s0 := Init(1, timeout, 0);
    ExecSnoc(s0, [], Send(0));
    assert [] + [Send(0)] == [Send(0)];
    var s1 := Exec(s0, [Send(0)]);
    assert s1.recs == [TxRecord(0, 0)];
    ExecSnoc(s0, [Send(0)], Send(1));
    assert [Send(0)] + [Send(1)] == [Send(0), Send(1)];
    var s2 := Exec(s0, [Send(0), Send(1)]);
    assert s2.recs == [TxRecord(1, 1)];
    ExecSnoc(s0, [Send(0), Send(1)], Receive(0, timeout + 5));
    assert [Send(0), Send(1)] + [Receive(0, timeout + 5)] == [Send(0), Send(1), Receive(0, timeout + 5)];
  }

  // ---- The shared list, in its own backing array ----

  class Prober {
    const capacity: nat
    const timeout: int
    const slots: array<TxRecord>
    var len: nat
    var next: nat
    var dropped: nat
    var delays: seq<int>
    ghost var sent: nat
    ghost var outcomes: seq<Outcome>
    ghost var now: int
    ghost var sweptAt: int

    ghost predicate Valid()
      reads this, slots
    {
      && 1 <= capacity && slots.Length == capacity && len <= capacity
    }

    ghost function Abstract(): State
      requires len <= slots.Length
      reads this, slots
    {
      State(capacity, timeout, slots[..len], next, sent, dropped, delays, outcomes, now, sweptAt)
    }

    constructor (capacity: nat, timeout: int, now: int)
      requires 1 <= capacity
      ensures Valid() && Abstract() == Init(capacity, timeout, now) && fresh(slots)
    {
      this.capacity, this.timeout := capacity, timeout;
      slots := new TxRecord[capacity](i => TxRecord(0, 0));
      len, next, dropped, delays := 0, 0, 0, [];
      sent, outcomes, this.now, sweptAt := 0, [], now, now;
    }

    /** Closes the gap left by record `i`, in place. */
    method Delete(i: nat)
      requires i < len <= slots.Length
      modifies slots, this`len
      ensures len == old(len) - 1
      ensures slots[..len] == RemoveAt(old(slots[..len]), i)
    {
      var j := i;
      while j + 1 < len
        invariant i <= j < len && len == old(len)
        invariant forall k :: 0 <= k < len ==> slots[k] == old(if i <= k < j then slots[k + 1] else slots[k])
        modifies slots
      {
        slots[j] := slots[j + 1];
        j := j + 1;
      }
      len := len - 1;
      assert forall k :: 0 <= k < len ==> slots[k] == RemoveAt(old(slots[..len]), i)[k];
    }

    /** Filters the records in place, over the prefix of the same array. */
    method Filter(at: int)
      requires len <= slots.Length
      modifies slots, this`len, this`dropped
      ensures len <= old(len) && slots[..len] == Survivors(old(slots[..len]), at, timeout)
      ensures dropped == old(dropped) + |Losses(old(slots[..len]), at, timeout)|
    {
      ghost var recs := slots[..len];
      var kept, i := 0, 0;
      while i < len
        invariant 0 <= kept <= i <= len == old(len)
        invariant slots[..kept] == Survivors(recs[..i], at, timeout)
        invariant forall k :: i <= k < len ==> slots[k] == recs[k]
        invariant dropped == old(dropped) + |Losses(recs[..i], at, timeout)|
      {
        assert recs[..i + 1][..i] == recs[..i];
        var r := slots[i];
        if at - r.at >= timeout {
          dropped := dropped + 1;
        } else {
          slots[kept] := r;
          kept := kept + 1;
        }
        i := i + 1;
      }
      assert recs[..i] == recs;
      len := kept;
    }

    method ApplyTimeouts(at: int)
      requires Valid()
      modifies this, slots
      ensures Valid() && Abstract() == AfterSweep(old(Abstract()), at)
    {
      ghost var s := Abstract();
      Filter(at);
      outcomes := s.outcomes + Losses(s.recs, at, timeout);
      now, sweptAt := at, at;
    }

    /** Makes room if need be, then appends. */
    method Append(r: TxRecord)
      requires len <= slots.Length == capacity && 1 <= capacity
      modifies slots, this`len, this`dropped
      ensures len <= capacity
      ensures slots[..len] == Room(old(slots[..len]), capacity) + [r]
      ensures dropped == old(dropped) + |Evicted(old(slots[..len]), capacity)|
    {
      if len == capacity {
        Delete(0);
        dropped := dropped + 1;
      }
      slots[len] := r;
      len := len + 1;
    }

    method Send(at: int) returns (sq: nat)
      requires Valid()
      modifies this, slots
      ensures Valid() && Abstract() == AfterSend(old(Abstract()), at)
      ensures sq == old(next)
    {
      ghost var s := Abstract();
      Append(TxRecord(at, next));
      sq := next;
      next := (next + 1) % UINT64;
      sent, now := sent + 1, at;
      outcomes := s.outcomes + Evicted(s.recs, capacity);
    }

    /** The scan stops at the first larger number; because the list is ordered it misses nothing. */
    method Find(sq: nat) returns (i: int)
      requires Valid() && Increasing(slots[..len])
      ensures i == Position(slots[..len], sq)
    {
      i := 0;
      while i < len
        invariant 0 <= i <= len
        invariant forall k :: 0 <= k < i ==> slots[k].sq < sq
      {
        if slots[i].sq == sq {
          PositionUnique(slots[..len], i);
          return;
        }
        if slots[i].sq > sq {
          break;
        }
        i := i + 1;
      }
      ghost var recs := slots[..len];
      assert forall k :: i <= k < len ==> recs[k].sq > sq;
      i := -1;
    }

    method Receive(sq: nat, at: int)
      requires Valid() && Increasing(slots[..len])
      modifies this, slots
      ensures Valid() && Abstract() == AfterReceive(old(Abstract()), sq, at)
    {
      ghost var s := Abstract();
      var i := Find(sq);
      if i >= 0 {
        var rtt := at - slots[i].at;
        delays := delays + [rtt];
        outcomes := outcomes + [Measured(sq, rtt)];
        Delete(i);
      }
    }

    method Perform(step: Step)
      requires Valid() && Increasing(slots[..len])
      modifies this, slots
      ensures Valid() && Abstract() == Apply(old(Abstract()), step)
    {
      match step
      case Sweep(at) => ApplyTimeouts(at);
      case Send(at) => var _ := Send(at);
      case Receive(sq, at) => Receive(sq, at);
    }
  }

  lemma PositionUnique(recs: seq<TxRecord>, i: nat)
    requires Increasing(recs) && i < |recs|
    ensures Position(recs, recs[i].sq) == i
  {
    var p := Position(recs, recs[i].sq);
    assert p >= 0 && recs[p].sq == recs[i].sq;
  }

  /** Any interleaving, carried out on the array, keeps the books. */
  method Drive(capacity: nat, timeout: int, now: int, steps: seq<Step>) returns (p: Prober)
    requires 1 <= capacity && Monotone(now, steps) && Sends(steps) <= UINT64
    ensures p.Valid() && p.Abstract() == Exec(Init(capacity, timeout, now), steps)
    ensures Sends(steps) == p.dropped + |p.delays| + p.len && Ledger(p.Abstract())
  {
    p := new Prober(capacity, timeout, now);
    var i := 0;
    while i < |steps|
      invariant 0 <= i <= |steps| && fresh(p) && fresh(p.slots)
      invariant p.Valid() && p.Abstract() == Exec(Init(capacity, timeout, now), steps[..i])
    {
      MonotonePrefix(now, steps, i);
      MonotonePrefix(now, steps, i + 1);
      RunKeepsInv(capacity, timeout, now, steps[..i]);
      assert steps[..i + 1][..i] == steps[..i];
      p.Perform(steps[i]);
      i := i + 1;
    }
    assert steps[..i] == steps;
    Conservation(capacity, timeout, now, steps);
  }

  lemma {:induction false} MonotonePrefix(now: int, steps: seq<Step>, n: nat)
    requires n <= |steps| && Monotone(now, steps)
    ensures Monotone(now, steps[..n]) && Sends(steps[..n]) <= Sends(steps)
    decreases |steps|
  {
    if n < |steps| {
      MonotonePrefix(now, steps[..|steps| - 1], n);
      assert steps[..|steps| - 1][..n] == steps[..n];
    } else {
      assert steps[..n] == steps;
    }
  }
}
