/**
 * The health tracker (health/health.go): unhealthy states, visibility timers and published
 * changes, as a state machine over a clock that never runs backwards.
 */
module Health {
  import opened Options

  type Args = map<string, string>

  datatype Warnable = Warnable(code: string, timeToVisible: int)

  datatype WarningState = WarningState(brokenSince: int, args: Args)

  datatype Change = Unhealthy(w: Warnable, state: WarningState) | Healthy(w: Warnable)

  /** A published change and when it was published. */
  datatype Event = Event(change: Change, at: int)

  datatype TimerStatus = Armed | Fired | Done | Stopped

  /** A visibility timer. `Fired` means its callback has started and waits for the lock. */
  datatype Timer = Timer(deadline: int, w: Warnable, state: WarningState, status: TimerStatus)

  datatype State = State(
    now: int,
    vals: map<Warnable, WarningState>,
    pending: map<Warnable, nat>,  // indices into timers
    timers: seq<Timer>,           // every timer ever created
    log: seq<Event>)

  function Init(now: int): State {
    State(now, map[], map[], [], [])
  }

  function IsVisible(w: Warnable, ws: WarningState, now: int): bool {
    w.timeToVisible == 0 || now - ws.brokenSince >= w.timeToVisible
  }

  /** The four clock readings of one SetUnhealthy call, in order. */
  datatype Clock = Clock(began: int, checked: int, measured: int, armed: int)

  predicate ClockOk(s: State, c: Clock) {
    s.now <= c.began <= c.checked <= c.measured <= c.armed
  }

  datatype Step =
    | SetUnhealthy(w: Warnable, args: Args, clock: Clock)
    | SetHealthy(w: Warnable, at: int)
    | Expire(i: nat)    // a timer's deadline passes and its callback starts
    | Callback(i: nat)  // a started callback gets the lock
    | Tick(to: int)
    | Close             // the event client is done: pending timers are stopped

  predicate Enabled(s: State, step: Step) {
    match step
    case SetUnhealthy(_, _, c) => ClockOk(s, c)
    case SetHealthy(_, at) => s.now <= at
    case Expire(i) => i < |s.timers| && s.timers[i].status.Armed? && s.timers[i].deadline <= s.now
    case Callback(i) => i < |s.timers| && s.timers[i].status.Fired?
    case Tick(to) => s.now <= to
    case Close => true
  }

  function NewState(s: State, w: Warnable, args: Args, c: Clock): WarningState {
    WarningState(if w in s.vals then s.vals[w].brokenSince else c.began, args)
  }

  function AfterUnhealthy(s: State, w: Warnable, args: Args, c: Clock): State {
    var ws := NewState(s, w, args, c);
    var s1 := s.(now := c.armed, vals := s.vals[w := ws]);
    if w in s.vals && s.vals[w] == ws then s1
    else if IsVisible(w, ws, c.checked) then
      s1.(log := s.log + [Event(Unhealthy(w, ws), c.armed)])
    else
      var visibleIn := w.timeToVisible - (c.measured - ws.brokenSince);
      s1.(timers := s.timers + [Timer(c.armed + visibleIn, w, ws, Armed)], pending := s.pending[w := |s.timers|])
  }

  /** Stopping a timer works only before it expires. */
  function StopTimer(timers: seq<Timer>, i: nat): seq<Timer> {
    if i < |timers| && timers[i].status.Armed? then timers[i := timers[i].(status := Stopped)] else timers
  }

  function AfterHealthy(s: State, w: Warnable, at: int): State {
    if w !in s.vals then s.(now := at)
    else
      s.(now := at, vals := s.vals - {w}, pending := s.pending - {w},
         timers := if w in s.pending then StopTimer(s.timers, s.pending[w]) else s.timers,
         log := s.log + [Event(Healthy(w), at)])
  }

  function AfterCallback(s: State, i: nat): State
    requires i < |s.timers|
  {
    var t := s.timers[i];
    var s1 := s.(timers := s.timers[i := t.(status := Done)]);
    if t.w in s.vals then
      s1.(log := s.log + [Event(Unhealthy(t.w, t.state), s.now)], pending := s.pending - {t.w})
    else s1
  }

  function StopAll(timers: seq<Timer>, which: set<nat>): (r: seq<Timer>)
    ensures |r| == |timers|
  {
    seq(|timers|, i requires 0 <= i < |timers| =>
      if i in which && timers[i].status.Armed? then timers[i].(status := Stopped) else timers[i])
  }

  function Apply(s: State, step: Step): State
    requires Enabled(s, step)
  {
    match step
    case SetUnhealthy(w, args, c) => AfterUnhealthy(s, w, args, c)
    case SetHealthy(w, at) => AfterHealthy(s, w, at)
    case Expire(i) => s.(timers := s.timers[i := s.timers[i].(status := Fired)])
    case Callback(i) => AfterCallback(s, i)
    case Tick(to) => s.(now := to)
    case Close => s.(timers := StopAll(s.timers, s.pending.Values), pending := map[])
  }

  ghost predicate ValidRun(s: State, steps: seq<Step>)
    decreases steps
  {
    steps == [] || (Enabled(s, steps[0]) && ValidRun(Apply(s, steps[0]), steps[1..]))
  }

  ghost function Exec(s: State, steps: seq<Step>): State
    requires ValidRun(s, steps)
    decreases steps
  {
    if steps == [] then s else Exec(Apply(s, steps[0]), steps[1..])
  }

  // ---- Replaying the published changes ----

  function Observe(before: map<Warnable, WarningState>, change: Change): map<Warnable, WarningState> {
    match change
    case Unhealthy(w, ws) => before[w := ws]
    case Healthy(w) => before - {w}
  }

  function Replay(log: seq<Event>): map<Warnable, WarningState> {
    if log == [] then map[] else Observe(Replay(log[..|log| - 1]), log[|log| - 1].change)
  }

  lemma ReplaySnoc(log: seq<Event>, e: Event)
    ensures Replay(log + [e]) == Observe(Replay(log), e.change)
  {
    assert (log + [e])[..|log|] == log;
  }

  ghost predicate SameAt(a: map<Warnable, WarningState>, b: map<Warnable, WarningState>, w: Warnable) {
    (w in a <==> w in b) && (w in a ==> a[w] == b[w])
  }

  // ---- The invariant ----

  ghost predicate TimerOk(s: State, t: Timer) {
    && t.w.timeToVisible > 0
    && t.deadline >= t.state.brokenSince + t.w.timeToVisible
    && (t.status.Fired? ==> t.deadline <= s.now)
    && t.state.brokenSince <= s.now
  }

  ghost predicate EventOk(e: Event) {
    e.change.Unhealthy? ==> e.at >= e.change.state.brokenSince + e.change.w.timeToVisible
  }

  ghost predicate ValsOk(s: State) {
    forall w :: w in s.vals ==> s.vals[w].brokenSince <= s.now
  }

  ghost predicate TimersOk(s: State) {
    forall i :: 0 <= i < |s.timers| ==> TimerOk(s, s.timers[i])
  }

  ghost predicate LogOk(log: seq<Event>) {
    forall i :: 0 <= i < |log| ==> EventOk(log[i])
  }

  ghost predicate PendingOk(s: State) {
    forall w :: w in s.pending ==> w in s.vals && s.pending[w] < |s.timers| && s.timers[s.pending[w]].w == w
  }

  ghost predicate ReplayOk(s: State) {
    forall w: Warnable :: w.timeToVisible <= 0 ==> SameAt(Replay(s.log), s.vals, w)
  }

  ghost predicate Inv(s: State) {
    ValsOk(s) && TimersOk(s) && LogOk(s.log) && PendingOk(s) && ReplayOk(s)
  }

  lemma UnhealthyReplay(s: State, w: Warnable, args: Args, c: Clock)
    requires ValsOk(s) && ReplayOk(s) && ClockOk(s, c)
    ensures ReplayOk(AfterUnhealthy(s, w, args, c))
  {
    var ws := NewState(s, w, args, c);
    var e := Event(Unhealthy(w, ws), c.armed);
    var s' := AfterUnhealthy(s, w, args, c);
    if s'.log != s.log {
      ReplaySnoc(s.log, e);
      assert Replay(s'.log) == Replay(s.log)[w := ws];
    }
    forall v: Warnable | v.timeToVisible <= 0
      ensures SameAt(Replay(s'.log), s'.vals, v)
    {
      assert SameAt(Replay(s.log), s.vals, v);
    }
  }

  lemma UnhealthyTimers(s: State, w: Warnable, args: Args, c: Clock)
    requires ValsOk(s) && TimersOk(s) && ClockOk(s, c)
    ensures TimersOk(AfterUnhealthy(s, w, args, c))
  {
    var s' := AfterUnhealthy(s, w, args, c);
    forall i | 0 <= i < |s'.timers|
      ensures TimerOk(s', s'.timers[i])
    {
      if i < |s.timers| {
        assert TimerOk(s, s.timers[i]);
      }
    }
  }

  lemma UnhealthyKeepsInv(s: State, w: Warnable, args: Args, c: Clock)
    requires Inv(s) && ClockOk(s, c)
    ensures Inv(AfterUnhealthy(s, w, args, c))
  {
    UnhealthyReplay(s, w, args, c);
    UnhealthyTimers(s, w, args, c);
  }

  lemma HealthyReplay(s: State, w: Warnable, at: int)
    requires ReplayOk(s)
    ensures ReplayOk(AfterHealthy(s, w, at))
  {
    var s' := AfterHealthy(s, w, at);
    ReplaySnoc(s.log, Event(Healthy(w), at));
    forall v: Warnable | v.timeToVisible <= 0
      ensures SameAt(Replay(s'.log), s'.vals, v)
    {
      assert SameAt(Replay(s.log), s.vals, v);
    }
  }

  lemma HealthyTimers(s: State, w: Warnable, at: int)
    requires TimersOk(s) && PendingOk(s) && s.now <= at
    ensures TimersOk(AfterHealthy(s, w, at)) && PendingOk(AfterHealthy(s, w, at))
  {
    var s' := AfterHealthy(s, w, at);
    forall i | 0 <= i < |s'.timers|
      ensures TimerOk(s', s'.timers[i]) && s'.timers[i].w == s.timers[i].w
    {
      assert TimerOk(s, s.timers[i]);
    }
  }

  lemma HealthyKeepsInv(s: State, w: Warnable, at: int)
    requires Inv(s) && s.now <= at
    ensures Inv(AfterHealthy(s, w, at))
  {
    HealthyReplay(s, w, at);
    HealthyTimers(s, w, at);
  }

  lemma CallbackReplay(s: State, i: nat)
    requires ReplayOk(s) && i < |s.timers| && s.timers[i].w.timeToVisible > 0
    ensures ReplayOk(AfterCallback(s, i))
  {
    var t := s.timers[i];
    var s' := AfterCallback(s, i);
    ReplaySnoc(s.log, Event(Unhealthy(t.w, t.state), s.now));
    forall v: Warnable | v.timeToVisible <= 0
      ensures SameAt(Replay(s'.log), s'.vals, v)
    {
      assert SameAt(Replay(s.log), s.vals, v);
    }
  }

  lemma CallbackTimers(s: State, i: nat)
    requires TimersOk(s) && PendingOk(s) && i < |s.timers|
    ensures TimersOk(AfterCallback(s, i)) && PendingOk(AfterCallback(s, i))
  {
    var s' := AfterCallback(s, i);
    forall j | 0 <= j < |s'.timers|
      ensures TimerOk(s', s'.timers[j]) && s'.timers[j].w == s.timers[j].w
    {
      assert TimerOk(s, s.timers[j]);
    }
  }

  lemma CallbackKeepsInv(s: State, i: nat)
    requires Inv(s) && i < |s.timers| && s.timers[i].status.Fired?
    ensures Inv(AfterCallback(s, i))
  {
    assert TimerOk(s, s.timers[i]);
    CallbackReplay(s, i);
    CallbackTimers(s, i);
  }

  lemma StepKeepsInv(s: State, step: Step)
    requires Inv(s) && Enabled(s, step)
    ensures Inv(Apply(s, step))
  {
    match step
    case SetUnhealthy(w, args, c) => UnhealthyKeepsInv(s, w, args, c);
    case SetHealthy(w, at) => HealthyKeepsInv(s, w, at);
    case Expire(i) => assert TimerOk(s, s.timers[i]);
    case Callback(i) => CallbackKeepsInv(s, i);
    case Tick(to) => assert forall i :: 0 <= i < |s.timers| ==> TimerOk(s, s.timers[i]);
    case Close => assert forall i :: 0 <= i < |s.timers| ==> TimerOk(s, s.timers[i]);
  }

  lemma {:induction false} RunKeepsInv(s: State, steps: seq<Step>)
    requires Inv(s) && ValidRun(s, steps)
    ensures Inv(Exec(s, steps))
    decreases steps
  {
    if steps != [] {
      StepKeepsInv(s, steps[0]);
      RunKeepsInv(Apply(s, steps[0]), steps[1..]);
    }
  }

  // ---- Main results ----

  /** The event log determines the state of every warnable that is visible at once. */
  lemma LogDeterminesState(now: int, steps: seq<Step>, w: Warnable)
    requires ValidRun(Init(now), steps) && w.timeToVisible <= 0
    ensures SameAt(Replay(Exec(Init(now), steps).log), Exec(Init(now), steps).vals, w)
  {
    RunKeepsInv(Init(now), steps);
  }

  /**
   * No unhealthy change is published before its own broken-since time plus the time to visible,
   * superseded and late timers included, and only unhealthy warnables have a pending timer.
   */
  lemma VisibilityTiming(now: int, steps: seq<Step>)
    requires ValidRun(Init(now), steps)
    ensures var s := Exec(Init(now), steps);
            && (forall i :: 0 <= i < |s.log| ==> EventOk(s.log[i]))
            && s.pending.Keys <= s.vals.Keys
  {
    RunKeepsInv(Init(now), steps);
  }

  ghost predicate Clears(step: Step, w: Warnable) {
    step.SetHealthy? && step.w == w
  }

  /** The clock has moved on by the time a warnable is set unhealthy again. */
  ghost predicate StrictRun(s: State, steps: seq<Step>)
    requires ValidRun(s, steps)
    decreases steps
  {
    steps == [] ||
    ((steps[0].SetUnhealthy? ==> s.now < steps[0].clock.began) && StrictRun(Apply(s, steps[0]), steps[1..]))
  }

  /** BrokenSince stays fixed for as long as the warnable is not set healthy. */
  lemma {:induction false} BrokenSinceIsConstant(s: State, steps: seq<Step>, w: Warnable)
    requires ValidRun(s, steps) && w in s.vals
    requires forall i :: 0 <= i < |steps| ==> !Clears(steps[i], w)
    ensures w in Exec(s, steps).vals && Exec(s, steps).vals[w].brokenSince == s.vals[w].brokenSince
    decreases steps
  {
    if steps != [] {
      assert !Clears(steps[0], w);
      BrokenSinceIsConstant(Apply(s, steps[0]), steps[1..], w);
    }
  }

  /** Once set healthy at a time no earlier than `floor`, a later broken-since is later than that. */
  lemma {:induction false} LaterEpisodes(s: State, steps: seq<Step>, w: Warnable, floor: int)
    requires ValidRun(s, steps) && StrictRun(s, steps) && floor <= s.now
    requires w in s.vals ==> floor < s.vals[w].brokenSince
    ensures w in Exec(s, steps).vals ==> floor < Exec(s, steps).vals[w].brokenSince
    decreases steps
  {
    if steps != [] {
      LaterEpisodes(Apply(s, steps[0]), steps[1..], w, floor);
    }
  }

  ghost predicate NeverCleared(steps: seq<Step>, w: Warnable) {
    forall i :: 0 <= i < |steps| ==> !Clears(steps[i], w)
  }

  lemma NeverClearedCons(steps: seq<Step>, w: Warnable)
    requires steps != []
    ensures NeverCleared(steps, w) <==> !Clears(steps[0], w) && NeverCleared(steps[1..], w)
  {
    assert steps == [steps[0]] + steps[1..];
  }

  lemma NotBeforeNow(s: State, w: Warnable)
    requires Inv(s) && w in s.vals
    ensures s.vals[w].brokenSince <= s.now
  {
  }

  /**
   * A change recorded in one state is still about the current episode of its warnable after more
   * steps exactly when the warnable was not set healthy in between.
   */
  lemma {:induction false} SameEpisodeIff(s: State, steps: seq<Step>, w: Warnable)
    requires Inv(s) && ValidRun(s, steps) && StrictRun(s, steps) && w in s.vals
    ensures var t := Exec(s, steps);
            (w in t.vals && t.vals[w].brokenSince == s.vals[w].brokenSince) <==> NeverCleared(steps, w)
    decreases steps
  {
    if steps != [] {
      NeverClearedCons(steps, w);
      NotBeforeNow(s, w);
      if Clears(steps[0], w) {
        LaterEpisodes(Apply(s, steps[0]), steps[1..], w, s.vals[w].brokenSince);
      } else {
        StepKeepsInv(s, steps[0]);
        SameEpisodeIff(Apply(s, steps[0]), steps[1..], w);
      }
    }
  }

  /**
   * A timer superseded by a second SetUnhealthy is never stopped. It can announce an episode that
   * ended: here w broke at 0, recovered at 6, broke again at 7 and should stay invisible until 17,
   * yet at 10 the change of the first episode is published.
   */
  lemma StaleEpisode(a: Args, b: Args) returns (steps: seq<Step>)
    requires a != b
    ensures ValidRun(Init(0), steps)
    ensures var w := Warnable("w", 10); var s := Exec(Init(0), steps);
            && s.now == 10
            && s.log == [Event(Healthy(w), 6), Event(Unhealthy(w, WarningState(0, a)), 10)]
            && w in s.vals && s.vals[w] == WarningState(7, b) && !IsVisible(w, s.vals[w], s.now)
  {
    var w := Warnable("w", 10);
    var s1 := Apply(Init(0), SetUnhealthy(w, a, Clock(0, 0, 0, 0)));
    assert s1.timers == [Timer(10, w, WarningState(0, a), Armed)] && s1.log == [];
    var s2 := Apply(s1, SetUnhealthy(w, b, Clock(5, 5, 5, 5)));
    assert s2.timers == [Timer(10, w, WarningState(0, a), Armed), Timer(10, w, WarningState(0, b), Armed)];
    assert s2.pending[w] == 1 && s2.log == [];
    var s3 := Apply(s2, SetHealthy(w, 6));
    assert s3.timers == [Timer(10, w, WarningState(0, a), Armed), Timer(10, w, WarningState(0, b), Stopped)];
    assert s3.log == [Event(Healthy(w), 6)] && w !in s3.vals;
    var s4 := Apply(s3, SetUnhealthy(w, b, Clock(7, 7, 7, 7)));
    assert s4.vals[w] == WarningState(7, b) && |s4.timers| == 3 && s4.timers[0] == s3.timers[0];
    steps := FirstTimerPublishes(s4, w);
    Unroll(s3, SetUnhealthy(w, b, Clock(7, 7, 7, 7)), steps);
    steps := [SetUnhealthy(w, b, Clock(7, 7, 7, 7))] + steps;
    Unroll(s2, SetHealthy(w, 6), steps);
    steps := [SetHealthy(w, 6)] + steps;
    Unroll(s1, SetUnhealthy(w, b, Clock(5, 5, 5, 5)), steps);
    steps := [SetUnhealthy(w, b, Clock(5, 5, 5, 5))] + steps;
    Unroll(Init(0), SetUnhealthy(w, a, Clock(0, 0, 0, 0)), steps);
    steps := [SetUnhealthy(w, a, Clock(0, 0, 0, 0))] + steps;
  }

  /** The first timer ever made expires at 10 and publishes what it was made for. */
  lemma FirstTimerPublishes(s: State, w: Warnable) returns (steps: seq<Step>)
    requires s.now <= 10 && |s.timers| > 0 && s.timers[0].w == w && w in s.vals
    requires s.timers[0].status.Armed? && s.timers[0].deadline == 10
    ensures ValidRun(s, steps)
    ensures var t := Exec(s, steps);
            t.now == 10 && t.vals == s.vals && t.log == s.log + [Event(Unhealthy(w, s.timers[0].state), 10)]
  {
    var s5 := Apply(s, Tick(10));
    var s6 := Apply(s5, Expire(0));
    Unroll(s6, Callback(0), []);
    steps := [Callback(0)] + [];
    Unroll(s5, Expire(0), steps);
    steps := [Expire(0)] + steps;
    Unroll(s, Tick(10), steps);
    steps := [Tick(10)] + steps;
  }

  lemma Unroll(s: State, step: Step, rest: seq<Step>)
    requires Enabled(s, step) && ValidRun(Apply(s, step), rest)
    ensures ValidRun(s, [step] + rest) && Exec(s, [step] + rest) == Exec(Apply(s, step), rest)
  {
    assert ([step] + rest)[1..] == rest;
  }

  // ---- What a timer publishes ----

  function ValueAt(vals: map<Warnable, WarningState>, w: Warnable): Option<WarningState> {
    if w in vals then Some(vals[w]) else None
  }

  function FollowOne(o: Option<WarningState>, step: Step, w: Warnable): Option<WarningState> {
    match step
    case SetHealthy(v, _) => if v == w then None else o
    case SetUnhealthy(v, args, c) =>
      if v == w then Some(WarningState(if o.Some? then o.value.brokenSince else c.began, args)) else o
    case _ => o
  }

  /** What the calls alone make of a warnable's state, timers and publications aside. */
  function Follow(o: Option<WarningState>, steps: seq<Step>, w: Warnable): Option<WarningState>
    decreases steps
  {
    if steps == [] then o else Follow(FollowOne(o, steps[0], w), steps[1..], w)
  }

  lemma {:induction false} CallsDetermineState(s: State, steps: seq<Step>, w: Warnable)
    requires ValidRun(s, steps)
    ensures ValueAt(Exec(s, steps).vals, w) == Follow(ValueAt(s.vals, w), steps, w)
    decreases steps
  {
    if steps != [] {
      assert ValueAt(Apply(s, steps[0]).vals, w) == FollowOne(ValueAt(s.vals, w), steps[0], w);
      CallsDetermineState(Apply(s, steps[0]), steps[1..], w);
    }
  }

  /** A timer keeps the warnable and the state it was made for. */
  lemma {:induction false} TimersPersist(s: State, steps: seq<Step>, i: nat)
    requires ValidRun(s, steps) && i < |s.timers|
    ensures i < |Exec(s, steps).timers|
    ensures Exec(s, steps).timers[i].w == s.timers[i].w && Exec(s, steps).timers[i].state == s.timers[i].state
    decreases steps
  {
    if steps != [] {
      TimersPersist(Apply(s, steps[0]), steps[1..], i);
    }
  }

  /** The call puts a new timer in place. */
  predicate ArmsTimer(s: State, w: Warnable, args: Args, c: Clock) {
    |AfterUnhealthy(s, w, args, c).timers| == |s.timers| + 1
  }

  /** Running timer i's callback now publishes the state its warnable is in now. */
  ghost predicate PublishesCurrent(s: State, i: nat)
    requires i < |s.timers|
  {
    var w := s.timers[i].w;
    w in s.vals && AfterCallback(s, i).log == s.log + [Event(Unhealthy(w, s.vals[w]), s.now)]
  }

  /**
   * A timer's callback publishes the current state exactly when the calls made since the timer was
   * armed lead back to the state it was armed for.
   */
  lemma PublishedIsCurrentIff(s: State, w: Warnable, args: Args, c: Clock, steps: seq<Step>)
    requires ClockOk(s, c) && ArmsTimer(s, w, args, c)
    requires ValidRun(AfterUnhealthy(s, w, args, c), steps)
    ensures var t := Exec(AfterUnhealthy(s, w, args, c), steps); var ws := NewState(s, w, args, c);
            && |s.timers| < |t.timers|
            && (PublishesCurrent(t, |s.timers|) <==> Follow(Some(ws), steps, w) == Some(ws))
  {
    var s1 := AfterUnhealthy(s, w, args, c);
    TimersPersist(s1, steps, |s.timers|);
    CallsDetermineState(s1, steps, w);
    var t := Exec(s1, steps);
    var timer := t.timers[|s.timers|];
    if w in t.vals {
      var was, now := Event(Unhealthy(w, timer.state), t.now), Event(Unhealthy(w, t.vals[w]), t.now);
      assert AfterCallback(t, |s.timers|).log == t.log + [was];
      assert (t.log + [was])[|t.log|] == was && (t.log + [now])[|t.log|] == now;
    }
  }

  /** The arguments of the last SetUnhealthy of w, or `args` if there is none. */
  function LastArgs(steps: seq<Step>, w: Warnable, args: Args): Args {
    if steps == [] then args
    else LastArgs(steps[1..], w, if steps[0].SetUnhealthy? && steps[0].w == w then steps[0].args else args)
  }

  lemma {:induction false} FollowWithoutClear(ws: WarningState, steps: seq<Step>, w: Warnable)
    requires NeverCleared(steps, w)
    ensures Follow(Some(ws), steps, w) == Some(WarningState(ws.brokenSince, LastArgs(steps, w, ws.args)))
    decreases steps
  {
    if steps != [] {
      assert !Clears(steps[0], w);
      var next := FollowOne(Some(ws), steps[0], w).value;
      FollowWithoutClear(next, steps[1..], w);
    }
  }

  /**
   * With a clock that moves on between calls: a timer's callback publishes the current state exactly
   * when, since the timer was armed, the warnable was not set healthy and the last SetUnhealthy, if
   * any, gave the arguments the timer was armed with.
   */
  lemma PublishedIsCurrentIffUndisturbed(s: State, w: Warnable, args: Args, c: Clock, steps: seq<Step>)
    requires Inv(s) && ClockOk(s, c) && ArmsTimer(s, w, args, c)
    requires ValidRun(AfterUnhealthy(s, w, args, c), steps) && StrictRun(AfterUnhealthy(s, w, args, c), steps)
    ensures var t := Exec(AfterUnhealthy(s, w, args, c), steps);
            && |s.timers| < |t.timers|
            && (PublishesCurrent(t, |s.timers|) <==> NeverCleared(steps, w) && LastArgs(steps, w, args) == args)
  {
    var s1 := AfterUnhealthy(s, w, args, c);
    var ws := NewState(s, w, args, c);
    PublishedIsCurrentIff(s, w, args, c, steps);
    if NeverCleared(steps, w) {
      FollowWithoutClear(ws, steps, w);
    } else {
      UnhealthyKeepsInv(s, w, args, c);
      SameEpisodeIff(s1, steps, w);
      CallsDetermineState(s1, steps, w);
    }
  }

  /**
   * Two timers of one episode can expire together and take the lock in either order. Here nothing
   * cleared w, both callbacks have run, and the last state published is the superseded one.
   */
  lemma RacingTimers(a: Args, b: Args) returns (steps: seq<Step>)
    requires a != b
    ensures ValidRun(Init(0), steps)
    ensures var w := Warnable("w", 10); var s := Exec(Init(0), steps);
            && NeverCleared(steps, w)
            && (forall i :: 0 <= i < |s.timers| ==> s.timers[i].status.Done?)
            && Replay(s.log) == map[w := WarningState(0, a)] && s.vals == map[w := WarningState(0, b)]
  {
    var w := Warnable("w", 10);
    var x, y := WarningState(0, a), WarningState(0, b);
    var s1 := Apply(Init(0), SetUnhealthy(w, a, Clock(0, 0, 0, 0)));
    assert s1.timers == [Timer(10, w, x, Armed)] && s1.log == [];
    var s2 := Apply(s1, SetUnhealthy(w, b, Clock(5, 5, 5, 5)));
    assert s2.timers == [Timer(10, w, x, Armed), Timer(10, w, y, Armed)] && s2.log == [];
    assert s2.vals == map[w := y];
    steps := LastComesFirst(s2, w, x, y);
    Unroll(s1, SetUnhealthy(w, b, Clock(5, 5, 5, 5)), steps);
    steps := [SetUnhealthy(w, b, Clock(5, 5, 5, 5))] + steps;
    Unroll(Init(0), SetUnhealthy(w, a, Clock(0, 0, 0, 0)), steps);
    steps := [SetUnhealthy(w, a, Clock(0, 0, 0, 0))] + steps;
  }

  /** Both timers expire at 10 and the second one's callback runs first. */
  lemma LastComesFirst(s: State, w: Warnable, x: WarningState, y: WarningState) returns (steps: seq<Step>)
    requires s.now <= 10 && s.timers == [Timer(10, w, x, Armed), Timer(10, w, y, Armed)]
    requires s.log == [] && s.vals == map[w := y]
    ensures ValidRun(s, steps) && NeverCleared(steps, w)
    ensures var t := Exec(s, steps);
            && t.timers == [Timer(10, w, x, Done), Timer(10, w, y, Done)]
            && Replay(t.log) == map[w := x] && t.vals == s.vals
  {
    var s3 := Apply(s, Tick(10));
    var s4 := Apply(s3, Expire(0));
    assert s4.timers == [Timer(10, w, x, Fired), Timer(10, w, y, Armed)];
    var s5 := Apply(s4, Expire(1));
    assert s5.timers == [Timer(10, w, x, Fired), Timer(10, w, y, Fired)];
    steps := SecondThenFirst(s5, w, x, y);
    Unroll(s4, Expire(1), steps);
    steps := [Expire(1)] + steps;
    Unroll(s3, Expire(0), steps);
    steps := [Expire(0)] + steps;
    Unroll(s, Tick(10), steps);
    steps := [Tick(10)] + steps;
  }

  lemma SecondThenFirst(s: State, w: Warnable, x: WarningState, y: WarningState) returns (steps: seq<Step>)
    requires s.timers == [Timer(10, w, x, Fired), Timer(10, w, y, Fired)] && s.log == [] && s.vals == map[w := y]
    ensures ValidRun(s, steps) && NeverCleared(steps, w)
    ensures var t := Exec(s, steps);
            && t.timers == [Timer(10, w, x, Done), Timer(10, w, y, Done)]
            && Replay(t.log) == map[w := x] && t.vals == s.vals
  {
    var s1 := AfterCallback(s, 1);
    CallbackShows(s, 1);
    assert s1.timers == [Timer(10, w, x, Fired), Timer(10, w, y, Done)];
    CallbackShows(s1, 0);
    Unroll(s1, Callback(0), []);
    steps := [Callback(0)] + [];
    Unroll(s, Callback(1), steps);
    steps := [Callback(1)] + steps;
  }

  lemma CallbackShows(s: State, i: nat)
    requires i < |s.timers| && s.timers[i].w in s.vals
    ensures var t := AfterCallback(s, i);
            && t.vals == s.vals && t.timers == s.timers[i := s.timers[i].(status := Done)]
            && Replay(t.log) == Replay(s.log)[s.timers[i].w := s.timers[i].state]
  {
    ReplaySnoc(s.log, Event(Unhealthy(s.timers[i].w, s.timers[i].state), s.now));
  }

  // ---- When the event log shows the state of a warnable with a delay ----

  ghost predicate NoneFired(s: State, w: Warnable) {
    forall i :: 0 <= i < |s.timers| && s.timers[i].w == w ==> !s.timers[i].status.Fired?
  }

  /**
   * The step does not change the arguments of an unhealthy w, does not set w healthy while a
   * callback of w waits for the lock, and does not close the tracker.
   */
  ghost predicate Orderly(s: State, step: Step, w: Warnable) {
    match step
    case SetUnhealthy(v, args, _) => v == w && w in s.vals ==> args == s.vals[w].args
    case SetHealthy(v, _) => v == w ==> NoneFired(s, w)
    case Close => false
    case _ => true
  }

  ghost predicate OrderlyRun(s: State, steps: seq<Step>, w: Warnable)
    requires ValidRun(s, steps)
    decreases steps
  {
    steps == [] || (Orderly(s, steps[0], w) && OrderlyRun(Apply(s, steps[0]), steps[1..], w))
  }

  predicate Outstanding(t: Timer) {
    t.status.Armed? || t.status.Fired?
  }

  /** At most one timer of w is outstanding: the pending one, made for the current state. */
  ghost predicate OneTimer(timers: seq<Timer>, pending: map<Warnable, nat>, vals: map<Warnable, WarningState>, w: Warnable) {
    && (forall i :: 0 <= i < |timers| && timers[i].w == w && Outstanding(timers[i]) ==> w in pending && pending[w] == i)
    && (w in pending ==> w in vals && pending[w] < |timers| && timers[pending[w]].w == w && timers[pending[w]].state == vals[w])
  }

  /** Nothing about w's episode is published while its timer is pending; afterwards it is shown. */
  ghost predicate Shows(shown: map<Warnable, WarningState>, pending: map<Warnable, nat>, vals: map<Warnable, WarningState>,
                        w: Warnable) {
    if w in pending then w !in shown else SameAt(shown, vals, w)
  }

  ghost predicate InStep(s: State, w: Warnable) {
    OneTimer(s.timers, s.pending, s.vals, w) && Shows(Replay(s.log), s.pending, s.vals, w)
  }

  lemma UnhealthyInStep(s: State, w: Warnable, v: Warnable, args: Args, c: Clock)
    requires InStep(s, w) && Orderly(s, SetUnhealthy(v, args, c), w)
    ensures InStep(AfterUnhealthy(s, v, args, c), w)
  {
    var ws := NewState(s, v, args, c);
    ReplaySnoc(s.log, Event(Unhealthy(v, ws), c.armed));
    if v == w {
      NewEpisode(s.timers, s.pending, s.vals, w, ws, c.armed + (w.timeToVisible - (c.measured - ws.brokenSince)));
    } else {
      OtherArms(s.timers, s.pending, s.vals, w, v, ws, c.armed + (v.timeToVisible - (c.measured - ws.brokenSince)));
    }
  }

  /** A first SetUnhealthy publishes at once or arms the only timer. */
  lemma NewEpisode(timers: seq<Timer>, pending: map<Warnable, nat>, vals: map<Warnable, WarningState>, w: Warnable,
                   ws: WarningState, deadline: int)
    requires OneTimer(timers, pending, vals, w)
    ensures w !in vals ==> OneTimer(timers, pending, vals[w := ws], w)
    ensures w !in vals ==> OneTimer(timers + [Timer(deadline, w, ws, Armed)], pending[w := |timers|], vals[w := ws], w)
    ensures w in vals && vals[w] == ws ==> vals[w := ws] == vals
  {
  }

  /** Whatever is done to another warnable leaves w's timers alone. */
  lemma OtherArms(timers: seq<Timer>, pending: map<Warnable, nat>, vals: map<Warnable, WarningState>, w: Warnable,
                  v: Warnable, ws: WarningState, deadline: int)
    requires OneTimer(timers, pending, vals, w) && v != w
    ensures OneTimer(timers, pending, vals[v := ws], w)
    ensures OneTimer(timers + [Timer(deadline, v, ws, Armed)], pending[v := |timers|], vals[v := ws], w)
  {
  }

  lemma HealthyInStep(s: State, w: Warnable, v: Warnable, at: int)
    requires InStep(s, w) && Orderly(s, SetHealthy(v, at), w) && PendingOk(s)
    ensures InStep(AfterHealthy(s, v, at), w)
  {
    ReplaySnoc(s.log, Event(Healthy(v), at));
    if v == w {
      HealthyStopsTimer(s.timers, s.pending, s.vals, w);
    } else {
      OtherHealthy(s.timers, s.pending, s.vals, w, v);
    }
  }

  /** No callback of w waits for the lock, so stopping the pending timer leaves none outstanding. */
  lemma HealthyStopsTimer(timers: seq<Timer>, pending: map<Warnable, nat>, vals: map<Warnable, WarningState>, w: Warnable)
    requires OneTimer(timers, pending, vals, w)
    requires forall i :: 0 <= i < |timers| && timers[i].w == w ==> !timers[i].status.Fired?
    ensures OneTimer(if w in pending then StopTimer(timers, pending[w]) else timers, pending - {w}, vals - {w}, w)
  {
  }

  lemma OtherHealthy(timers: seq<Timer>, pending: map<Warnable, nat>, vals: map<Warnable, WarningState>, w: Warnable, v: Warnable)
    requires OneTimer(timers, pending, vals, w) && v != w
    requires v in pending ==> pending[v] < |timers| && timers[pending[v]].w == v
    ensures OneTimer(if v in pending then StopTimer(timers, pending[v]) else timers, pending - {v}, vals - {v}, w)
  {
    var after := if v in pending then StopTimer(timers, pending[v]) else timers;
    assert forall i :: 0 <= i < |timers| && timers[i].w == w ==> after[i] == timers[i];
  }

  lemma CallbackInStep(s: State, w: Warnable, i: nat)
    requires InStep(s, w) && i < |s.timers| && s.timers[i].status.Fired?
    ensures InStep(AfterCallback(s, i), w)
  {
    var t := s.timers[i];
    ReplaySnoc(s.log, Event(Unhealthy(t.w, t.state), s.now));
    TimerDone(s.timers, s.pending, s.vals, w, i);
  }

  lemma TimerDone(timers: seq<Timer>, pending: map<Warnable, nat>, vals: map<Warnable, WarningState>, w: Warnable, i: nat)
    requires OneTimer(timers, pending, vals, w) && i < |timers| && timers[i].status.Fired?
    ensures var after := timers[i := timers[i].(status := Done)];
            OneTimer(after, if timers[i].w in vals then pending - {timers[i].w} else pending, vals, w)
  {
  }

  lemma StepInStep(s: State, w: Warnable, step: Step)
    requires InStep(s, w) && Inv(s) && Enabled(s, step) && Orderly(s, step, w)
    ensures InStep(Apply(s, step), w)
  {
    match step
    case SetUnhealthy(v, args, c) => UnhealthyInStep(s, w, v, args, c);
    case SetHealthy(v, at) => HealthyInStep(s, w, v, at);
    case Callback(i) => CallbackInStep(s, w, i);
    case _ =>
  }

  lemma {:induction false} RunInStep(s: State, steps: seq<Step>, w: Warnable)
    requires InStep(s, w) && Inv(s) && ValidRun(s, steps) && OrderlyRun(s, steps, w)
    ensures InStep(Exec(s, steps), w)
    decreases steps
  {
    if steps != [] {
      StepInStep(s, w, steps[0]);
      StepKeepsInv(s, steps[0]);
      RunInStep(Apply(s, steps[0]), steps[1..], w);
    }
  }

  /**
   * Over every run that is orderly for w, replaying the published changes gives w's state exactly
   * when no visibility timer of w is pending.
   */
  lemma ReplayLagsIffPending(now: int, steps: seq<Step>, w: Warnable)
    requires ValidRun(Init(now), steps) && OrderlyRun(Init(now), steps, w)
    ensures var s := Exec(Init(now), steps);
            SameAt(Replay(s.log), s.vals, w) <==> w !in s.pending
  {
    RunInStep(Init(now), steps, w);
  }

  ghost predicate HealthyShown(s: State, w: Warnable) {
    w in Replay(s.log) ==> w in s.vals
  }

  lemma StepShowsHealthy(s: State, step: Step, w: Warnable)
    requires HealthyShown(s, w) && Enabled(s, step)
    ensures HealthyShown(Apply(s, step), w)
  {
    var s' := Apply(s, step);
    if s'.log != s.log {
      assert s'.log == s.log + [s'.log[|s.log|]];
      ReplaySnoc(s.log, s'.log[|s.log|]);
    }
  }

  /** Over every run, however timers race, the log never shows a healthy warnable as unhealthy. */
  lemma {:induction false} HealthyNeverShownUnhealthy(s: State, steps: seq<Step>, w: Warnable)
    requires ValidRun(s, steps) && HealthyShown(s, w)
    ensures HealthyShown(Exec(s, steps), w)
    decreases steps
  {
    if steps != [] {
      StepShowsHealthy(s, steps[0], w);
      HealthyNeverShownUnhealthy(Apply(s, steps[0]), steps[1..], w);
    }
  }

  // ---- When the event log shows the state of a warnable, over every run ----

  /** The step publishes something about w. */
  ghost predicate Speaks(s: State, step: Step, w: Warnable)
    requires Enabled(s, step)
  {
    var log := Apply(s, step).log;
    |log| == |s.log| + 1 && log[|s.log|].change.w == w
  }

  /** It is a SetUnhealthy, or a timer's callback that publishes the state its warnable is in. */
  ghost predicate SpeaksTrue(s: State, step: Step)
    requires Enabled(s, step)
  {
    step.SetUnhealthy? || (step.Callback? && PublishesCurrent(s, step.i))
  }

  /** Whether the last step that published something about w spoke true; `before` if none did. */
  ghost predicate LastWordTrue(s: State, steps: seq<Step>, w: Warnable, before: bool)
    requires ValidRun(s, steps)
    decreases steps
  {
    if steps == [] then before
    else LastWordTrue(Apply(s, steps[0]), steps[1..], w, if Speaks(s, steps[0], w) then SpeaksTrue(s, steps[0]) else before)
  }

  /** What is shown of an unhealthy w is wrong, and stays so until something is published about it. */
  ghost predicate Wrong(shown: Option<WarningState>, ws: WarningState, visible: bool) {
    shown.None? || shown.value.brokenSince != ws.brokenSince || (visible && shown.value != ws)
  }

  /** `told` says whether the log shows w's state; if it does, w is visible, so that any change will be published. */
  ghost predicate Tuned(vals: map<Warnable, WarningState>, shown: Option<WarningState>, now: int, w: Warnable, told: bool) {
    if w !in vals then shown.None? && !told
    else if told then shown == Some(vals[w]) && IsVisible(w, vals[w], now)
    else Wrong(shown, vals[w], IsVisible(w, vals[w], now))
  }

  ghost predicate InTune(s: State, w: Warnable, told: bool) {
    Tuned(s.vals, ValueAt(Replay(s.log), w), s.now, w, told)
  }

  /** Time passing and other warnables change nothing. */
  lemma TunedLater(vals: map<Warnable, WarningState>, next: map<Warnable, WarningState>, shown: Option<WarningState>,
                   now: int, later: int, w: Warnable, told: bool)
    requires Tuned(vals, shown, now, w, told) && now <= later && ValueAt(next, w) == ValueAt(vals, w)
    ensures Tuned(next, shown, later, w, told)
  {
  }

  lemma UnhealthySpeaks(s: State, w: Warnable, v: Warnable, args: Args, c: Clock)
    requires ClockOk(s, c)
    ensures Speaks(s, SetUnhealthy(v, args, c), w)
       <==> v == w && !(w in s.vals && s.vals[w] == NewState(s, w, args, c)) && IsVisible(w, NewState(s, w, args, c), c.checked)
  {
  }

  lemma UnhealthyTunes(s: State, w: Warnable, v: Warnable, args: Args, c: Clock, told: bool)
    requires InTune(s, w, told) && ClockOk(s, c)
    ensures var step := SetUnhealthy(v, args, c);
            InTune(AfterUnhealthy(s, v, args, c), w, if Speaks(s, step, w) then true else told)
  {
    UnhealthySpeaks(s, w, v, args, c);
    ReplaySnoc(s.log, Event(Unhealthy(v, NewState(s, v, args, c)), c.armed));
    if v != w {
      TunedLater(s.vals, AfterUnhealthy(s, v, args, c).vals, ValueAt(Replay(s.log), w), s.now, c.armed, w, told);
    }
  }

  lemma HealthyTunes(s: State, w: Warnable, v: Warnable, at: int, told: bool)
    requires InTune(s, w, told) && s.now <= at
    ensures var step := SetHealthy(v, at);
            InTune(AfterHealthy(s, v, at), w, if Speaks(s, step, w) then false else told)
  {
    ReplaySnoc(s.log, Event(Healthy(v), at));
    if v != w {
      TunedLater(s.vals, AfterHealthy(s, v, at).vals, ValueAt(Replay(s.log), w), s.now, at, w, told);
    }
  }

  /** A callback that publishes a state of the episode that is on publishes it when that is visible. */
  lemma CallbackTunes(s: State, w: Warnable, i: nat, told: bool)
    requires InTune(s, w, told) && TimersOk(s) && i < |s.timers| && s.timers[i].status.Fired?
    ensures var step := Callback(i);
            InTune(AfterCallback(s, i), w, if Speaks(s, step, w) then PublishesCurrent(s, i) else told)
  {
    var t := s.timers[i];
    assert TimerOk(s, t);
    var e := Event(Unhealthy(t.w, t.state), s.now);
    ReplaySnoc(s.log, e);
    assert (s.log + [e])[|s.log|] == e;
    if t.w in s.vals {
      PublishedState(s, i);
    }
  }

  lemma PublishedState(s: State, i: nat)
    requires i < |s.timers| && s.timers[i].w in s.vals
    ensures PublishesCurrent(s, i) <==> s.timers[i].state == s.vals[s.timers[i].w]
  {
    var t := s.timers[i];
    var e, f := Event(Unhealthy(t.w, t.state), s.now), Event(Unhealthy(t.w, s.vals[t.w]), s.now);
    assert (s.log + [e])[|s.log|] == e && (s.log + [f])[|s.log|] == f;
  }

  lemma StepTunes(s: State, step: Step, w: Warnable, told: bool)
    requires InTune(s, w, told) && Inv(s) && Enabled(s, step)
    ensures InTune(Apply(s, step), w, if Speaks(s, step, w) then SpeaksTrue(s, step) else told)
  {
    match step
    case SetUnhealthy(v, args, c) => UnhealthyTunes(s, w, v, args, c, told);
    case SetHealthy(v, at) => HealthyTunes(s, w, v, at, told);
    case Callback(i) => CallbackTunes(s, w, i, told);
    case Tick(to) => TunedLater(s.vals, s.vals, ValueAt(Replay(s.log), w), s.now, to, w, told);
    case _ =>
  }

  lemma {:induction false} RunTunes(s: State, steps: seq<Step>, w: Warnable, told: bool)
    requires InTune(s, w, told) && Inv(s) && ValidRun(s, steps)
    ensures InTune(Exec(s, steps), w, LastWordTrue(s, steps, w, told))
    decreases steps
  {
    if steps != [] {
      StepTunes(s, steps[0], w, told);
      StepKeepsInv(s, steps[0]);
      RunTunes(Apply(s, steps[0]), steps[1..], w, if Speaks(s, steps[0], w) then SpeaksTrue(s, steps[0]) else told);
    }
  }

  /**
   * Over every run, however timers race: the published events show w's state if and only if w is
   * healthy, or the last step that published anything about w was a SetUnhealthy, or a callback
   * that published the state w was then in.
   */
  lemma EventsShowStateIff(now: int, steps: seq<Step>, w: Warnable)
    requires ValidRun(Init(now), steps)
    ensures var s := Exec(Init(now), steps);
            SameAt(Replay(s.log), s.vals, w) <==> w !in s.vals || LastWordTrue(Init(now), steps, w, false)
  {
    RunTunes(Init(now), steps, w, false);
  }

  // ---- The object ----

  class Tracker {
    var now: int
    var vals: map<Warnable, WarningState>
    var pending: map<Warnable, nat>
    var timers: seq<Timer>
    var log: seq<Event>
    var warnables: seq<Warnable>

    function Snapshot(): State
      reads this
    {
      State(now, vals, pending, timers, log)
    }

    ghost predicate Valid()
      reads this
    {
      Inv(Snapshot()) && forall w :: w in vals ==> w in warnables
    }

    constructor (start: int)
      ensures Valid() && Snapshot() == Init(start)
    {
      now, vals, pending, timers, log, warnables := start, map[], map[], [], [], [];
    }

    /** The body of SetUnhealthyLocked, which needs no invariant. */
    method Record(w: Warnable, args: Args, c: Clock)
      modifies this
      ensures Snapshot() == AfterUnhealthy(old(Snapshot()), w, args, c)
      ensures warnables == old(warnables) + if w in old(vals) then [] else [w]
    {
      var brokenSince := c.began;
      if w in vals {
        brokenSince := vals[w].brokenSince;
      }
      if w !in vals {
        warnables := warnables + [w];
      }
      var ws := WarningState(brokenSince, args);
      var changed := w !in vals || vals[w] != ws;
      vals := vals[w := ws];
      if changed {
        if IsVisible(w, ws, c.checked) {
          log := log + [Event(Unhealthy(w, ws), c.armed)];
        } else {
          var visibleIn := w.timeToVisible - (c.measured - brokenSince);
          pending := pending[w := |timers|];
          timers := timers + [Timer(c.armed + visibleIn, w, ws, Armed)];
        }
      }
      now := c.armed;
    }

    method SetUnhealthyLocked(w: Warnable, args: Args, c: Clock)
      requires Valid() && ClockOk(Snapshot(), c)
      modifies this
      ensures Valid() && Snapshot() == AfterUnhealthy(old(Snapshot()), w, args, c)
      ensures warnables == old(warnables) + if w in old(vals) then [] else [w]
    {
      UnhealthyKeepsInv(Snapshot(), w, args, c);
      Record(w, args, c);
    }

    method SetHealthyLocked(w: Warnable, at: int)
      requires Valid() && now <= at
      modifies this
      ensures Valid() && Snapshot() == AfterHealthy(old(Snapshot()), w, at) && warnables == old(warnables)
    {
      HealthyKeepsInv(Snapshot(), w, at);
      now := at;
      if w !in vals {
        return;
      }
      vals := vals - {w};
      if w in pending {
        timers := StopTimer(timers, pending[w]);
        pending := pending - {w};
      } else {
        assert pending - {w} == pending;
      }
      log := log + [Event(Healthy(w), at)];
    }

    /** A visibility timer's function, once it holds the lock. */
    method TimerCallback(i: nat)
      requires Valid() && i < |timers| && timers[i].status.Fired?
      modifies this
      ensures Valid() && Snapshot() == AfterCallback(old(Snapshot()), i) && warnables == old(warnables)
    {
      CallbackKeepsInv(Snapshot(), i);
      var t := timers[i];
      timers := timers[i := t.(status := Done)];
      if t.w in vals {
        log := log + [Event(Unhealthy(t.w, t.state), now)];
        pending := pending - {t.w};
      }
    }
  }
}
