/**
 * The wake-up protocol between log writers, the flush timer, explicit flushes and the one drainer
 * (logtail/logtail.go), as a state machine whose steps interleave freely.
 */
module Wakeup {
  import opened MemBuffer

  /** Where the writer holding writeLock stands inside sendLocked. */
  datatype Writer =
    | Idle      // no writer holds the lock
    | Wrote     // past buffer.Write, flush delay not yet looked at
    | Arming    // won the compare-and-swap, timer not yet armed
    | Clearing  // entered tryDrainWake, flag not yet cleared
    | Sending   // flag cleared, token not yet offered

  /** The drainer: `Waiting` runs from an empty read with an empty batch to the receive of a token. */
  datatype Drainer = Reading(batched: bool) | Waiting | Stopped

  datatype State = State(
    buf: Buf,
    writer: Writer,
    flushPending: bool,
    armed: bool,         // the flush timer will fire
    timerClearing: nat,  // timer callbacks that have not cleared the flag
    flushClearing: nat,  // StartFlush calls that have not cleared the flag
    sending: nat,        // callbacks and StartFlush calls between clearing and offering the token
    token: bool,         // the one slot of drainWake
    drainer: Drainer)

  datatype Step =
    | WriterWrite(line: string)
    | WriterSwap
    | WriterArm
    | WriterDirect
    | WriterClear
    | WriterSend
    | TimerFire
    | TimerClear
    | StartFlush
    | FlushClear
    | Send
    | DrainRead
    | DrainReturn
    | DrainWake
    | DrainStop

  function Init(capacity: nat): State {
    State(NewBuf(capacity), Idle, false, false, 0, 0, 0, false, Reading(false))
  }

  predicate Enabled(s: State, step: Step) {
    match step
    case WriterWrite(_) => s.writer.Idle?
    case WriterSwap => s.writer.Wrote?
    case WriterArm => s.writer.Arming?
    case WriterDirect => s.writer.Wrote?
    case WriterClear => s.writer.Clearing?
    case WriterSend => s.writer.Sending?
    case TimerFire => s.armed
    case TimerClear => s.timerClearing > 0
    case StartFlush => true
    case FlushClear => s.flushClearing > 0
    case Send => s.sending > 0
    case DrainRead => s.drainer.Reading?
    case DrainReturn => s.drainer == Reading(true)
    case DrainWake => s.drainer.Waiting? && s.token
    case DrainStop => s.drainer.Waiting?
  }

  function Apply(s: State, step: Step): State
    requires Enabled(s, step)
  {
    match step
    case WriterWrite(line) => s.(buf := AfterWrite(s.buf, Bytes(line)), writer := Wrote)
    // CompareAndSwap(false, true)
    case WriterSwap =>
      if s.flushPending then s.(writer := Idle) else s.(flushPending := true, writer := Arming)
    // AfterFunc the first time, Reset afterwards
    case WriterArm => s.(armed := true, writer := Idle)
    // flush delay not positive: wake directly
    case WriterDirect => s.(writer := Clearing)
    case WriterClear => s.(flushPending := false, writer := Sending)
    case WriterSend => s.(token := true, writer := Idle)
    case TimerFire => s.(armed := false, timerClearing := s.timerClearing + 1)
    case TimerClear =>
      s.(flushPending := false, timerClearing := s.timerClearing - 1, sending := s.sending + 1)
    case StartFlush => s.(flushClearing := s.flushClearing + 1)
    case FlushClear =>
      s.(flushPending := false, flushClearing := s.flushClearing - 1, sending := s.sending + 1)
    case Send => s.(token := true, sending := s.sending - 1)
    case DrainRead =>
      var line := LineRead(s.buf);
      s.(buf := AfterRead(s.buf),
         drainer :=
           if line.Nil? then (if s.drainer.batched then Reading(false) else Waiting)
           else Reading(s.drainer.batched || line.text != ""))
    case DrainReturn => s.(drainer := Reading(false))
    case DrainWake => s.(token := false, drainer := Reading(false))
    case DrainStop => s.(drainer := Stopped)
  }

  ghost predicate ValidRun(s: State, steps: seq<Step>)
    decreases steps
  {
    steps == [] || (Enabled(s, steps[0]) && ValidRun(Apply(s, steps[0]), steps[1..]))
  }

  ghost function Exec(s: State, steps: seq<Step>): State
    requires ValidRun(s, steps)
    decreases steps
  {
    if steps == [] then s else Exec(Apply(s, steps[0]), steps[1..])
  }

  // ---- Safety ----

  /** Some thread other than the drainer is already bound to offer a token. */
  predicate WakeComing(s: State) {
    || s.token
    || s.armed
    || s.timerClearing > 0 || s.flushClearing > 0 || s.sending > 0
    || !s.writer.Idle?
  }

  /** The flag is never left set without someone who will clear it and wake the drainer. */
  predicate FlagOwned(s: State) {
    s.flushPending ==> s.armed || s.timerClearing > 0 || s.writer.Arming?
  }

  /** Loggers never queue nil slices. */
  ghost predicate NoNil(b: Buf) {
    forall e :: e in b.pending ==> e.msg.Bytes?
  }

  ghost predicate Inv(s: State) {
    && NoNil(s.buf)
    && FlagOwned(s)
    && (s.drainer.Waiting? && HasLine(s.buf) ==> WakeComing(s))
  }

  lemma StepKeepsInv(s: State, step: Step)
    requires Inv(s) && Enabled(s, step)
    ensures Inv(Apply(s, step))
  {
    if step.DrainRead? {
      assert s.buf.pending != [] ==> s.buf.pending[0] in s.buf.pending;
    }
  }

  lemma {:induction false} RunKeepsInv(s: State, steps: seq<Step>)
    requires Inv(s) && ValidRun(s, steps)
    ensures Inv(Exec(s, steps))
    decreases steps
  {
    if steps != [] {
      StepKeepsInv(s, steps[0]);
      RunKeepsInv(Apply(s, steps[0]), steps[1..]);
    }
  }

  /**
   * No lost wake-up: in every interleaving, a drainer that saw an empty buffer and is waiting while
   * lines are queued has a token on its way; and a set flag always has an owner.
   */
  lemma NoLostWakeup(capacity: nat, steps: seq<Step>)
    requires ValidRun(Init(capacity), steps)
    ensures var s := Exec(Init(capacity), steps);
            && (s.drainer.Waiting? && HasLine(s.buf) ==> WakeComing(s))
            && FlagOwned(s)
  {
    RunKeepsInv(Init(capacity), steps);
  }

  // ---- Progress: what is coming does arrive ----

  /** Steps already promised: they need neither the drainer nor a fresh write or StartFlush. */
  predicate Internal(step: Step) {
    || step.WriterSwap? || step.WriterArm? || step.WriterDirect? || step.WriterClear?
    || step.WriterSend? || step.TimerFire? || step.TimerClear? || step.FlushClear? || step.Send?
  }

  ghost predicate InternalRun(steps: seq<Step>) {
    forall step :: step in steps ==> Internal(step)
  }

  function WriterWork(w: Writer): nat {
    match w
    case Idle => 0
    case Wrote => 5
    case Arming => 4
    case Clearing => 2
    case Sending => 1
  }

  function Work(s: State): nat {
    WriterWork(s.writer) + (if s.armed then 3 else 0)
    + 2 * (s.timerClearing + s.flushClearing) + s.sending
  }

  lemma {:induction false} InternalRunShrinks(s: State, steps: seq<Step>)
    requires ValidRun(s, steps) && InternalRun(steps)
    ensures Work(Exec(s, steps)) + |steps| <= Work(s)
    ensures Exec(s, steps).drainer == s.drainer && Exec(s, steps).buf == s.buf
    decreases steps
  {
    if steps != [] {
      assert steps[0] in steps;
      assert forall step :: step in steps[1..] ==> step in steps;
      InternalRunShrinks(Apply(s, steps[0]), steps[1..]);
    }
  }

  lemma Unfinished(s: State)
    requires Work(s) > 0
    ensures exists step :: Internal(step) && Enabled(s, step)
  {
    if s.writer.Wrote? { assert Enabled(s, WriterSwap); }
    else if s.writer.Arming? { assert Enabled(s, WriterArm); }
    else if s.writer.Clearing? { assert Enabled(s, WriterClear); }
    else if s.writer.Sending? { assert Enabled(s, WriterSend); }
    else if s.armed { assert Enabled(s, TimerFire); }
    else if s.timerClearing > 0 { assert Enabled(s, TimerClear); }
    else if s.flushClearing > 0 { assert Enabled(s, FlushClear); }
    else { assert Enabled(s, Send); }
  }

  /**
   * From every reachable state with a waiting drainer and queued lines, letting the other threads
   * finish what they have begun takes at most Work(s) steps and always ends with a token queued.
   */
  lemma WakeArrives(capacity: nat, past: seq<Step>, future: seq<Step>)
    requires ValidRun(Init(capacity), past)
    requires var s := Exec(Init(capacity), past);
             s.drainer.Waiting? && HasLine(s.buf) && ValidRun(s, future) && InternalRun(future)
    ensures var s := Exec(Init(capacity), past);
            |future| <= Work(s)
            && ((forall step | Internal(step) :: !Enabled(Exec(s, future), step)) ==> Exec(s, future).token)
  {
    var s := Exec(Init(capacity), past);
    RunKeepsInv(Init(capacity), past);
    InternalRunShrinks(s, future);
    RunKeepsInv(s, future);
    var t := Exec(s, future);
    if forall step | Internal(step) :: !Enabled(t, step) {
      if Work(t) > 0 {
        Unfinished(t);
      }
    }
  }
}
