/**
 * Concurrent getOrFill callers (metrics/multilabelmap.go): a lock-free look-up, then a second
 * look-up, the fill, the index update and the store under the mutex. No Set, Delete or Init runs.
 */
module FillOnce {
  import opened Options
  import Labels

  type Thread = nat
  type Key = Labels.Key

  /** Where a caller stands. A filled value is named by the number of the fill call that made it. */
  datatype Pc =
    | Idle
    | Missed(key: Key)                // the lock-free look-up found nothing
    | Locked(key: Key)                // holds the mutex, before the second look-up
    | Absent(key: Key)                // holds the mutex, second look-up found nothing
    | Indexed(key: Key, val: nat)     // holds the mutex, slice updated, map not yet
    | Stored(key: Key, val: nat)      // holds the mutex, map updated
    | Hit(key: Key, val: nat)         // holds the mutex, second look-up found a value

  /**
   * `index` is the slice's contents, `fills` the key of each fill call in order, and `out` what each
   * call returned, for which key.
   */
  datatype State = State(pc: map<Thread, Pc>, lock: Option<Thread>, m: map<Key, nat>, index: map<Key, nat>,
                         fills: seq<Key>, out: seq<(Key, nat)>)

  datatype Step =
    | Call(t: Thread, key: Key)
    | Acquire(t: Thread)
    | Recheck(t: Thread)
    | Fill(t: Thread)
    | Store(t: Thread)
    | Release(t: Thread)

  function PcOf(s: State, t: Thread): Pc {
    if t in s.pc then s.pc[t] else Idle
  }

  /** Steps that are not enabled change nothing. */
  function Apply(s: State, step: Step): State {
    var p := PcOf(s, step.t);
    match step
    case Call(t, key) =>
      if !p.Idle? then s
      else if key in s.m then s.(out := s.out + [(key, s.m[key])])
      else s.(pc := s.pc[t := Missed(key)])
    case Acquire(t) =>
      if p.Missed? && s.lock == None then s.(lock := Some(t), pc := s.pc[t := Locked(p.key)]) else s
    case Recheck(t) =>
      if !p.Locked? then s
      else s.(pc := s.pc[t := if p.key in s.m then Hit(p.key, s.m[p.key]) else Absent(p.key)])
    case Fill(t) =>
      if !p.Absent? then s
      else s.(pc := s.pc[t := Indexed(p.key, |s.fills|)], index := s.index[p.key := |s.fills|], fills := s.fills + [p.key])
    case Store(t) =>
      if !p.Indexed? then s
      else s.(pc := s.pc[t := Stored(p.key, p.val)], m := s.m[p.key := p.val])
    case Release(t) =>
      if p.Stored? || p.Hit? then s.(lock := None, pc := s.pc[t := Idle], out := s.out + [(p.key, p.val)])
      else s
  }

  function Exec(s: State, steps: seq<Step>): State {
    if steps == [] then s else Apply(Exec(s, steps[..|steps| - 1]), steps[|steps| - 1])
  }

  predicate InCriticalSection(p: Pc) {
    p.Locked? || p.Absent? || p.Indexed? || p.Stored? || p.Hit?
  }

  /** The mutex is held by exactly the thread inside, if any. */
  ghost predicate Exclusive(s: State) {
    forall t: Thread :: InCriticalSection(PcOf(s, t)) <==> s.lock == Some(t)
  }

  /** What a thread remembers is true. */
  ghost predicate Remembers(s: State, p: Pc) {
    match p
    case Stored(key, val) => key in s.m && s.m[key] == val
    case Hit(key, val) => key in s.m && s.m[key] == val
    case Absent(key) => key !in s.index
    case Indexed(key, val) => key !in s.m && key in s.index && s.index[key] == val
    case _ => true
  }

  /** The slice names every fill call once, under the key it was made for. */
  ghost predicate Filled(s: State) {
    && (forall k :: k in s.index ==> s.index[k] < |s.fills| && s.fills[s.index[k]] == k)
    && (forall i :: 0 <= i < |s.fills| ==> s.fills[i] in s.index && s.index[s.fills[i]] == i)
  }

  /** The key whose slice entry is not yet in the map. */
  ghost predicate Pending(s: State, k: Key) {
    s.lock.Some? && PcOf(s, s.lock.value).Indexed? && PcOf(s, s.lock.value).key == k
  }

  ghost predicate Agree(s: State) {
    && (forall k :: k in s.m ==> k in s.index && s.index[k] == s.m[k])
    && (forall k :: k in s.index ==> k in s.m || Pending(s, k))
  }

  /** Every value returned is still the one the map holds. */
  ghost predicate Answered(s: State) {
    forall i :: 0 <= i < |s.out| ==> s.out[i].0 in s.m && s.m[s.out[i].0] == s.out[i].1
  }

  ghost predicate Inv(s: State) {
    && Exclusive(s) && Filled(s) && Agree(s) && Answered(s)
    && forall t: Thread :: Remembers(s, PcOf(s, t))
  }

  lemma StepKeepsExclusive(s: State, step: Step)
    requires Exclusive(s)
    ensures Exclusive(Apply(s, step))
  {
    var s' := Apply(s, step);
    assert forall t: Thread :: t != step.t ==> PcOf(s', t) == PcOf(s, t);
  }

  lemma StepKeepsFilled(s: State, step: Step)
    requires Filled(s) && Remembers(s, PcOf(s, step.t))
    ensures Filled(Apply(s, step))
  {
  }

  lemma StepKeepsAgree(s: State, step: Step)
    requires Agree(s) && Exclusive(s) && Remembers(s, PcOf(s, step.t))
    ensures Agree(Apply(s, step))
  {
    var s' := Apply(s, step);
    var p := PcOf(s, step.t);
    assert InCriticalSection(p) ==> s.lock == Some(step.t);
    forall k | k in s'.index && k !in s'.m
      ensures Pending(s', k)
    {
      assert k in s.index ==> k in s.m || Pending(s, k);
    }
  }

  lemma StepKeepsRemembers(s: State, step: Step, t: Thread)
    requires Agree(s) && Exclusive(s)
    requires Remembers(s, PcOf(s, t)) && Remembers(s, PcOf(s, step.t))
    ensures Remembers(Apply(s, step), PcOf(Apply(s, step), t))
  {
    var p, q := PcOf(s, step.t), PcOf(s, t);
    assert InCriticalSection(p) ==> s.lock == Some(step.t);
    assert InCriticalSection(q) ==> s.lock == Some(t);
    if t == step.t && step.Recheck? && p.Locked? {
      assert forall k :: k in s.index ==> k in s.m || Pending(s, k);
    }
  }

  lemma StepKeepsAnswered(s: State, step: Step)
    requires Answered(s) && Remembers(s, PcOf(s, step.t))
    ensures Answered(Apply(s, step))
  {
  }

  lemma StepKeepsInv(s: State, step: Step)
    requires Inv(s)
    ensures Inv(Apply(s, step))
  {
    StepKeepsExclusive(s, step);
    StepKeepsFilled(s, step);
    StepKeepsAgree(s, step);
    StepKeepsAnswered(s, step);
    forall t: Thread
      ensures Remembers(Apply(s, step), PcOf(Apply(s, step), t))
    {
      StepKeepsRemembers(s, step, t);
    }
  }

  const Start: State := State(map[], None, map[], map[], [], [])

  lemma {:induction false} RunKeepsInv(steps: seq<Step>)
    ensures Inv(Exec(Start, steps))
  {
    if steps != [] {
      RunKeepsInv(steps[..|steps| - 1]);
      StepKeepsInv(Exec(Start, steps[..|steps| - 1]), steps[|steps| - 1]);
    }
  }

  /**
   * In every interleaving: all calls for one key return the same value, fill runs at most once per
   * key, and while the mutex is free the slice and the map are equal.
   */
  lemma CallersAgree(steps: seq<Step>)
    ensures var s := Exec(Start, steps);
            && (forall i, j :: 0 <= i < j < |s.out| && s.out[i].0 == s.out[j].0 ==> s.out[i].1 == s.out[j].1)
            && (forall i :: 0 <= i < |s.out| ==> s.out[i].1 < |s.fills| && s.fills[s.out[i].1] == s.out[i].0)
            && (forall i, j :: 0 <= i < j < |s.fills| ==> s.fills[i] != s.fills[j])
            && (s.lock == None ==> s.index == s.m)
  {
    RunKeepsInv(steps);
  }
}
