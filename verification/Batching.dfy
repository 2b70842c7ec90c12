/**
 * How a stream of reads is cut into upload batches (logtail/logtail.go, drainPending), whatever the
 * lines and their encodings are.
 */
module Batching {
  import opened Options
  import Seqs
  import opened Json
  import opened LogEntry

  /** What one read means to the drain loop, with the batch entries it contributes (at most one). */
  datatype Signal =
    | Took(entries: seq<string>)   // a line was read
    | Paused(shutdown: bool)       // no line; blocking would end in shutdown or in a wake-up
    | Ended(entries: seq<string>)  // end of file, or a read error

  function Contribution(s: Signal): seq<string> {
    if s.Paused? then [] else s.entries
  }

  function EntriesOf(signals: seq<Signal>): seq<string> {
    if signals == [] then [] else EntriesOf(signals[..|signals| - 1]) + Contribution(signals[|signals| - 1])
  }

  function Commas(entries: seq<string>): string {
    if entries == [] then ""
    else if |entries| == 1 then entries[0]
    else Commas(entries[..|entries| - 1]) + "," + entries[|entries| - 1]
  }

  function Batch(entries: seq<string>): Option<string> {
    if entries == [] then None else Some("[" + Commas(entries) + "]")
  }

  /** The batch under construction: the bracket and every entry with a comma after it. */
  function Open(entries: seq<string>): string {
    "[" + if entries == [] then "" else Commas(entries) + ","
  }

  // ---- When a call returns ----

  predicate Ends(s: Signal, entries: seq<string>) {
    s.Ended? || (s.Paused? && (entries != [] || s.shutdown))
  }

  /** A call with the given size limit returns after exactly n signals. */
  predicate StopsAt(max: int, signals: seq<Signal>, n: nat)
    requires n <= |signals|
  {
    || (n > 0 && Ends(signals[n - 1], EntriesOf(signals[..n - 1])))
    || |Open(EntriesOf(signals[..n]))| >= max
  }

  /** The first point at which a call returns. */
  ghost predicate ReturnsAt(max: int, signals: seq<Signal>, n: nat) {
    n <= |signals| && StopsAt(max, signals, n) && forall i :: 0 <= i < n ==> !StopsAt(max, signals, i)
  }

  /** A call is still blocked when the signals run out. */
  ghost predicate Blocks(max: int, signals: seq<Signal>) {
    forall i :: 0 <= i <= |signals| ==> !StopsAt(max, signals, i)
  }

  /** Entries never end in a comma, so trimming commas cannot damage one. */
  ghost predicate Clean(entries: seq<string>) {
    forall i :: 0 <= i < |entries| ==> entries[i] != "" && entries[i][|entries[i]| - 1] != ','
  }

  ghost predicate CleanSignals(signals: seq<Signal>) {
    forall i :: 0 <= i < |signals| ==> |Contribution(signals[i])| <= 1 && Clean(Contribution(signals[i]))
  }

  lemma OpenSnoc(entries: seq<string>, e: string)
    ensures Open(entries + [e]) == Open(entries) + e + ","
  {
    assert (entries + [e])[..|entries|] == entries;
    if entries == [] {
      assert entries + [e] == [e];
    }
  }

  /** Trimming commas and closing the bracket yields the joined batch. */
  lemma CloseBatch(entries: seq<string>)
    requires entries != [] ==> entries[|entries| - 1] != "" && entries[|entries| - 1][|entries[|entries| - 1]| - 1] != ','
    ensures TrimRight(Open(entries), {','}) == "[" + Commas(entries)
    ensures TrimRight("[" + Commas(entries), {','}) == "[" + Commas(entries)
  {
    var x := "[" + Commas(entries);
    TrimTail(x, "", {','});
    assert x + "" == x;
    if entries == [] {
      assert Open(entries) == x;
    } else {
      TrimTail(x, ",", {','});
      assert Open(entries) == x + ",";
    }
  }

  method FinishBatch(b: string, ghost entries: seq<string>) returns (r: Option<string>)
    requires Clean(entries) && (b == Open(entries) || b == "[" + Commas(entries))
    ensures r == Batch(entries)
  {
    CloseBatch(entries);
    var t := TrimRight(b, {','}) + "]";
    if entries != [] {
      CommasNonempty(entries);
    }
    r := if |t| <= 2 then None else Some(t);
  }

  lemma {:induction false} CommasNonempty(entries: seq<string>)
    requires entries != [] && Clean(entries)
    ensures Commas(entries) != ""
  {
  }

  lemma EntriesSnoc(signals: seq<Signal>, n: nat)
    requires n < |signals|
    ensures EntriesOf(signals[..n + 1]) == EntriesOf(signals[..n]) + Contribution(signals[n])
  {
    assert signals[..n + 1][..n] == signals[..n] && signals[..n + 1][n] == signals[n];
  }

  lemma EntriesStep(signals: seq<Signal>, n: nat)
    requires CleanSignals(signals) && n < |signals|
    ensures EntriesOf(signals[..n + 1]) == EntriesOf(signals[..n]) + Contribution(signals[n])
    ensures Clean(EntriesOf(signals[..n])) ==> Clean(EntriesOf(signals[..n + 1]))
  {
    EntriesSnoc(signals, n);
  }

  /** The drain loop's invariant: n signals consumed, nothing so far made the call return. */
  ghost predicate Draining(max: int, signals: seq<Signal>, n: nat, buf: string) {
    && n <= |signals|
    && buf == Open(EntriesOf(signals[..n])) && Clean(EntriesOf(signals[..n]))
    && (n > 0 ==> !Ends(signals[n - 1], EntriesOf(signals[..n - 1])))
    && forall i :: 0 <= i < n ==> !StopsAt(max, signals, i)
  }

  lemma DrainStep(max: int, signals: seq<Signal>, n: nat, buf: string, r: string)
    requires CleanSignals(signals) && Draining(max, signals, n, buf) && |buf| < max && n < |signals|
    requires var all := EntriesOf(signals[..n]) + Contribution(signals[n]);
             r == Open(all) || (signals[n].Ended? && r == "[" + Commas(all))
    ensures forall i :: 0 <= i < n + 1 ==> !StopsAt(max, signals, i)
    ensures Clean(EntriesOf(signals[..n + 1]))
    ensures if Ends(signals[n], EntriesOf(signals[..n]))
            then ReturnsAt(max, signals, n + 1) && (r == Open(EntriesOf(signals[..n + 1])) || r == "[" + Commas(EntriesOf(signals[..n + 1])))
            else Draining(max, signals, n + 1, r)
  {
    EntriesStep(signals, n);
  }

  /** The loop's guard fails, or the signals run out. */
  lemma DrainOver(max: int, signals: seq<Signal>, n: nat, buf: string)
    requires Draining(max, signals, n, buf)
    ensures |buf| >= max ==> ReturnsAt(max, signals, n)
    ensures |buf| < max && n == |signals| ==> Blocks(max, signals)
  {
  }

  lemma ErrorBatch(entries: seq<string>, e: string)
    ensures Open(entries) + e == "[" + Commas(entries + [e])
  {
    assert (entries + [e])[..|entries|] == entries;
    if entries == [] {
      assert entries + [e] == [e];
    }
  }

  // ---- Size ----

  lemma {:induction false} BatchLength(entries: seq<string>)
    ensures |Open(entries)| == 1 + TotalLength(entries) + |entries|
    ensures entries != [] ==> |"[" + Commas(entries) + "]"| == |Open(entries)|
  {
    if |entries| > 1 {
      BatchLength(entries[..|entries| - 1]);
    } else if |entries| == 1 {
      assert entries[..0] == [];
    }
  }

  function TotalLength(entries: seq<string>): nat {
    if entries == [] then 0 else TotalLength(entries[..|entries| - 1]) + |entries[|entries| - 1]|
  }

  /** A batch exceeds the limit by at most one entry. */
  lemma BatchSize(max: int, signals: seq<Signal>, n: nat, limit: nat)
    requires CleanSignals(signals) && ReturnsAt(max, signals, n)
    requires forall t :: t in EntriesOf(signals[..n]) ==> |t| <= limit
    ensures EntriesOf(signals[..n]) != [] ==> |Batch(EntriesOf(signals[..n])).value| <= max + limit
  {
    var entries := EntriesOf(signals[..n]);
    if entries != [] {
      var m := LastContribution(signals, n);
      assert !StopsAt(max, signals, m);
      var before := EntriesOf(signals[..m]);
      BatchLength(entries);
      BatchLength(before);
      assert entries[..|entries| - 1] == before;
      assert entries[|entries| - 1] in entries;
    }
  }

  /** The last signal that added an entry: everything before it fits the limit. */
  lemma {:induction false} LastContribution(signals: seq<Signal>, n: nat) returns (m: nat)
    requires n <= |signals| && EntriesOf(signals[..n]) != []
    requires forall i :: 0 <= i < n ==> |Contribution(signals[i])| <= 1
    ensures m < n
    ensures |EntriesOf(signals[..m])| == |EntriesOf(signals[..n])| - 1
    ensures EntriesOf(signals[..m]) == EntriesOf(signals[..n])[..|EntriesOf(signals[..n])| - 1]
    decreases n
  {
    EntriesSnoc(signals, n - 1);
    if Contribution(signals[n - 1]) == [] {
      m := LastContribution(signals, n - 1);
    } else {
      m := n - 1;
    }
  }

  // ---- Every line in exactly one batch ----

  lemma {:induction false} EntriesConcat(a: seq<Signal>, b: seq<Signal>)
    ensures EntriesOf(a + b) == EntriesOf(a) + EntriesOf(b)
    decreases b
  {
    if b == [] {
      assert a + b == a;
    } else {
      var d := b[..|b| - 1];
      assert (a + b)[..|a + b| - 1] == a + d && (a + b)[|a + b| - 1] == b[|b| - 1];
      EntriesConcat(a, d);
    }
  }

  /** A call makes no progress at all exactly when the limit leaves no room after the bracket. */
  lemma StallsIffNoRoom(max: int, signals: seq<Signal>)
    ensures StopsAt(max, signals, 0) <==> max <= 1
  {
    assert signals[..0] == [];
  }

  /** Where the next call returns, or the number of signals when it does not. */
  ghost function ReturnPoint(max: int, signals: seq<Signal>, from: nat): (n: nat)
    requires from <= |signals|
    ensures from <= n <= |signals|
    decreases |signals| - from
  {
    if from == |signals| || StopsAt(max, signals, from) then from else ReturnPoint(max, signals, from + 1)
  }

  /** The first stopping point is the return point. */
  lemma {:induction false} ReturnPointIsFirst(max: int, signals: seq<Signal>, from: nat, n: nat)
    requires from <= n && ReturnsAt(max, signals, n)
    ensures ReturnPoint(max, signals, from) == n
    decreases n - from
  {
    if from < n {
      ReturnPointIsFirst(max, signals, from + 1, n);
    }
  }

  /** The numbers of signals that repeated calls consume, as long as they return. */
  ghost function Calls(max: int, signals: seq<Signal>): (calls: seq<nat>)
    requires max > 1
    ensures Fits(calls, |signals|)
    decreases |signals|
  {
    StallsIffNoRoom(max, signals);
    var n := ReturnPoint(max, signals, 0);
    if !StopsAt(max, signals, n) then []
    else
      var rest := Calls(max, signals[n..]);
      assert ([n] + rest)[1..] == rest;
      [n] + rest
  }

  /** A call that returns consumes its signals; the calls after it see the rest. */
  lemma FirstCall(max: int, signals: seq<Signal>, n: nat)
    requires max > 1 && ReturnsAt(max, signals, n)
    ensures n > 0
    ensures var calls, rest := Calls(max, signals), Calls(max, signals[n..]);
            && calls == [n] + rest
            && Batches(signals, calls) == [EntriesOf(signals[..n])] + Batches(signals[n..], rest)
            && Unsent(signals, calls) == Unsent(signals[n..], rest)
  {
    StallsIffNoRoom(max, signals);
    ReturnPointIsFirst(max, signals, 0, n);
    var rest := Calls(max, signals[n..]);
    assert ([n] + rest)[1..] == rest;
  }

  /** A call that does not return is the last. */
  lemma NoMoreCalls(max: int, signals: seq<Signal>)
    requires max > 1 && Blocks(max, signals)
    ensures Calls(max, signals) == []
  {
  }

  /** The batches that repeated calls make of the signals. */
  ghost function AllBatches(max: int, signals: seq<Signal>): seq<seq<string>>
    requires max > 1
  {
    Batches(signals, Calls(max, signals))
  }

  function Sum(calls: seq<nat>): nat {
    if calls == [] then 0 else calls[0] + Sum(calls[1..])
  }

  /** What one call may do: consume so many of the signals and return a text. */
  type Answer = (seq<Signal>, nat, Option<string>) -> bool

  /** Successive calls consumed these numbers of signals and returned these texts. */
  ghost predicate Answered(ok: Answer, signals: seq<Signal>, calls: seq<nat>, texts: seq<Option<string>>)
    decreases calls
  {
    if calls == [] then texts == []
    else
      && texts != [] && calls[0] <= |signals| && ok(signals, calls[0], texts[0])
      && Answered(ok, signals[calls[0]..], calls[1..], texts[1..])
  }

  lemma {:induction false} OneMoreAnswer(ok: Answer, signals: seq<Signal>, calls: seq<nat>, texts: seq<Option<string>>,
                                         rest: seq<Signal>, k: nat, b: Option<string>)
    requires Answered(ok, signals, calls, texts) && Sum(calls) <= |signals| && rest == signals[Sum(calls)..]
    requires k <= |rest| && ok(rest, k, b)
    ensures Answered(ok, signals, calls + [k], texts + [b])
    ensures Sum(calls + [k]) == Sum(calls) + k <= |signals|
    decreases calls
  {
    if calls == [] {
      assert rest == signals && calls + [k] == [k] && texts + [b] == [b] && [k][1..] == [] && [b][1..] == [];
    } else {
      var later := signals[calls[0]..];
      assert later[Sum(calls[1..])..] == rest;
      OneMoreAnswer(ok, later, calls[1..], texts[1..], rest, k, b);
      assert (calls + [k])[1..] == calls[1..] + [k] && (texts + [b])[1..] == texts[1..] + [b];
    }
  }

  ghost function DrainAnswer(max: int): Answer {
    (signals: seq<Signal>, k: nat, b: Option<string>) => ReturnsAt(max, signals, k) && b == Batch(EntriesOf(signals[..k]))
  }

  /** When the next call blocks, the texts are those of all batches. */
  lemma {:induction false} ReturnedIsAll(max: int, signals: seq<Signal>, calls: seq<nat>, texts: seq<Option<string>>, rest: seq<Signal>)
    requires max > 1 && Answered(DrainAnswer(max), signals, calls, texts) && Sum(calls) <= |signals|
    requires rest == signals[Sum(calls)..] && Blocks(max, rest)
    ensures Seqs.Images(AllBatches(max, signals), Batch, texts)
    decreases calls
  {
    if calls == [] {
      assert rest == signals;
      NoMoreCalls(max, signals);
    } else {
      var later := signals[calls[0]..];
      assert later[Sum(calls[1..])..] == rest;
      ReturnedIsAll(max, later, calls[1..], texts[1..], rest);
      FirstCall(max, signals, calls[0]);
      var first, others := EntriesOf(signals[..calls[0]]), AllBatches(max, later);
      assert AllBatches(max, signals) == [first] + others && texts == [texts[0]] + texts[1..];
      ImagesCons(first, others, texts[0], texts[1..]);
    }
  }

  lemma ImagesCons(first: seq<string>, others: seq<seq<string>>, text: Option<string>, texts: seq<Option<string>>)
    requires text == Batch(first) && Seqs.Images(others, Batch, texts)
    ensures Seqs.Images([first] + others, Batch, [text] + texts)
  {
  }

  ghost predicate Fits(calls: seq<nat>, length: nat) {
    calls == [] || (calls[0] <= length && Fits(calls[1..], length - calls[0]))
  }

  /** The batches of successive calls, each as its list of entries. */
  ghost function Batches(signals: seq<Signal>, calls: seq<nat>): seq<seq<string>>
    requires Fits(calls, |signals|)
    decreases calls
  {
    if calls == [] then []
    else [EntriesOf(signals[..calls[0]])] + Batches(signals[calls[0]..], calls[1..])
  }

  /** The entries read by the call that has not returned. */
  ghost function Unsent(signals: seq<Signal>, calls: seq<nat>): seq<string>
    requires Fits(calls, |signals|)
    decreases calls
  {
    if calls == [] then EntriesOf(signals) else Unsent(signals[calls[0]..], calls[1..])
  }

  ghost function Flatten(batches: seq<seq<string>>): seq<string> {
    if batches == [] then [] else batches[0] + Flatten(batches[1..])
  }

  lemma {:induction false} CutsPartition(signals: seq<Signal>, calls: seq<nat>)
    requires Fits(calls, |signals|)
    ensures Flatten(Batches(signals, calls)) + Unsent(signals, calls) == EntriesOf(signals)
    decreases calls
  {
    if calls == [] {
      assert [] + EntriesOf(signals) == EntriesOf(signals);
    } else {
      var n, more := calls[0], calls[1..];
      var rest := signals[n..];
      CutsPartition(rest, more);
      FirstBatch(signals, n, Batches(rest, more), Unsent(rest, more));
    }
  }

  /** The entries read by the call that blocks when the signals run out. */
  ghost function UnsentAfter(max: int, signals: seq<Signal>): seq<string>
    requires max > 1
  {
    Unsent(signals, Calls(max, signals))
  }

  /** Every entry lands in exactly one batch of the repeated calls or is still unsent, in the order read. */
  lemma BatchesPartitionLines(max: int, signals: seq<Signal>)
    requires max > 1
    ensures Flatten(AllBatches(max, signals)) + UnsentAfter(max, signals) == EntriesOf(signals)
  {
    CutsPartition(signals, Calls(max, signals));
  }

  lemma FirstBatch(signals: seq<Signal>, n: nat, batches: seq<seq<string>>, unsent: seq<string>)
    requires n <= |signals| && Flatten(batches) + unsent == EntriesOf(signals[n..])
    ensures Flatten([EntriesOf(signals[..n])] + batches) + unsent == EntriesOf(signals)
  {
    var first := EntriesOf(signals[..n]);
    FlattenCons(first, batches);
    EntriesConcat(signals[..n], signals[n..]);
    assert signals == signals[..n] + signals[n..];
    Seqs.Assoc(first, Flatten(batches), unsent);
  }

  lemma FlattenCons(first: seq<string>, rest: seq<seq<string>>)
    ensures Flatten([first] + rest) == first + Flatten(rest)
  {
    assert ([first] + rest)[1..] == rest;
  }
}
