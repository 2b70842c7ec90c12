/** The bounded in-memory line queue between log writers and the uploader (logtail/buffer.go). */
module MemBuffer {
  import Seqs

  /** A Go byte slice. A nil slice is different from an empty one: readers take nil to mean "no line". */
  datatype Slice = Nil | Bytes(text: string)
  {
    function Len(): nat {
      if Nil? then 0 else |text|
    }

    function Lines(): seq<string> {
      if Nil? then [] else [text]
    }
  }

  datatype QEntry = QEntry(msg: Slice, dropCount: nat)

  /** The state that decides which lines come out: the held line, the channel and the drop count. */
  datatype Buf = Buf(capacity: nat, next: Slice, pending: seq<QEntry>, dropCount: nat)

  function NewBuf(capacity: nat): Buf {
    Buf(capacity, Nil, [], 0)
  }

  function Decimal(n: nat): string {
    var digit := ['0' + (n % 10) as char];
    if n < 10 then digit else Decimal(n / 10) + digit
  }

  function DropNotice(n: nat): string {
    "----------- " + Decimal(n) + " logs dropped ----------"
  }

  predicate HasRoom(b: Buf) {
    |b.pending| < b.capacity
  }

  function AfterWrite(b: Buf, line: Slice): Buf {
    if HasRoom(b) then
      b.(pending := b.pending + [QEntry(line, b.dropCount)], dropCount := 0)
    else
      b.(dropCount := b.dropCount + 1)
  }

  function AfterRead(b: Buf): Buf {
    if b.next.Bytes? then b.(next := Nil)
    else if b.pending == [] then b
    else
      var ent := b.pending[0];
      b.(next := if ent.dropCount > 0 then ent.msg else Nil, pending := b.pending[1..])
  }

  function LineRead(b: Buf): Slice {
    if b.next.Bytes? then b.next
    else if b.pending == [] then Nil
    else
      var ent := b.pending[0];
      if ent.dropCount > 0 then Bytes(DropNotice(ent.dropCount)) else ent.msg
  }

  predicate HasLine(b: Buf) {
    b.next.Bytes? || b.pending != []
  }

  // ---- What is still inside the queue, as the lines readers will get ----

  function EntryLines(e: QEntry): seq<string> {
    (if e.dropCount > 0 then [DropNotice(e.dropCount)] else []) + e.msg.Lines()
  }

  function QueueLines(q: seq<QEntry>): seq<string> {
    if q == [] then [] else EntryLines(q[0]) + QueueLines(q[1..])
  }

  function Inside(b: Buf): seq<string> {
    b.next.Lines() + QueueLines(b.pending)
  }

  function QueueBytes(q: seq<QEntry>): nat {
    if q == [] then 0 else q[0].msg.Len() + QueueBytes(q[1..])
  }

  function StoredBytes(b: Buf): nat {
    b.next.Len() + QueueBytes(b.pending)
  }

  lemma {:induction false} QueueAppend(q: seq<QEntry>, e: QEntry)
    ensures QueueLines(q + [e]) == QueueLines(q) + EntryLines(e)
    ensures QueueBytes(q + [e]) == QueueBytes(q) + e.msg.Len()
  {
    if q == [] {
      assert [e][1..] == [];
    } else {
      assert (q + [e])[1..] == q[1..] + [e];
      QueueAppend(q[1..], e);
    }
  }

  // ---- Runs: any interleaving of writes and reads ----

  datatype Op = Write(line: Slice) | Read

  /** One attempted write and whether the queue took it. */
  datatype Offer = Offer(line: Slice, accepted: bool)

  datatype World = World(buf: Buf, offers: seq<Offer>, lines: seq<string>)

  function Step(w: World, op: Op): World {
    match op
    case Write(line) =>
      World(AfterWrite(w.buf, line), w.offers + [Offer(line, HasRoom(w.buf))], w.lines)
    case Read =>
      World(AfterRead(w.buf), w.offers, w.lines + LineRead(w.buf).Lines())
  }

  function Run(capacity: nat, ops: seq<Op>): World {
    if ops == [] then World(NewBuf(capacity), [], [])
    else Step(Run(capacity, ops[..|ops| - 1]), ops[|ops| - 1])
  }

  /** The refused writes at the end of the history: the run of failures the next notice must report. */
  function TrailingDrops(h: seq<Offer>): nat {
    if h == [] || h[|h| - 1].accepted then 0 else 1 + TrailingDrops(h[..|h| - 1])
  }

  /**
   * What readers must see for a write history: each accepted line, in order, preceded by a notice
   * when writes were refused since the accepted line before it.
   */
  function Transcript(h: seq<Offer>): seq<string> {
    if h == [] then []
    else
      var before := h[..|h| - 1];
      if h[|h| - 1].accepted then
        var drops := TrailingDrops(before);
        Transcript(before) + (if drops > 0 then [DropNotice(drops)] else []) + h[|h| - 1].line.Lines()
      else Transcript(before)
  }

  ghost predicate Accounted(w: World) {
    && w.lines + Inside(w.buf) == Transcript(w.offers)
    && w.buf.dropCount == TrailingDrops(w.offers)
    && |w.buf.pending| <= w.buf.capacity
  }

  lemma WriteAccounted(w: World, line: Slice)
    requires Accounted(w)
    ensures Accounted(Step(w, Write(line)))
  {
    var w' := Step(w, Write(line));
    assert w'.offers[..|w'.offers| - 1] == w.offers;
    if HasRoom(w.buf) {
      var e := QEntry(line, w.buf.dropCount);
      QueueAppend(w.buf.pending, e);
      Seqs.Assoc(w.buf.next.Lines(), QueueLines(w.buf.pending), EntryLines(e));
      Seqs.Assoc(w.lines, Inside(w.buf), EntryLines(e));
      var notice := if e.dropCount > 0 then [DropNotice(e.dropCount)] else [];
      Seqs.Assoc(Transcript(w.offers), notice, line.Lines());
    }
  }

  lemma ReadAccounted(w: World)
    requires Accounted(w)
    ensures Accounted(Step(w, Read))
  {
    ReadSplits(w.buf);
    Seqs.Assoc(w.lines, LineRead(w.buf).Lines(), Inside(AfterRead(w.buf)));
  }

  lemma ReadSplits(b: Buf)
    ensures LineRead(b).Lines() + Inside(AfterRead(b)) == Inside(b)
  {
    if b.next.Nil? && b.pending != [] {
      EntrySplits(b.pending[0], QueueLines(b.pending[1..]));
    }
  }

  lemma EntrySplits(e: QEntry, rest: seq<string>)
    ensures var first := if e.dropCount > 0 then Bytes(DropNotice(e.dropCount)) else e.msg;
            var next := if e.dropCount > 0 then e.msg else Nil;
            first.Lines() + (next.Lines() + rest) == EntryLines(e) + rest
  {
  }

  /**
   * Order and drop accounting over every run: the lines read so far, the held line and the queue
   * together spell exactly the transcript of the write history, and the drop count is exactly the
   * refused writes not yet announced.
   */
  lemma {:induction false} LogOrder(capacity: nat, ops: seq<Op>)
    ensures Accounted(Run(capacity, ops))
    ensures Run(capacity, ops).buf.capacity == capacity
  {
    if ops != [] {
      var w := Run(capacity, ops[..|ops| - 1]);
      LogOrder(capacity, ops[..|ops| - 1]);
      match ops[|ops| - 1]
      case Write(line) => WriteAccounted(w, line);
      case Read => ReadAccounted(w);
    }
  }

  /** A nil read means that nothing is inside. */
  ghost predicate NilMeansEmpty(b: Buf) {
    LineRead(b).Nil? ==> Inside(b) == []
  }

  ghost predicate WritesOnly(ops: seq<Op>, lines: iset<Slice>) {
    forall i :: 0 <= i < |ops| && ops[i].Write? ==> ops[i].line in lines
  }

  lemma {:induction false} NoNilQueued(capacity: nat, ops: seq<Op>)
    requires forall i :: 0 <= i < |ops| && ops[i].Write? ==> ops[i].line.Bytes?
    ensures forall i :: 0 <= i < |Run(capacity, ops).buf.pending| ==> Run(capacity, ops).buf.pending[i].msg.Bytes?
  {
    if ops != [] {
      NoNilQueued(capacity, ops[..|ops| - 1]);
    }
  }

  lemma ShortQueue(b: Buf)
    requires |b.pending| < 2
    ensures NilMeansEmpty(b)
  {
    if b.pending != [] {
      assert b.pending[1..] == [];
      assert QueueLines(b.pending) == EntryLines(b.pending[0]) + [];
    }
  }

  /**
   * For writers whose lines come from a given set: in every run a nil read means that nothing is
   * inside, if and only if the set has no nil line or the queue holds at most one.
   */
  lemma NilReadMeansEmptyIff(capacity: nat, lines: iset<Slice>)
    ensures (forall ops :: WritesOnly(ops, lines) ==> NilMeansEmpty(Run(capacity, ops).buf)) <==> Nil !in lines || capacity < 2
  {
    if capacity < 2 {
      forall ops | WritesOnly(ops, lines)
        ensures NilMeansEmpty(Run(capacity, ops).buf)
      {
        LogOrder(capacity, ops);
        ShortQueue(Run(capacity, ops).buf);
      }
    } else if Nil !in lines {
      forall ops | WritesOnly(ops, lines)
        ensures NilMeansEmpty(Run(capacity, ops).buf)
      {
        NoNilQueued(capacity, ops);
      }
    } else {
      NilsHideANotice(capacity);
      assert WritesOnly(NilOps(capacity), lines);
    }
  }

  /** Fill the queue with nil lines, lose one more, make room and write again. */
  function NilOps(capacity: nat): seq<Op> {
    seq(capacity, _ => Write(Nil)) + [Write(Nil)] + [Read] + [Write(Nil)]
  }

  function Nils(n: nat): seq<QEntry> {
    seq(n, _ => QEntry(Nil, 0))
  }

  lemma {:induction false} NilsFill(capacity: nat, n: nat)
    requires n <= capacity
    ensures Run(capacity, seq(n, _ => Write(Nil))).buf == Buf(capacity, Nil, Nils(n), 0)
  {
    if n > 0 {
      var ops: seq<Op> := seq(n, _ => Write(Nil));
      assert ops[..n - 1] == seq(n - 1, _ => Write(Nil));
      NilsFill(capacity, n - 1);
      assert Nils(n) == Nils(n - 1) + [QEntry(Nil, 0)];
    }
  }

  /** Even writers of nothing but nil lose sight of a line: the notice behind a queued nil. */
  lemma NilsHideANotice(capacity: nat)
    requires capacity >= 2
    ensures !NilMeansEmpty(Run(capacity, NilOps(capacity)).buf)
  {
    var full: seq<Op> := seq(capacity, _ => Write(Nil));
    NilsFill(capacity, capacity);
    RunSnoc(capacity, full, Write(Nil));
    RunSnoc(capacity, full + [Write(Nil)], Read);
    RunSnoc(capacity, full + [Write(Nil)] + [Read], Write(Nil));
    var b := Run(capacity, NilOps(capacity)).buf;
    assert b.pending == Nils(capacity)[1..] + [QEntry(Nil, 1)];
    QueueAppend(Nils(capacity)[1..], QEntry(Nil, 1));
    assert b.pending[0] == Nils(capacity)[1];
  }

  /** The failing family: a queued nil hides the line behind it from one read. */
  lemma QueuedNilHidesALine(capacity: nat, line: string)
    requires capacity >= 2
    ensures var w := Run(capacity, [Write(Nil), Write(Bytes(line))]);
            LineRead(w.buf).Nil? && Inside(w.buf) == [line] && Inside(AfterRead(w.buf)) == [line]
  {
    var one: seq<Op> := [Write(Nil)];
    RunSnoc(capacity, [], Write(Nil));
    assert [] + [Write(Nil)] == one;
    RunSnoc(capacity, one, Write(Bytes(line)));
    assert one + [Write(Bytes(line))] == [Write(Nil), Write(Bytes(line))];
    var b := Run(capacity, [Write(Nil), Write(Bytes(line))]).buf;
    var e := QEntry(Bytes(line), 0);
    assert b.pending == [QEntry(Nil, 0)] + [e] && b.pending[1..] == [] + [e];
    QueueAppend([QEntry(Nil, 0)], e);
    QueueAppend([], e);
    QueueAppend([], QEntry(Nil, 0));
    assert [] + [QEntry(Nil, 0)] == [QEntry(Nil, 0)];
  }

  lemma RunSnoc(capacity: nat, ops: seq<Op>, op: Op)
    ensures Run(capacity, ops + [op]) == Step(Run(capacity, ops), op)
  {
    assert (ops + [op])[..|ops|] == ops;
  }

  // ---- The count inside a notice can be read back ----

  lemma {:induction false} DecimalInjective(m: nat, n: nat)
    requires Decimal(m) == Decimal(n)
    ensures m == n
  {
    var a, b := Decimal(m), Decimal(n);
    assert a[|a| - 1] == '0' + (m % 10) as char && b[|b| - 1] == '0' + (n % 10) as char;
    assert m % 10 == n % 10;
    DecimalNonempty(m / 10);
    DecimalNonempty(n / 10);
    if m >= 10 && n >= 10 {
      assert Decimal(m / 10) == a[..|a| - 1] && Decimal(n / 10) == b[..|b| - 1];
      DecimalInjective(m / 10, n / 10);
    }
  }

  lemma DecimalNonempty(n: nat)
    ensures |Decimal(n)| >= 1
  {
  }

  lemma NoticeInjective(m: nat, n: nat)
    requires DropNotice(m) == DropNotice(n)
    ensures m == n
  {
    var a, b := DropNotice(m), DropNotice(n);
    assert Decimal(m) == a[12..|a| - 24] by { assert a == ("----------- " + Decimal(m)) + " logs dropped ----------"; }
    assert Decimal(n) == b[12..|b| - 24] by { assert b == ("----------- " + Decimal(n)) + " logs dropped ----------"; }
    DecimalInjective(m, n);
  }

  // ---- The object itself ----

  class MemoryBuffer {
    const capacity: nat
    var next: Slice
    var pending: seq<QEntry>
    var dropCount: nat
    var writeCalls: nat
    var readCalls: nat
    var writeBytes: nat
    var readBytes: nat
    var droppedBytes: nat
    var storedBytes: int

    function State(): Buf
      reads this
    {
      Buf(capacity, next, pending, dropCount)
    }

    /** Byte conservation: everything written (notices included) was read or is still stored. */
    ghost predicate Valid()
      reads this
    {
      && |pending| <= capacity
      && storedBytes == StoredBytes(State())
      && writeBytes == readBytes + storedBytes
    }

    constructor (numEntries: nat)
      ensures Valid() && State() == NewBuf(numEntries)
    {
      capacity, next, pending, dropCount := numEntries, Nil, [], 0;
      writeCalls, readCalls, writeBytes, readBytes, droppedBytes, storedBytes := 0, 0, 0, 0, 0, 0;
    }

    method TryReadLine() returns (line: Slice)
      requires Valid()
      modifies this
      ensures Valid()
      ensures State() == AfterRead(old(State())) && line == LineRead(old(State()))
      ensures readCalls == old(readCalls) + 1 && writeCalls == old(writeCalls)
      ensures readBytes == old(readBytes) + line.Len()
      ensures droppedBytes == old(droppedBytes)
    {
      readCalls := readCalls + 1;
      if next.Bytes? {
        line := next;
        next := Nil;
        readBytes := readBytes + line.Len();
        storedBytes := storedBytes - line.Len();
        return;
      }
      if pending == [] {
        return Nil;
      }
      var ent := pending[0];
      pending := pending[1..];
      if ent.dropCount > 0 {
        next := ent.msg;
        line := Bytes(DropNotice(ent.dropCount));
        writeBytes := writeBytes + line.Len();
        readBytes := readBytes + line.Len();
        return;
      }
      line := ent.msg;
      readBytes := readBytes + line.Len();
      storedBytes := storedBytes - line.Len();
    }

    method Write(b: Slice) returns (n: nat, full: bool)
      requires Valid()
      modifies this
      ensures Valid()
      ensures State() == AfterWrite(old(State()), b)
      ensures full <==> !HasRoom(old(State()))
      ensures n == if full then 0 else b.Len()
      ensures writeCalls == old(writeCalls) + 1 && readCalls == old(readCalls)
      ensures writeBytes == old(writeBytes) + n && readBytes == old(readBytes)
      ensures droppedBytes == old(droppedBytes) + b.Len() - n
    {
      writeCalls := writeCalls + 1;
      var ent := QEntry(b, dropCount);
      if |pending| < capacity {
        QueueAppend(pending, ent);
        pending := pending + [ent];
        writeBytes := writeBytes + b.Len();
        storedBytes := storedBytes + b.Len();
        dropCount := 0;
        return b.Len(), false;
      }
      dropCount := dropCount + 1;
      droppedBytes := droppedBytes + b.Len();
      return 0, true;
    }
  }
}
