/** Building upload batches from buffered lines (logtail/logtail.go, drainPending). */
module Drain {
  import opened Tokens
  import opened Options
  import Seqs
  import opened Json
  import opened MemBuffer
  import opened LogEntry
  import opened LogRewrite
  import opened LogEncoder
  import EntryNames
  import opened Unambiguous
  import opened Batching

  /**
   * What one TryReadLine returns, with what the drainer would learn next: for a line, the metrics
   * delta at that moment; for "no line", whether blocking ends in shutdown instead of a wake-up.
   */
  datatype Event =
    | Line(text: string, metrics: string)
    | NoLine(shutdown: bool)
    | Eof
    | ReadError(message: string, clientTime: string)

  datatype Config = Config(lib: Lib, settings: Settings, isValid: string -> bool)

  /** A JSON value with whitespace around it in which no object repeats a name. */
  ghost predicate ValidJson(lib: Lib, s: string) {
    exists lead, v, trail :: Spells(lead, v, trail, s) && UniqueNames(lib, Denote(v))
  }

  ghost predicate ConfigOk(c: Config) {
    LibOk(c.lib) && forall s :: c.isValid(s) <==> ValidJson(c.lib, s)
  }

  ghost predicate EventOk(e: Event) {
    && (e.Line? ==> StringBody(e.metrics))
    && (e.ReadError? ==> StringBody(e.clientTime))
  }

  ghost predicate InputOk(c: Config, events: seq<Event>) {
    ConfigOk(c) && forall i :: 0 <= i < |events| ==> EventOk(events[i])
  }

  function MaxBatch(c: Config): int {
    if c.settings.lowMem then TruncDiv(MaxLen(c.settings), LOW_MEM_RATIO) else MaxLen(c.settings)
  }

  function RawMeta(metrics: string): Meta {
    Meta(None, 0, 0, "", None, metrics, 0)
  }

  function ErrorMeta(message: string, clientTime: string): Meta {
    Meta(Some(clientTime), 0, 0, "reading ringbuffer: " + message, None, "", 0)
  }

  /** A line's entry: itself when it is a JSON object, otherwise wrapped as text. */
  function LineEntry(c: Config, text: string, metrics: string): string
    requires LibOk(c.lib) && text != ""
  {
    if text[0] == '{' && c.isValid(text) then text
    else Entry(TextMembers(c.lib, c.settings, RawMeta(metrics), text))
  }

  function ErrorEntry(c: Config, message: string, clientTime: string): string {
    "{" + MembersText(Metadata(c.lib, ErrorMeta(message, clientTime))) + "}"
  }

  function SignalOf(c: Config, e: Event): Signal
    requires LibOk(c.lib)
  {
    match e
    case Line(text, metrics) => Took(if text == "" then [] else [LineEntry(c, text, metrics)])
    case NoLine(shutdown) => Paused(shutdown)
    case Eof => Ended([])
    case ReadError(message, clientTime) => Ended([ErrorEntry(c, message, clientTime)])
  }

  function Signals(c: Config, events: seq<Event>): seq<Signal>
    requires LibOk(c.lib)
  {
    seq(|events|, i requires 0 <= i < |events| => SignalOf(c, events[i]))
  }

  lemma EntryValidIff(c: Config, ms: seq<Member>)
    requires ConfigOk(c) && WellFormedMembers(ms)
    ensures c.isValid(Entry(ms)) <==> UniqueNames(c.lib, Denote(Object("", ms)))
  {
    var e, v := Entry(ms), Object("", ms);
    EntrySpells(ms);
    if UniqueNames(c.lib, Denote(v)) {
      assert ValidJson(c.lib, e);
    } else if ValidJson(c.lib, e) {
      var lead, w, trail :| Spells(lead, w, trail, e) && UniqueNames(c.lib, Denote(w));
      TextDeterminesMeaning("", v, "\n", lead, w, trail, e);
    }
  }

  lemma EntrySpells(ms: seq<Member>)
    requires WellFormedMembers(ms)
    ensures Spells("", Object("", ms), "\n", Entry(ms))
  {
    assert Entry(ms) == "" + Text(Object("", ms)) + "\n";
  }

  /**
   * What the encoder wrote is uploaded as it is, exactly when its names are unique. Otherwise
   * the whole entry is wrapped as text.
   */
  lemma UploadedVerbatimIff(c: Config, s: Settings, x: Meta, src: string, d: Decoded, metrics: string)
    requires ConfigOk(c) && StringBody(metrics)
    requires MetaOk(x) && x.data.None? && Decodes(c.lib, src, d)
    ensures var e := Entry(EncodedMembers(c.lib, s, x, src, d));
            LineEntry(c, e, metrics) == e
            <==> !(IsRewritten(s, src, d) && 0 < x.level < 10 && "v" in Names(c.lib, d.members))
  {
    var ms := EncodedMembers(c.lib, s, x, src, d);
    EncodedIsWellFormed(c.lib, s, x, src, d);
    EntryNames.EncodedNamesUnique(c.lib, s, x, src, d);
    EntryValidIff(c, ms);
    WrappedIsValid(c, Entry(ms), metrics);
  }

  lemma WrappedIsValid(c: Config, text: string, metrics: string)
    requires ConfigOk(c) && StringBody(metrics)
    ensures c.isValid(Entry(TextMembers(c.lib, c.settings, RawMeta(metrics), text)))
  {
    MetadataOk(c.lib, RawMeta(metrics));
    TextMembersOk(c.lib, c.settings, RawMeta(metrics), text);
    EntryNames.TextUnique(c.lib, c.settings, RawMeta(metrics), text);
    EntryValidIff(c, TextMembers(c.lib, c.settings, RawMeta(metrics), text));
  }

  lemma LineEntryClean(c: Config, text: string, metrics: string)
    requires ConfigOk(c) && text != ""
    ensures var t := LineEntry(c, text, metrics); t != "" && t[|t| - 1] != ','
  {
    if text[0] == '{' && c.isValid(text) {
      var lead, v, trail :| Spells(lead, v, trail, text) && UniqueNames(c.lib, Denote(v));
      ValueSolid(v);
      assert ',' !in WHITESPACE;
    }
  }

  lemma SignalsClean(c: Config, events: seq<Event>)
    requires ConfigOk(c)
    ensures CleanSignals(Signals(c, events))
  {
    forall i | 0 <= i < |events|
      ensures |Contribution(Signals(c, events)[i])| <= 1 && Clean(Contribution(Signals(c, events)[i]))
    {
      var e := events[i];
      if e.Line? && e.text != "" {
        LineEntryClean(c, e.text, e.metrics);
      }
    }
  }

  /** The read-error entry: metadata trimmed of its last comma and closed. */
  method AppendReadError(c: Config, b: string, message: string, clientTime: string) returns (r: string)
    requires ConfigOk(c) && StringBody(clientTime)
    ensures r == b + ErrorEntry(c, message, clientTime)
  {
    var x := ErrorMeta(message, clientTime);
    MetadataOk(c.lib, x);
    r := AppendMetadata(c.lib, b + "{", x);
    assert Metadata(c.lib, x) != [] by { assert x.clientTime.Some?; }
    TrimTerminated(b + "{", Metadata(c.lib, x), {','});
    r := TrimRight(r, {','});
    r := r + "}";
    Seqs.Assoc(b, "{", MembersText(Metadata(c.lib, x)));
    Seqs.Assoc(b, "{" + MembersText(Metadata(c.lib, x)), "}");
  }

  /** Handles one buffer event; `ended` tells the drain loop to return. */
  method TakeEvent(c: Config, buf: string, e: Event, ghost entries: seq<string>) returns (r: string, ended: bool)
    requires ConfigOk(c) && EventOk(e) && buf == Open(entries)
    ensures ended <==> Ends(SignalOf(c, e), entries)
    ensures var all := entries + Contribution(SignalOf(c, e));
            r == Open(all) || (e.ReadError? && r == "[" + Commas(all))
  {
    r, ended := buf, false;
    assert entries + [] == entries;
    match e
    case Eof =>
      ended := true;
    case ReadError(message, clientTime) =>
      r := AppendReadError(c, r, message, clientTime);
      ErrorBatch(entries, ErrorEntry(c, message, clientTime));
      ended := true;
    case NoLine(shutdown) =>
      // return at once when entries were read, otherwise block
      ended := |r| > 1 || shutdown;
    case Line(text, metrics) =>
      if text != "" {
        OpenSnoc(entries, LineEntry(c, text, metrics));
        if text[0] == '{' && c.isValid(text) {
          r := r + text;
        } else {
          r := AppendText(c.lib, c.settings, r, text, RawMeta(metrics));
        }
        r := r + ",";
      }
  }

  /**
   * One drainPending call fed by a stream of buffer events. It consumes events up to the first
   * point where it must return, and the batch holds exactly the entries of what it consumed.
   * Without such a point the call is still blocked when the events run out.
   */
  method DrainPending(c: Config, events: seq<Event>) returns (b: Option<string>, n: nat, returned: bool)
    requires InputOk(c, events)
    ensures n <= |events|
    ensures var signals := Signals(c, events);
            if returned then ReturnsAt(MaxBatch(c), signals, n) && b == Batch(EntriesOf(signals[..n]))
            else Blocks(MaxBatch(c), signals)
  {
    ghost var signals := Signals(c, events);
    SignalsClean(c, events);
    var buf := "[";
    n, b, returned := 0, None, false;
    while |buf| < MaxBatch(c)
      invariant n <= |events| && Draining(MaxBatch(c), signals, n, buf)
      decreases |events| - n
    {
      if n == |events| {
        DrainOver(MaxBatch(c), signals, n, buf);
        return;
      }
      var next, ended := TakeEvent(c, buf, events[n], EntriesOf(signals[..n]));
      DrainStep(MaxBatch(c), signals, n, buf, next);
      buf, n := next, n + 1;
      if ended {
        b := FinishBatch(buf, EntriesOf(signals[..n]));
        returned := true;
        return;
      }
    }
    DrainOver(MaxBatch(c), signals, n, buf);
    b := FinishBatch(buf, EntriesOf(signals[..n]));
    returned := true;
  }

  /** The call returns before it reads anything exactly for an explicit upload limit that is this small. */
  lemma StallsIff(c: Config, events: seq<Event>)
    requires LibOk(c.lib)
    ensures StopsAt(MaxBatch(c), Signals(c, events), 0)
       <==> c.settings.maxUploadSize != 0 && c.settings.maxUploadSize <= if c.settings.lowMem then 7 else 1
  {
    StallsIffNoRoom(MaxBatch(c), Signals(c, events));
  }

  /** With seven bytes per upload and little memory, a call never reads the line that is there. */
  lemma SevenBytesStall(c: Config, text: string)
    requires LibOk(c.lib) && c.settings.maxUploadSize == 7 && c.settings.lowMem
    ensures StopsAt(MaxBatch(c), Signals(c, [Line(text, "")]), 0)
  {
    StallsIff(c, [Line(text, "")]);
  }

  // ---- The upload loop ----

  /** The next call, when n events have been consumed. */
  method DrainRest(c: Config, events: seq<Event>, n: nat)
    returns (b: Option<string>, k: nat, returned: bool, ghost rest: seq<Signal>)
    requires InputOk(c, events) && n <= |events|
    ensures rest == Signals(c, events)[n..]
    ensures if returned then ReturnsAt(MaxBatch(c), rest, k) && b == Batch(EntriesOf(rest[..k]))
            else Blocks(MaxBatch(c), rest)
  {
    SignalsRest(c, events, n);
    rest := Signals(c, events[n..]);
    b, k, returned := DrainPending(c, events[n..]);
  }

  /**
   * Calls drainPending until a call blocks, as the upload loop does. The texts are those of the
   * batches that the events' entries are cut into, one for one.
   */
  method DrainAll(c: Config, events: seq<Event>) returns (texts: seq<Option<string>>)
    requires InputOk(c, events) && MaxBatch(c) > 1
    ensures Seqs.Images(AllBatches(MaxBatch(c), Signals(c, events)), Batch, texts)
  {
    ghost var signals, max := Signals(c, events), MaxBatch(c);
    ghost var calls: seq<nat> := [];
    texts := [];
    var n := 0;
    while true
      invariant n == Sum(calls) <= |events| && Answered(DrainAnswer(max), signals, calls, texts)
      decreases |events| - n
    {
      var b, k, returned, rest := DrainRest(c, events, n);
      if !returned {
        ReturnedIsAll(max, signals, calls, texts, rest);
        return;
      }
      OneMoreAnswer(DrainAnswer(max), signals, calls, texts, rest, k, b);
      StallsIffNoRoom(max, rest);
      calls, texts := calls + [k], texts + [b];
      n := n + k;
    }
  }

  lemma SignalsRest(c: Config, events: seq<Event>, n: nat)
    requires LibOk(c.lib) && n <= |events|
    ensures Signals(c, events[n..]) == Signals(c, events)[n..]
  {
  }

  // ---- End to end ----

  function LinesOf(events: seq<Event>): seq<string> {
    if events == [] then []
    else LinesOf(events[..|events| - 1]) + if events[|events| - 1].Line? then [events[|events| - 1].text] else []
  }

  /** The metrics delta at each line. */
  function MetricsOf(events: seq<Event>): (r: seq<string>)
    ensures |r| == |LinesOf(events)|
  {
    if events == [] then []
    else MetricsOf(events[..|events| - 1]) + if events[|events| - 1].Line? then [events[|events| - 1].metrics] else []
  }

  /** How a line and the metrics delta at it are turned into an entry. */
  type Encoding = (string, string) -> string

  function LineEncoding(c: Config): Encoding
    requires LibOk(c.lib)
  {
    (text, metrics) => if text == "" then "" else LineEntry(c, text, metrics)
  }

  /** What each non-empty line becomes, in order. */
  function LineEntries(encode: Encoding, lines: seq<string>, metrics: seq<string>): seq<string>
    requires |lines| == |metrics|
  {
    if lines == [] then []
    else
      var n := |lines| - 1;
      LineEntries(encode, lines[..n], metrics[..n]) + if lines[n] == "" then [] else [encode(lines[n], metrics[n])]
  }

  ghost predicate NoReadErrors(events: seq<Event>) {
    forall i :: 0 <= i < |events| ==> !events[i].ReadError?
  }

  /** A non-empty line contributes its entry, anything else nothing. */
  ghost predicate Contributes(encode: Encoding, e: Event, s: Signal) {
    Contribution(s) == if e.Line? && e.text != "" then [encode(e.text, e.metrics)] else []
  }

  lemma {:induction false} EntriesFollowLines(encode: Encoding, events: seq<Event>, signals: seq<Signal>)
    requires |signals| == |events| && forall i :: 0 <= i < |events| ==> Contributes(encode, events[i], signals[i])
    ensures EntriesOf(signals) == LineEntries(encode, LinesOf(events), MetricsOf(events))
  {
    if events != [] {
      var n := |events| - 1;
      EntriesFollowLines(encode, events[..n], signals[..n]);
      assert Contributes(encode, events[n], signals[n]);
      if events[n].Line? {
        var lines, metrics := LinesOf(events), MetricsOf(events);
        assert lines[..|lines| - 1] == LinesOf(events[..n]) && metrics[..|lines| - 1] == MetricsOf(events[..n]);
      } else {
        assert LinesOf(events) == LinesOf(events[..n]) && MetricsOf(events) == MetricsOf(events[..n]);
      }
    }
  }

  /** Without read errors the entries are exactly those of the lines read. */
  lemma EntriesAreLines(c: Config, events: seq<Event>)
    requires LibOk(c.lib) && NoReadErrors(events)
    ensures EntriesOf(Signals(c, events)) == LineEntries(LineEncoding(c), LinesOf(events), MetricsOf(events))
  {
    forall i | 0 <= i < |events|
      ensures Contributes(LineEncoding(c), events[i], Signals(c, events)[i])
    {
    }
    EntriesFollowLines(LineEncoding(c), events, Signals(c, events));
  }

  /**
   * End to end: for any interleaving of writes and reads of the memory buffer and any drainer fed by
   * those reads, the batches, and what the blocked call has read so far, hold the entries of exactly
   * the non-empty lines of the write transcript that have been read, once each and in order.
   */
  lemma EndToEnd(c: Config, capacity: nat, ops: seq<Op>, events: seq<Event>)
    requires LibOk(c.lib) && MaxBatch(c) > 1 && NoReadErrors(events)
    requires LinesOf(events) == Run(capacity, ops).lines
    ensures var w := Run(capacity, ops); var signals := Signals(c, events);
            && |w.lines| <= |Transcript(w.offers)|
            && Flatten(AllBatches(MaxBatch(c), signals)) + UnsentAfter(MaxBatch(c), signals)
               == LineEntries(LineEncoding(c), Transcript(w.offers)[..|w.lines|], MetricsOf(events))
            && Inside(w.buf) == Transcript(w.offers)[|w.lines|..]
  {
    LogOrder(capacity, ops);
    BatchesPartitionLines(MaxBatch(c), Signals(c, events));
    EntriesAreLines(c, events);
    var w := Run(capacity, ops);
    assert Transcript(w.offers)[..|w.lines|] == w.lines;
    assert Transcript(w.offers)[|w.lines|..] == Inside(w.buf);
  }
}
