/**
 * Rewriting a caller's JSON object into a log entry (logtail/logtail.go): metadata in front, a
 * member named "logtail" moved into the error report, newlines removed, all by cutting bytes.
 */
module LogRewrite {
  import opened Tokens
  import opened Options
  import Seqs
  import opened Json
  import opened MemBuffer
  import opened LogEntry

  /** What the tokenizer says about an input: its members, or that it is not one JSON object. */
  datatype Decoded = Malformed | Whole(gap: string, members: seq<Member>, trailing: string)

  function Names(lib: Lib, ms: seq<Member>): seq<string> {
    seq(|ms|, i requires 0 <= i < |ms| => lib.unquote(ms[i].name))
  }

  ghost predicate Distinct(s: seq<string>) {
    forall i, j :: 0 <= i < j < |s| ==> s[i] != s[j]
  }

  function FieldNames(lib: Lib, fields: seq<Field>): seq<string> {
    seq(|fields|, i requires 0 <= i < |fields| => lib.unquote(fields[i].name))
  }

  /** No object in m, at any depth, repeats a name. */
  ghost predicate UniqueNames(lib: Lib, m: Meaning)
    decreases m
  {
    match m
    case Atom(_) => true
    case List(elements) => forall i :: 0 <= i < |elements| ==> UniqueNames(lib, elements[i])
    case Fields(fields) =>
      && Distinct(FieldNames(lib, fields))
      && forall i :: 0 <= i < |fields| ==> UniqueNames(lib, fields[i].meaning)
  }

  /** The tokenizer is right about src. It refuses texts with an object that repeats a name. */
  ghost predicate Decodes(lib: Lib, src: string, d: Decoded) {
    d.Whole? ==>
      && WellFormed(Object(d.gap, d.members)) && AllIn(d.trailing, WHITESPACE)
      && src == Text(Object(d.gap, d.members)) + d.trailing
      && UniqueNames(lib, Denote(Object(d.gap, d.members)))
  }

  /** The index of the last member named "logtail", or -1. */
  function Reserved(lib: Lib, ms: seq<Member>): (k: int)
    ensures -1 <= k < |ms|
    ensures k >= 0 ==> lib.unquote(ms[k].name) == "logtail"
    ensures forall i :: k < i < |ms| ==> lib.unquote(ms[i].name) != "logtail"
  {
    if ms == [] then -1
    else if lib.unquote(ms[|ms| - 1].name) == "logtail" then |ms| - 1
    else Reserved(lib, ms[..|ms| - 1])
  }

  lemma ReservedSnoc(lib: Lib, ms: seq<Member>, i: nat)
    requires i < |ms|
    ensures Reserved(lib, ms[..i + 1]) == if lib.unquote(ms[i].name) == "logtail" then i else Reserved(lib, ms[..i])
  {
    assert ms[..i + 1][..i] == ms[..i];
  }

  lemma WholeDecodes(lib: Lib, ms: seq<Member>)
    requires WellFormedMembers(ms) && UniqueNames(lib, Fields(DenoteMembers(ms)))
    ensures Decodes(lib, Text(Object("", ms)), Whole("", ms, ""))
  {
    assert Text(Object("", ms)) + "" == Text(Object("", ms));
  }

  // ---- The intended output, on trees ----

  function Reported(x: Meta, v: Value): Meta {
    x.(detail := "duplicate logtail member", data := Some(v))
  }

  function EntryMeta(lib: Lib, x: Meta, ms: seq<Member>): Meta {
    var k := Reserved(lib, ms);
    if k < 0 then x else Reported(x, ms[k].value)
  }

  function Kept(lib: Lib, ms: seq<Member>): seq<Member> {
    var k := Reserved(lib, ms);
    if k < 0 then ms else ms[..k] + ms[k + 1..]
  }

  /** Two runs of members around a cut, with the gap that stays between them. */
  function Around(a: seq<Member>, b: seq<Member>, gap: string): seq<Member>
    requires a != []
  {
    if b == [] then Retail(a, "") else Retail(a, gap) + Retail(b, "")
  }

  /** Metadata in front of ms without its k-th member (k < 0: with all of them). */
  function Joined(meta: seq<Member>, ms: seq<Member>, k: int): seq<Member>
    requires -1 <= k < |ms| && (k >= 0 ==> meta != [])
  {
    if k < 0 then
      if ms == [] then meta else meta + Retail(StripMembers(ms), "")
    else
      Around(meta + StripMembers(ms[..k]), StripMembers(ms[k + 1..]), Strip(ms[k].after))
  }

  function Rewritten(lib: Lib, x: Meta, ms: seq<Member>): seq<Member> {
    Joined(Metadata(lib, EntryMeta(lib, x, ms)), ms, Reserved(lib, ms))
  }

  function Entry(ms: seq<Member>): string {
    "{" + MembersText(ms) + "}\n"
  }

  // ---- Meaning of the intended output ----

  lemma PartsOk(ms: seq<Member>, a: seq<Member>, m: Member, c: seq<Member>)
    requires ms == a + ([m] + c) && WellFormedMembers(ms)
    ensures WellFormedMembers(a) && WellFormedMember(m) && WellFormedMembers(c)
  {
    WellFormedConcat(a, [m] + c);
    WellFormedConcat([m], c);
    assert [m][0] == m;
  }

  /** A member of a well-formed list, and what lies around it. */
  lemma AroundOk(ms: seq<Member>, k: nat)
    requires k < |ms| && WellFormedMembers(ms)
    ensures WellFormedMembers(ms[..k]) && WellFormedMember(ms[k]) && WellFormedMembers(ms[k + 1..])
  {
    Seqs.SplitAt(ms, k);
    PartsOk(ms, ms[..k], ms[k], ms[k + 1..]);
  }

  lemma MetaOkReported(lib: Lib, x: Meta, ms: seq<Member>)
    requires MetaOk(x) && WellFormedMembers(ms)
    ensures MetaOk(EntryMeta(lib, x, ms))
  {
    var k := Reserved(lib, ms);
    if k >= 0 {
      AroundOk(ms, k);
    }
  }

  lemma StrippedTailKeeps(ms: seq<Member>)
    requires ms != [] && WellFormedMembers(ms)
    ensures WellFormedMembers(Retail(StripMembers(ms), ""))
    ensures DenoteMembers(Retail(StripMembers(ms), "")) == DenoteMembers(ms)
  {
    StripMembersKeep(ms);
    RetailKeeps(StripMembers(ms), "");
  }

  lemma StrippedHeadKeeps(meta: seq<Member>, before: seq<Member>, gap: string)
    requires meta != [] && WellFormedMembers(meta) && WellFormedMembers(before) && AllIn(gap, WHITESPACE)
    ensures WellFormedMembers(Retail(meta + StripMembers(before), gap))
    ensures DenoteMembers(Retail(meta + StripMembers(before), gap)) == DenoteMembers(meta) + DenoteMembers(before)
  {
    StripMembersKeep(before);
    MembersConcat(meta, StripMembers(before));
    RetailKeeps(meta + StripMembers(before), gap);
  }

  lemma JoinKeepsMeaning(meta: seq<Member>, ms: seq<Member>, k: int)
    requires -1 <= k < |ms| && (k >= 0 ==> meta != [])
    requires WellFormedMembers(meta) && WellFormedMembers(ms)
    ensures WellFormedMembers(Joined(meta, ms, k))
    ensures DenoteMembers(Joined(meta, ms, k))
         == DenoteMembers(meta) + DenoteMembers(if k < 0 then ms else ms[..k] + ms[k + 1..])
  {
    if k < 0 {
      if ms != [] {
        StrippedTailKeeps(ms);
        MembersConcat(meta, Retail(StripMembers(ms), ""));
      }
    } else {
      var before, gap, after := ms[..k], ms[k].after, ms[k + 1..];
      AroundOk(ms, k);
      JoinWithoutKeeps(meta, before, gap, after);
    }
  }

  lemma JoinWithoutKeeps(meta: seq<Member>, before: seq<Member>, gap: string, after: seq<Member>)
    requires meta != [] && WellFormedMembers(meta) && WellFormedMembers(before) && WellFormedMembers(after)
    requires AllIn(gap, WHITESPACE)
    ensures var out := Around(meta + StripMembers(before), StripMembers(after), Strip(gap));
            WellFormedMembers(out) && DenoteMembers(out) == DenoteMembers(meta) + DenoteMembers(before + after)
  {
    MembersConcat(before, after);
    if after == [] {
      StrippedHeadKeeps(meta, before, "");
    } else {
      StripSpaces(gap);
      StrippedHeadKeeps(meta, before, Strip(gap));
      StrippedTailKeeps(after);
      BothKeep(Retail(meta + StripMembers(before), Strip(gap)), Retail(StripMembers(after), ""),
               DenoteMembers(meta), DenoteMembers(before), DenoteMembers(after));
    }
  }

  lemma BothKeep(a: seq<Member>, b: seq<Member>, x: seq<Field>, y: seq<Field>, z: seq<Field>)
    requires WellFormedMembers(a) && WellFormedMembers(b) && DenoteMembers(a) == x + y && DenoteMembers(b) == z
    ensures WellFormedMembers(a + b) && DenoteMembers(a + b) == x + (y + z)
  {
    MembersConcat(a, b);
    Seqs.Assoc(x, y, z);
  }

  /**
   * Meaning is preserved: the entry is a well-formed object whose members mean the metadata
   * followed by the input's members, in order, without the reserved one.
   */
  lemma RewriteKeepsMeaning(lib: Lib, x: Meta, ms: seq<Member>)
    requires LibOk(lib) && MetaOk(x) && WellFormedMembers(ms)
    ensures WellFormedMembers(Rewritten(lib, x, ms))
    ensures DenoteMembers(Rewritten(lib, x, ms))
         == DenoteMembers(Metadata(lib, EntryMeta(lib, x, ms))) + DenoteMembers(Kept(lib, ms))
  {
    MetaOkReported(lib, x, ms);
    MetadataOk(lib, EntryMeta(lib, x, ms));
    JoinKeepsMeaning(Metadata(lib, EntryMeta(lib, x, ms)), ms, Reserved(lib, ms));
  }

  /** The value of the first field with a given name token. */
  function Get(m: Meaning, name: string): Option<Meaning> {
    if m.Fields? then GetField(m.fields, name) else None
  }

  function GetField(fields: seq<Field>, name: string): Option<Meaning> {
    if fields == [] then None
    else if fields[0].name == name then Some(fields[0].meaning)
    else GetField(fields[1..], name)
  }

  /** The bad_data of an entry's error report. */
  function ReportedData(entry: Meaning): Option<Meaning> {
    var logtail := Get(entry, "\"logtail\"");
    if logtail.None? then None
    else
      var error := Get(logtail.value, "\"error\"");
      if error.None? then None else Get(error.value, "\"bad_data\"")
  }

  lemma {:induction false} GetSkips(a: seq<Field>, b: seq<Field>, name: string)
    requires forall i :: 0 <= i < |a| ==> a[i].name != name
    ensures GetField(a + b, name) == GetField(b, name)
  {
    if a == [] {
      assert a + b == b;
    } else {
      assert (a + b)[1..] == a[1..] + b && (a + b)[0] == a[0];
      GetSkips(a[1..], b, name);
    }
  }

  /** The removed member is not lost: its value is the bad_data of the entry's error report. */
  lemma ReservedValueIsReported(lib: Lib, x: Meta, ms: seq<Member>)
    requires LibOk(lib) && MetaOk(x) && WellFormedMembers(ms)
    requires Reserved(lib, ms) >= 0
    ensures ReportedData(Fields(DenoteMembers(Rewritten(lib, x, ms)))) == Some(Denote(ms[Reserved(lib, ms)].value))
  {
    var v := ms[Reserved(lib, ms)].value;
    var y := Reported(x, v);
    RewriteKeepsMeaning(lib, x, ms);
    ReportIsFound(lib, y, v, DenoteMembers(Kept(lib, ms)));
  }

  lemma ReportIsFound(lib: Lib, y: Meta, v: Value, rest: seq<Field>)
    requires y.data == Some(v) && y.detail != ""
    ensures ReportedData(Fields(DenoteMembers(Metadata(lib, y)) + rest)) == Some(Denote(v))
  {
    FirstIsLogtail(lib, y, rest);
    LastIsError(lib, y);
    ErrorFields(lib, y, v);
  }

  lemma GetFirst(f: Field, a: seq<Field>, b: seq<Field>)
    ensures GetField([f] + a + b, f.name) == Some(f.meaning)
  {
    assert ([f] + a + b)[0] == f;
  }

  lemma FirstNamed(name: string, v: Value, more: seq<Member>, rest: seq<Field>)
    ensures GetField(DenoteMembers([Plain(name, v)] + more) + rest, "\"" + name + "\"") == Some(Denote(v))
  {
    MembersConcat([Plain(name, v)], more);
    SingleField(name, v);
    GetFirst(Field("\"" + name + "\"", Denote(v)), DenoteMembers(more), rest);
  }

  lemma FirstIsLogtail(lib: Lib, y: Meta, rest: seq<Field>)
    requires y.data.Some?
    ensures GetField(DenoteMembers(Metadata(lib, y)) + rest, "\"logtail\"") == Some(Fields(DenoteMembers(LogtailMembers(lib, y))))
  {
    var v := Object("", LogtailMembers(lib, y));
    var metrics := Optional(y.metrics != "", "metrics", Quoted(y.metrics));
    Seqs.Assoc([Plain("logtail", v)], metrics, LevelMembers(y.level));
    FirstNamed("logtail", v, metrics + LevelMembers(y.level), rest);
    assert "\"" + "logtail" + "\"" == "\"logtail\"";
  }

  /** A member of another name does not matter. */
  lemma GetPast(present: bool, name: string, v: Value, ms: seq<Member>, wanted: string)
    requires name != wanted
    ensures GetField(DenoteMembers(Optional(present, name, v) + ms), "\"" + wanted + "\"")
         == GetField(DenoteMembers(ms), "\"" + wanted + "\"")
  {
    var a := Optional(present, name, v);
    MembersConcat(a, ms);
    OtherName(name, wanted, v);
    GetSkips(DenoteMembers(a), DenoteMembers(ms), "\"" + wanted + "\"");
  }

  lemma Nest(a: seq<Member>, b: seq<Member>, c: seq<Member>, d: seq<Member>)
    ensures a + b + c + d == a + (b + (c + d))
  {
  }

  lemma LastIsError(lib: Lib, y: Meta)
    requires y.data.Some?
    ensures GetField(DenoteMembers(LogtailMembers(lib, y)), "\"error\"") == Some(Fields(DenoteMembers(ErrorMembers(lib, y))))
  {
    var time := if y.clientTime.Some? then Quoted(y.clientTime.value) else Scalar("");
    var proc, number := Scalar(Decimal(y.procID)), Scalar(Decimal(y.procSequence));
    var t := Optional(y.clientTime.Some?, "client_time", time);
    var id, sq := Optional(y.procID != 0, "proc_id", proc), Optional(y.procSequence != 0, "proc_seq", number);
    var er := [Plain("error", Object("", ErrorMembers(lib, y)))];
    assert "\"" + "error" + "\"" == "\"error\"";
    assert LogtailMembers(lib, y) == t + id + sq + er;
    Nest(t, id, sq, er);
    GetPast(y.clientTime.Some?, "client_time", time, id + (sq + er), "error");
    GetPast(y.procID != 0, "proc_id", proc, sq + er, "error");
    GetPast(y.procSequence != 0, "proc_seq", number, er, "error");
    SingleField("error", Object("", ErrorMembers(lib, y)));
  }

  lemma ErrorFields(lib: Lib, y: Meta, v: Value)
    requires y.data == Some(v) && y.detail != ""
    ensures GetField(DenoteMembers(ErrorMembers(lib, y)), "\"bad_data\"") == Some(Denote(v))
  {
    var d := [Plain("detail", Scalar(lib.quote(y.detail)))];
    MembersConcat(d, [Plain("bad_data", v)]);
    OtherName("detail", "bad_data", Scalar(lib.quote(y.detail)));
    GetSkips(DenoteMembers(d), DenoteMembers([Plain("bad_data", v)]), "\"bad_data\"");
    SingleField("bad_data", v);
  }

  lemma SingleField(name: string, v: Value)
    ensures DenoteMembers([Plain(name, v)]) == [Field("\"" + name + "\"", Denote(v))]
    ensures GetField(DenoteMembers([Plain(name, v)]), "\"" + name + "\"") == Some(Denote(v))
  {
    assert [Plain(name, v)][1..] == [];
  }

  lemma OtherName(name: string, wanted: string, v: Value)
    requires name != wanted
    ensures DenoteMembers([Plain(name, v)]) == [Field("\"" + name + "\"", Denote(v))]
    ensures "\"" + name + "\"" != "\"" + wanted + "\""
  {
    SingleField(name, v);
    var a, b := "\"" + name + "\"", "\"" + wanted + "\"";
    assert a[1..|a| - 1] == name && b[1..|b| - 1] == wanted;
  }

  // ---- Newlines: entries are framed by them ----

  lemma ConcatNewline(a: seq<Member>, b: seq<Member>)
    ensures '\n' in MembersText(a + b) <==> '\n' in MembersText(a) || '\n' in MembersText(b)
  {
    if a == [] {
      assert a + b == b;
    } else if b == [] {
      assert a + b == a;
    } else {
      MembersTextSplit(a, b);
    }
  }

  lemma PlainNewline(present: bool, name: string, v: Value)
    requires '\n' !in name
    ensures '\n' in MembersText(Optional(present, name, v)) <==> present && '\n' in Text(v)
  {
    if present {
      WrittenIsMember(name, v);
      var t := MembersText([Plain(name, v)]);
      var key := "\"" + name + "\":";
      assert t + "," == key + Text(v) + ",";
      assert t == (t + ",")[..|t|] == key + Text(v);
      assert '\n' !in key;
    }
  }

  lemma ErrorNewline(lib: Lib, y: Meta)
    requires LibOk(lib)
    ensures '\n' in MembersText(ErrorMembers(lib, y)) <==> y.data.Some? && '\n' in Text(y.data.value)
  {
    var d := Optional(y.detail != "", "detail", Scalar(lib.quote(y.detail)));
    StringTokenIsClean(lib.quote(y.detail));
    PlainNewline(y.detail != "", "detail", Scalar(lib.quote(y.detail)));
    if y.data.Some? {
      PlainNewline(true, "bad_data", y.data.value);
      ConcatNewline(d, [Plain("bad_data", y.data.value)]);
    } else {
      assert d + [] == d;
    }
  }

  lemma ObjectNewline(ms: seq<Member>)
    ensures '\n' in Text(Object("", ms)) <==> '\n' in MembersText(ms)
  {
    assert Text(Object("", ms)) == "{" + MembersText(ms) + "}";
  }

  lemma ThreeNewline(a: seq<Member>, b: seq<Member>, c: seq<Member>)
    ensures '\n' in MembersText(a + b + c)
       <==> '\n' in MembersText(a) || '\n' in MembersText(b) || '\n' in MembersText(c)
  {
    ConcatNewline(a, b);
    ConcatNewline(a + b, c);
  }

  lemma TimeNewline(y: Meta)
    requires MetaOk(y)
    ensures '\n' !in MembersText(TimeMembers(y))
  {
    if y.clientTime.Some? {
      QuotedOk(y.clientTime.value);
      PlainNewline(true, "client_time", Quoted(y.clientTime.value));
    }
  }

  lemma NumberNewline(present: bool, name: string, n: nat)
    requires '\n' !in name
    ensures '\n' !in MembersText(Optional(present, name, Scalar(Decimal(n))))
  {
    NumberIsToken(n);
    PlainNewline(present, name, Scalar(Decimal(n)));
  }

  lemma ProcNewline(y: Meta)
    ensures '\n' !in MembersText(Optional(y.procID != 0, "proc_id", Scalar(Decimal(y.procID))))
    ensures '\n' !in MembersText(Optional(y.procSequence != 0, "proc_seq", Scalar(Decimal(y.procSequence))))
  {
    NumberNewline(y.procID != 0, "proc_id", y.procID);
    NumberNewline(y.procSequence != 0, "proc_seq", y.procSequence);
  }

  lemma ErrorMemberNewline(lib: Lib, y: Meta)
    requires LibOk(lib)
    ensures '\n' in MembersText(Optional(y.detail != "" || y.data.Some?, "error", Object("", ErrorMembers(lib, y))))
       <==> y.data.Some? && '\n' in Text(y.data.value)
  {
    PlainNewline(y.detail != "" || y.data.Some?, "error", Object("", ErrorMembers(lib, y)));
    ObjectNewline(ErrorMembers(lib, y));
    ErrorNewline(lib, y);
  }

  lemma LogtailNewline(lib: Lib, y: Meta)
    requires LibOk(lib) && MetaOk(y)
    ensures '\n' in MembersText(LogtailMembers(lib, y)) <==> y.data.Some? && '\n' in Text(y.data.value)
  {
    var t := TimeMembers(y);
    var id := Optional(y.procID != 0, "proc_id", Scalar(Decimal(y.procID)));
    var sq := Optional(y.procSequence != 0, "proc_seq", Scalar(Decimal(y.procSequence)));
    var er := Optional(y.detail != "" || y.data.Some?, "error", Object("", ErrorMembers(lib, y)));
    TimeNewline(y);
    ProcNewline(y);
    ErrorMemberNewline(lib, y);
    ThreeNewline(t, id, sq);
    ConcatNewline(t + id + sq, er);
  }

  lemma LogtailMemberNewline(present: bool, ms: seq<Member>)
    ensures '\n' in MembersText(Optional(present, "logtail", Object("", ms))) <==> present && '\n' in MembersText(ms)
  {
    PlainNewline(present, "logtail", Object("", ms));
    ObjectNewline(ms);
  }

  lemma MetricsNewline(y: Meta)
    requires MetaOk(y)
    ensures '\n' !in MembersText(Optional(y.metrics != "", "metrics", Quoted(y.metrics)))
  {
    QuotedOk(y.metrics);
    PlainNewline(y.metrics != "", "metrics", Quoted(y.metrics));
  }

  lemma LevelNewline(level: int)
    ensures '\n' !in MembersText(LevelMembers(level))
  {
    if 0 < level < 10 {
      PlainNewline(true, "v", Scalar(['0' + level as char]));
    }
  }

  lemma MetadataNewline(lib: Lib, y: Meta)
    requires LibOk(lib) && MetaOk(y)
    ensures '\n' in MembersText(Metadata(lib, y)) <==> y.data.Some? && '\n' in Text(y.data.value)
  {
    var present := y.clientTime.Some? || y.procID != 0 || y.procSequence != 0 || y.detail != "" || y.data.Some?;
    LogtailMemberNewline(present, LogtailMembers(lib, y));
    LogtailNewline(lib, y);
    MetricsNewline(y);
    LevelNewline(y.level);
    ThreeNewline(Optional(present, "logtail", Object("", LogtailMembers(lib, y))),
                 Optional(y.metrics != "", "metrics", Quoted(y.metrics)), LevelMembers(y.level));
  }

  ghost predicate CleanEnd(ms: seq<Member>) {
    ms == [] || '\n' !in ms[|ms| - 1].after
  }

  lemma RetailNewline(ms: seq<Member>, gap: string)
    requires ms != [] && '\n' !in gap && CleanEnd(ms)
    ensures '\n' in MembersText(Retail(ms, gap)) <==> '\n' in MembersText(ms)
  {
    RetailText(ms, gap);
  }

  lemma StrippedNewline(ms: seq<Member>)
    requires WellFormedMembers(ms)
    ensures '\n' !in MembersText(StripMembers(ms))
    ensures CleanEnd(StripMembers(ms))
  {
    StripMembersText(ms);
    StripClean(MembersText(ms));
    if ms != [] {
      StripMembersAt(ms, |ms| - 1);
      StripClean(ms[|ms| - 1].after);
    }
  }

  lemma {:induction false} StripMembersAt(ms: seq<Member>, i: nat)
    requires i < |ms|
    ensures StripMembers(ms)[i] == StripMember(ms[i])
    decreases ms
  {
    if i > 0 {
      StripMembersAt(ms[1..], i - 1);
    }
  }

  /** Two clean-tailed runs of members, joined where one was cut out. */
  lemma AroundNewline(a: seq<Member>, b: seq<Member>, gap: string)
    requires a != [] && '\n' !in gap && CleanEnd(a) && '\n' !in MembersText(b) && CleanEnd(b)
    ensures '\n' in MembersText(Around(a, b, gap)) <==> '\n' in MembersText(a)
  {
    RetailNewline(a, "");
    RetailNewline(a, gap);
    if b != [] {
      RetailNewline(b, "");
      ConcatNewline(Retail(a, gap), Retail(b, ""));
    }
  }

  lemma AppendNewline(meta: seq<Member>, ms: seq<Member>)
    requires WellFormedMembers(ms) && ms != []
    ensures '\n' in MembersText(meta + Retail(StripMembers(ms), "")) <==> '\n' in MembersText(meta)
  {
    StrippedNewline(ms);
    RetailNewline(StripMembers(ms), "");
    ConcatNewline(meta, Retail(StripMembers(ms), ""));
  }

  lemma HeadNewline(meta: seq<Member>, before: seq<Member>)
    requires meta != [] && Ok(meta) && WellFormedMembers(before)
    ensures CleanEnd(meta + StripMembers(before))
    ensures '\n' in MembersText(meta + StripMembers(before)) <==> '\n' in MembersText(meta)
  {
    StrippedNewline(before);
    ConcatNewline(meta, StripMembers(before));
  }

  lemma JoinWithoutNewline(meta: seq<Member>, before: seq<Member>, gap: string, after: seq<Member>)
    requires meta != [] && Ok(meta) && WellFormedMembers(before) && WellFormedMembers(after)
    ensures '\n' in MembersText(Around(meta + StripMembers(before), StripMembers(after), Strip(gap)))
       <==> '\n' in MembersText(meta)
  {
    HeadNewline(meta, before);
    StrippedNewline(after);
    StripClean(gap);
    AroundNewline(meta + StripMembers(before), StripMembers(after), Strip(gap));
  }

  lemma JoinNewline(meta: seq<Member>, ms: seq<Member>, k: int)
    requires -1 <= k < |ms| && (k >= 0 ==> meta != [])
    requires Ok(meta) && WellFormedMembers(ms)
    ensures '\n' in MembersText(Joined(meta, ms, k)) <==> '\n' in MembersText(meta)
  {
    if k < 0 {
      if ms != [] {
        AppendNewline(meta, ms);
      }
    } else {
      AroundOk(ms, k);
      JoinWithoutNewline(meta, ms[..k], ms[k].after, ms[k + 1..]);
    }
  }

  /**
   * An object's entry has an inner newline exactly when the input had a reserved member whose value
   * text itself contains one, which is reported verbatim.
   */
  lemma RewrittenNewline(lib: Lib, x: Meta, ms: seq<Member>)
    requires LibOk(lib) && MetaOk(x) && x.data.None? && WellFormedMembers(ms)
    ensures var k := Reserved(lib, ms);
            '\n' in MembersText(Rewritten(lib, x, ms)) <==> k >= 0 && '\n' in Text(ms[k].value)
  {
    var y := EntryMeta(lib, x, ms);
    MetaOkReported(lib, x, ms);
    MetadataOk(lib, y);
    MetadataNewline(lib, y);
    JoinNewline(Metadata(lib, y), ms, Reserved(lib, ms));
  }
}
