/** When an entry repeats a member name (logtail/logtail.go), which makes it invalid JSON for the drainer. */
module EntryNames {
  import opened Options
  import opened Json
  import opened MemBuffer
  import opened LogEntry
  import opened LogRewrite
  import opened LogEncoder

  ghost predicate UniqueMembers(lib: Lib, ms: seq<Member>) {
    UniqueNames(lib, Fields(DenoteMembers(ms)))
  }

  lemma DistinctConcat(a: seq<string>, b: seq<string>)
    ensures Distinct(a + b) <==> Distinct(a) && Distinct(b) && forall n :: n in a ==> n !in b
  {
    var c := a + b;
    assert forall i :: 0 <= i < |a| ==> c[i] == a[i];
    assert forall j :: 0 <= j < |b| ==> c[|a| + j] == b[j];
    if Distinct(c) {
      forall i, j | 0 <= i < j < |b|
        ensures b[i] != b[j]
      {
        assert c[|a| + i] == b[i] && c[|a| + j] == b[j];
      }
      forall n | n in a
        ensures n !in b
      {
        var i :| 0 <= i < |a| && a[i] == n;
        assert forall j :: 0 <= j < |b| ==> c[i] == n != c[|a| + j] == b[j];
      }
    } else if i, j :| 0 <= i < j < |c| && c[i] == c[j] {
      assert i < |a| <= j ==> c[i] in a && c[j] in b;
      assert |a| <= i ==> b[i - |a|] == b[j - |a|];
    }
  }

  lemma FieldsConcat(lib: Lib, a: seq<Field>, b: seq<Field>)
    ensures FieldNames(lib, a + b) == FieldNames(lib, a) + FieldNames(lib, b)
    ensures UniqueNames(lib, Fields(a + b))
       <==> && UniqueNames(lib, Fields(a)) && UniqueNames(lib, Fields(b))
            && forall n :: n in FieldNames(lib, a) ==> n !in FieldNames(lib, b)
  {
    DistinctConcat(FieldNames(lib, a), FieldNames(lib, b));
    assert forall i :: 0 <= i < |a| ==> (a + b)[i] == a[i];
    assert forall j :: 0 <= j < |b| ==> (a + b)[|a| + j] == b[j];
  }

  lemma FirstFieldName(lib: Lib, f: Field, fields: seq<Field>)
    ensures FieldNames(lib, [f] + fields) == [lib.unquote(f.name)] + FieldNames(lib, fields)
  {
  }

  lemma FirstName(lib: Lib, ms: seq<Member>)
    requires ms != []
    ensures Names(lib, ms) == [lib.unquote(ms[0].name)] + Names(lib, ms[1..])
  {
  }

  lemma {:induction false} NamesAreFieldNames(lib: Lib, ms: seq<Member>)
    ensures FieldNames(lib, DenoteMembers(ms)) == Names(lib, ms)
  {
    if ms != [] {
      NamesAreFieldNames(lib, ms[1..]);
      FirstFieldName(lib, Field(ms[0].name, Denote(ms[0].value)), DenoteMembers(ms[1..]));
      FirstName(lib, ms);
    }
  }

  lemma MembersUnique(lib: Lib, a: seq<Member>, b: seq<Member>)
    ensures Names(lib, a + b) == Names(lib, a) + Names(lib, b)
    ensures UniqueMembers(lib, a + b)
       <==> && UniqueMembers(lib, a) && UniqueMembers(lib, b)
            && forall n :: n in Names(lib, a) ==> n !in Names(lib, b)
  {
    DenoteConcat(a, b);
    FieldsConcat(lib, DenoteMembers(a), DenoteMembers(b));
    NamesAreFieldNames(lib, a);
    NamesAreFieldNames(lib, b);
    NamesAreFieldNames(lib, a + b);
  }

  // ---- Metadata ----

  function Present(present: bool, name: string): seq<string> {
    if present then [name] else []
  }

  /** Members that may or may not be written, by the names they carry. */
  ghost predicate Carries(lib: Lib, ms: seq<Member>, names: seq<string>) {
    UniqueMembers(lib, ms) && Names(lib, ms) == names
  }

  lemma CarriesOne(lib: Lib, present: bool, name: string, v: Value)
    requires LibOk(lib) && name in ENTRY_NAMES && (present ==> UniqueNames(lib, Denote(v)))
    ensures Carries(lib, Optional(present, name, v), Present(present, name))
  {
    if present {
      SingleField(name, v);
      assert FieldNames(lib, DenoteMembers([Plain(name, v)])) == [name];
      NamesAreFieldNames(lib, [Plain(name, v)]);
    }
  }

  ghost predicate Apart(a: seq<string>, b: seq<string>) {
    forall n :: n in a ==> n !in b
  }

  lemma CarriesBoth(lib: Lib, a: seq<Member>, m: seq<string>, b: seq<Member>, n: seq<string>)
    requires Carries(lib, a, m) && Carries(lib, b, n) && Apart(m, n)
    ensures Carries(lib, a + b, m + n)
  {
    MembersUnique(lib, a, b);
  }

  lemma CarriesMore(lib: Lib, ms: seq<Member>, names: seq<string>, present: bool, name: string, v: Value)
    requires LibOk(lib) && name in ENTRY_NAMES && (present ==> UniqueNames(lib, Denote(v)))
    requires Carries(lib, ms, names) && name !in names
    ensures Carries(lib, ms + Optional(present, name, v), names + Present(present, name))
  {
    CarriesOne(lib, present, name, v);
    CarriesBoth(lib, ms, names, Optional(present, name, v), Present(present, name));
  }

  lemma ErrorUnique(lib: Lib, y: Meta)
    requires LibOk(lib) && (y.data.Some? ==> UniqueNames(lib, Denote(y.data.value)))
    ensures UniqueMembers(lib, ErrorMembers(lib, y))
  {
    var d := Optional(y.detail != "", "detail", Scalar(lib.quote(y.detail)));
    CarriesOne(lib, y.detail != "", "detail", Scalar(lib.quote(y.detail)));
    if y.data.Some? {
      CarriesMore(lib, d, Present(y.detail != "", "detail"), true, "bad_data", y.data.value);
    } else {
      assert ErrorMembers(lib, y) == d;
    }
  }

  lemma ClientTimeCarries(lib: Lib, y: Meta)
    requires LibOk(lib)
    ensures Carries(lib, TimeMembers(y), Present(y.clientTime.Some?, "client_time"))
  {
    if y.clientTime.Some? {
      CarriesOne(lib, true, "client_time", Quoted(y.clientTime.value));
    } else {
      CarriesOne(lib, false, "client_time", Quoted(""));
    }
  }

  lemma FourCarry(lib: Lib, a: seq<Member>, k: seq<string>, b: seq<Member>, l: seq<string>,
                  c: seq<Member>, m: seq<string>, d: seq<Member>, n: seq<string>)
    requires Carries(lib, a, k) && Carries(lib, b, l) && Carries(lib, c, m) && Carries(lib, d, n)
    requires Apart(k, l) && Apart(k + l, m) && Apart(k + l + m, n)
    ensures Carries(lib, a + b + c + d, k + l + m + n)
  {
    CarriesBoth(lib, a, k, b, l);
    CarriesBoth(lib, a + b, k + l, c, m);
    CarriesBoth(lib, a + b + c, k + l + m, d, n);
  }

  lemma LogtailNamesApart(a: bool, b: bool, c: bool, d: bool)
    ensures var k, l := Present(a, "client_time"), Present(b, "proc_id");
            var m, n := Present(c, "proc_seq"), Present(d, "error");
            Apart(k, l) && Apart(k + l, m) && Apart(k + l + m, n)
  {
    assert |"client_time"| == 11 && |"proc_id"| == 7 && |"proc_seq"| == 8 && |"error"| == 5;
  }

  lemma LogtailUnique(lib: Lib, y: Meta)
    requires LibOk(lib) && (y.data.Some? ==> UniqueNames(lib, Denote(y.data.value)))
    ensures UniqueMembers(lib, LogtailMembers(lib, y))
  {
    var id, sq, er := Scalar(Decimal(y.procID)), Scalar(Decimal(y.procSequence)), Object("", ErrorMembers(lib, y));
    var failed := y.detail != "" || y.data.Some?;
    ClientTimeCarries(lib, y);
    CarriesOne(lib, y.procID != 0, "proc_id", id);
    CarriesOne(lib, y.procSequence != 0, "proc_seq", sq);
    ErrorUnique(lib, y);
    CarriesOne(lib, failed, "error", er);
    LogtailNamesApart(y.clientTime.Some?, y.procID != 0, y.procSequence != 0, failed);
    FourCarry(lib, TimeMembers(y), Present(y.clientTime.Some?, "client_time"),
              Optional(y.procID != 0, "proc_id", id), Present(y.procID != 0, "proc_id"),
              Optional(y.procSequence != 0, "proc_seq", sq), Present(y.procSequence != 0, "proc_seq"),
              Optional(failed, "error", er), Present(failed, "error"));
  }

  lemma LevelCarries(lib: Lib, level: int)
    requires LibOk(lib)
    ensures Carries(lib, LevelMembers(level), Present(0 < level < 10, "v"))
  {
    if 0 < level < 10 {
      CarriesOne(lib, true, "v", Scalar(['0' + level as char]));
    } else {
      CarriesOne(lib, false, "v", Scalar(""));
    }
  }

  predicate HasLogtail(y: Meta) {
    y.clientTime.Some? || y.procID != 0 || y.procSequence != 0 || y.detail != "" || y.data.Some?
  }

  function MetadataNames(y: Meta): seq<string> {
    Present(HasLogtail(y), "logtail") + Present(y.metrics != "", "metrics") + Present(0 < y.level < 10, "v")
  }

  lemma MetadataNamesApart(a: bool, b: bool, c: bool)
    ensures var l, m, v := Present(a, "logtail"), Present(b, "metrics"), Present(c, "v");
            Apart(l, m) && Apart(l + m, v)
  {
    assert "logtail"[0] == 'l' && "metrics"[0] == 'm' && "v"[0] == 'v';
  }

  lemma MetadataCarries(lib: Lib, y: Meta)
    requires LibOk(lib) && (y.data.Some? ==> UniqueNames(lib, Denote(y.data.value)))
    ensures Carries(lib, Metadata(lib, y), MetadataNames(y))
  {
    var l := Optional(HasLogtail(y), "logtail", Object("", LogtailMembers(lib, y)));
    var m := Optional(y.metrics != "", "metrics", Quoted(y.metrics));
    LogtailUnique(lib, y);
    CarriesOne(lib, HasLogtail(y), "logtail", Object("", LogtailMembers(lib, y)));
    CarriesOne(lib, y.metrics != "", "metrics", Quoted(y.metrics));
    LevelCarries(lib, y.level);
    MetadataNamesApart(HasLogtail(y), y.metrics != "", 0 < y.level < 10);
    CarriesBoth(lib, l, Present(HasLogtail(y), "logtail"), m, Present(y.metrics != "", "metrics"));
    CarriesBoth(lib, l + m, Present(HasLogtail(y), "logtail") + Present(y.metrics != "", "metrics"),
                LevelMembers(y.level), Present(0 < y.level < 10, "v"));
  }

  // ---- The three kinds of entry ----

  lemma TextUnique(lib: Lib, s: Settings, x: Meta, src: string)
    requires LibOk(lib) && x.data.None?
    ensures UniqueMembers(lib, TextMembers(lib, s, x, src))
  {
    MetadataCarries(lib, x);
    TextIsNoMetadata(x);
    var max := if s.lowMem then MAX_TEXT_SIZE / LOW_MEM_RATIO else MAX_TEXT_SIZE;
    AddedUnique(lib, Metadata(lib, x), MetadataNames(x), src != "", "text", Scalar(Truncated(lib, src, max)));
  }

  lemma TextIsNoMetadata(x: Meta)
    ensures "text" !in MetadataNames(x)
  {
    assert "text"[0] == 't' && "logtail"[0] == 'l' && "metrics"[0] == 'm' && "v"[0] == 'v';
  }

  lemma AddedUnique(lib: Lib, ms: seq<Member>, names: seq<string>, present: bool, name: string, v: Value)
    requires LibOk(lib) && name in ENTRY_NAMES && v.Scalar? && Carries(lib, ms, names) && name !in names
    ensures UniqueMembers(lib, ms + if present then [Plain(name, v)] else [])
  {
    CarriesMore(lib, ms, names, present, name, v);
  }

  /** What is left without one member is as unique as before, and has its name no more. */
  lemma WithoutUnique(lib: Lib, a: seq<Member>, m: Member, c: seq<Member>)
    requires UniqueMembers(lib, a + [m] + c)
    ensures UniqueMembers(lib, a + c) && UniqueNames(lib, Denote(m.value))
    ensures forall n :: n in Names(lib, a + c) <==> n in Names(lib, a + [m] + c) && n != lib.unquote(m.name)
  {
    MembersUnique(lib, a + [m], c);
    MembersUnique(lib, a, [m]);
    MembersUnique(lib, a, c);
    assert Names(lib, [m]) == [lib.unquote(m.name)];
    assert DenoteMembers([m])[0] == Field(m.name, Denote(m.value));
  }

  /** What is left of the input is as unique as the input was, and has no reserved name. */
  lemma KeptUnique(lib: Lib, ms: seq<Member>)
    requires UniqueMembers(lib, ms)
    ensures UniqueMembers(lib, Kept(lib, ms))
    ensures forall n :: n in Names(lib, Kept(lib, ms)) <==> n in Names(lib, ms) && n != "logtail"
    ensures var k := Reserved(lib, ms); k >= 0 ==> UniqueNames(lib, Denote(ms[k].value))
  {
    var k := Reserved(lib, ms);
    if k >= 0 {
      assert ms == ms[..k] + [ms[k]] + ms[k + 1..];
      WithoutUnique(lib, ms[..k], ms[k], ms[k + 1..]);
    } else {
      var n := Names(lib, ms);
      assert forall i :: 0 <= i < |n| ==> n[i] == lib.unquote(ms[i].name) != "logtail";
    }
  }

  lemma RewrittenUnique(lib: Lib, x: Meta, ms: seq<Member>)
    requires LibOk(lib) && MetaOk(x) && x.data.None? && x.metrics == ""
    requires WellFormedMembers(ms) && UniqueMembers(lib, ms)
    ensures UniqueMembers(lib, Rewritten(lib, x, ms)) <==> !(0 < x.level < 10 && "v" in Names(lib, ms))
  {
    var y := EntryMeta(lib, x, ms);
    RewriteKeepsMeaning(lib, x, ms);
    KeptUnique(lib, ms);
    MetadataCarries(lib, y);
    FieldsConcat(lib, DenoteMembers(Metadata(lib, y)), DenoteMembers(Kept(lib, ms)));
    NamesAreFieldNames(lib, Metadata(lib, y));
    NamesAreFieldNames(lib, Kept(lib, ms));
    OverlapIsLevel(y, Names(lib, Kept(lib, ms)));
  }

  lemma OverlapIsLevel(y: Meta, names: seq<string>)
    requires y.metrics == "" && "logtail" !in names
    ensures (forall n :: n in MetadataNames(y) ==> n !in names) <==> !(0 < y.level < 10 && "v" in names)
  {
    var n := MetadataNames(y);
    assert 0 < y.level < 10 ==> n[|n| - 1] == "v";
  }

  /**
   * An entry repeats a name, at any depth, exactly when a level member "v" is put before an
   * object that already has one. Text and objects that are too large never do.
   */
  lemma EncodedNamesUnique(lib: Lib, s: Settings, x: Meta, src: string, d: Decoded)
    requires LibOk(lib) && MetaOk(x) && x.data.None? && Decodes(lib, src, d)
    ensures UniqueNames(lib, Denote(Object("", EncodedMembers(lib, s, x, src, d))))
       <==> !(IsRewritten(s, src, d) && 0 < x.level < 10 && "v" in Names(lib, d.members))
  {
    if IsRewritten(s, src, d) {
      RewrittenUnique(lib, x.(metrics := ""), d.members);
    } else if src == "" || src[0] != '{' || d.Malformed? {
      TextUnique(lib, s, x, src);
    } else {
      MetadataCarries(lib, Oversized(lib, s, x, src));
    }
  }

  /** The failing input: a level and {"v":1}. */
  lemma LevelRepeatsName(lib: Lib, s: Settings, x: Meta)
    requires LibOk(lib) && MetaOk(x) && x.data.None? && 0 < x.level < 10 && MaxLen(s) >= 7
    ensures var ms := [Plain("v", Scalar("1"))];
            var src, d := Text(Object("", ms)), Whole("", ms, "");
            && src == "{\"v\":1}" && Decodes(lib, src, d)
            && !UniqueNames(lib, Denote(Object("", EncodedMembers(lib, s, x, src, d))))
  {
    var ms := [Plain("v", Scalar("1"))];
    OneMember(lib, ms);
    EncodedNamesUnique(lib, s, x, Text(Object("", ms)), Whole("", ms, ""));
  }

  lemma OneMember(lib: Lib, ms: seq<Member>)
    requires LibOk(lib) && ms == [Plain("v", Scalar("1"))]
    ensures Text(Object("", ms)) == "{\"v\":1}" && Names(lib, ms) == ["v"]
    ensures Decodes(lib, Text(Object("", ms)), Whole("", ms, ""))
  {
    OneMemberText(ms);
    OneMemberOk(ms);
    CarriesOne(lib, true, "v", Scalar("1"));
    WholeDecodes(lib, ms);
  }

  lemma OneMemberText(ms: seq<Member>)
    requires ms == [Plain("v", Scalar("1"))]
    ensures Text(Object("", ms)) == "{\"v\":1}"
  {
    WrittenIsMember("v", Scalar("1"));
    var t := MembersText(ms);
    assert t + "," == "\"v\":" + "1" + ",";
    assert t == (t + ",")[..|t|] == "\"v\":1";
  }

  lemma OneMemberOk(ms: seq<Member>)
    requires ms == [Plain("v", Scalar("1"))]
    ensures WellFormedMembers(ms)
  {
    NumberIsToken(1);
    assert Decimal(1) == "1";
    PlainOk("v", Scalar("1"));
  }
}
