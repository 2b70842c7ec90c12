/** Turning one log write into one JSON entry (logtail/logtail.go). */
module LogEntry {
  import opened Tokens
  import opened Options
  import Seqs
  import opened Json
  import opened MemBuffer

  const MAX_SIZE: int := 262144
  const MAX_TEXT_SIZE: int := 16384
  const LOW_MEM_RATIO: int := 4
  const ELLIPSIS: string := "\U{e2}\U{80}\U{a6}+"

  /** Routines of other packages: JSON string quoting and unquoting, and truncation at a rune boundary. */
  datatype Lib = Lib(quote: string -> string, unquote: string -> string, truncate: (string, int) -> string)

  /** The member names the encoder writes; none of them needs an escape. */
  const ENTRY_NAMES: set<string> :=
    {"logtail", "metrics", "v", "text", "client_time", "proc_id", "proc_seq", "error", "detail", "bad_data"}

  ghost predicate LibOk(lib: Lib) {
    && (forall s :: StringToken(lib.quote(s)))
    && (forall s, n :: |lib.truncate(s, n)| <= |s|)
    && (forall n :: n in ENTRY_NAMES ==> lib.unquote("\"" + n + "\"") == n)
  }

  datatype Settings = Settings(skipClientTime: bool, procID: nat, maxUploadSize: int, lowMem: bool)

  /** What appendMetadata is told. An absent client time is a skipped one; "" is no metrics. */
  datatype Meta = Meta(clientTime: Option<string>, procID: nat, procSequence: nat,
                       detail: string, data: Option<Value>, metrics: string, level: int)

  /** Go's integer division, which truncates toward zero. */
  function TruncDiv(a: int, b: int): int
    requires b > 0
  {
    if a >= 0 then a / b else -(-a / b)
  }

  function MaxLen(s: Settings): int {
    if s.maxUploadSize != 0 then s.maxUploadSize else MAX_SIZE
  }

  // ---- The metadata members ----

  function Plain(name: string, v: Value): Member {
    Member("", "\"" + name + "\"", "", "", v, "")
  }

  function Optional(present: bool, name: string, v: Value): seq<Member> {
    if present then [Plain(name, v)] else []
  }

  function Quoted(s: string): Value {
    Scalar("\"" + s + "\"")
  }

  function ErrorMembers(lib: Lib, x: Meta): seq<Member> {
    Optional(x.detail != "", "detail", Scalar(lib.quote(x.detail)))
    + (if x.data.Some? then [Plain("bad_data", x.data.value)] else [])
  }

  function TimeMembers(x: Meta): seq<Member> {
    if x.clientTime.Some? then [Plain("client_time", Quoted(x.clientTime.value))] else []
  }

  function LogtailMembers(lib: Lib, x: Meta): seq<Member> {
    TimeMembers(x)
    + Optional(x.procID != 0, "proc_id", Scalar(Decimal(x.procID)))
    + Optional(x.procSequence != 0, "proc_seq", Scalar(Decimal(x.procSequence)))
    + Optional(x.detail != "" || x.data.Some?, "error", Object("", ErrorMembers(lib, x)))
  }

  function LevelMembers(level: int): seq<Member> {
    if 0 < level < 10 then [Plain("v", Scalar(['0' + level as char]))] else []
  }

  function Metadata(lib: Lib, x: Meta): seq<Member> {
    Optional(x.clientTime.Some? || x.procID != 0 || x.procSequence != 0 || x.detail != "" || x.data.Some?,
             "logtail", Object("", LogtailMembers(lib, x)))
    + Optional(x.metrics != "", "metrics", Quoted(x.metrics))
    + LevelMembers(x.level)
  }

  /** Timestamps and metrics come from formatters whose text needs no quoting. */
  ghost predicate MetaOk(x: Meta) {
    && (x.clientTime.Some? ==> StringBody(x.clientTime.value))
    && StringBody(x.metrics)
    && (x.data.Some? ==> WellFormed(x.data.value))
  }

  /** Members printed the way metadata is appended: each one followed by a comma. */
  function Terminated(ms: seq<Member>): string {
    if ms == [] then "" else MembersText(ms) + ","
  }

  predicate AllPlain(ms: seq<Member>) {
    forall i :: 0 <= i < |ms| ==> ms[i].after == ""
  }

  /** How the source writes one member: name, colon, value, comma. */
  function Written(name: string, text: string): string {
    "\"" + name + "\":" + text + ","
  }

  lemma WrittenIsMember(name: string, v: Value)
    ensures Written(name, Text(v)) == MembersText([Plain(name, v)]) + ","
  {
    var m := Plain(name, v);
    var q := "\"" + name + "\"";
    assert q + ":" + Text(v) == "\"" + name + "\":" + Text(v);
    assert m.before + m.name + m.preColon == q;
    assert q + ":" + m.postColon == q + ":";
    assert Core(m) + m.after == q + ":" + Text(v);
  }

  lemma TerminatedSnoc(ms: seq<Member>, m: Member)
    ensures Terminated(ms + [m]) == Terminated(ms) + (MembersText([m]) + ",")
  {
    if ms == [] {
      assert ms + [m] == [m];
    } else {
      MembersTextSplit(ms, [m]);
    }
  }

  lemma TerminatedPut(base: string, done: seq<Member>, name: string, v: Value)
    ensures base + Terminated(done) + Written(name, Text(v)) == base + Terminated(done + [Plain(name, v)])
  {
    WrittenIsMember(name, v);
    TerminatedSnoc(done, Plain(name, v));
    Seqs.Assoc(base, Terminated(done), Written(name, Text(v)));
  }

  /** Appends one optional member; `done` lists the members appended since `base`. */
  method PutMember(ghost base: string, ghost done: seq<Member>, dst: string,
                   present: bool, name: string, text: string, ghost v: Value)
    returns (r: string)
    requires dst == base + Terminated(done) && text == Text(v)
    ensures r == base + Terminated(done + Optional(present, name, v))
  {
    if present {
      r := dst + Written(name, text);
      TerminatedPut(base, done, name, v);
    } else {
      r := dst;
      assert done + [] == done;
    }
  }

  /** Trimming commas after terminated members removes exactly the last comma. */
  lemma TrimTerminated(dst: string, ms: seq<Member>, cut: set<char>)
    requires ms != [] && Ok(ms)
    requires ',' in cut && cut <= TRIMMED
    ensures TrimRight(dst + Terminated(ms), cut) == dst + MembersText(ms)
  {
    RetailSolidEnd(ms);
    PlainRetail(ms);
    TrimComma(dst, MembersText(ms), cut);
    Seqs.Assoc(dst, MembersText(ms), ",");
  }

  lemma PlainRetail(ms: seq<Member>)
    requires ms != [] && AllPlain(ms)
    ensures Retail(ms, "") == ms
  {
  }

  lemma TrimComma(dst: string, t: string, cut: set<char>)
    requires t != "" && t[|t| - 1] !in TRIMMED && ',' in cut && cut <= TRIMMED
    ensures TrimRight(dst + t + ",", cut) == dst + t
  {
    var x := dst + t;
    assert x[|x| - 1] == t[|t| - 1];
    TrimTail(x, ",", cut);
  }

  ghost predicate Ok(ms: seq<Member>) {
    WellFormedMembers(ms) && AllPlain(ms)
  }

  lemma PlainOk(name: string, v: Value)
    requires WellFormed(v) && Unescaped(name)
    ensures Ok([Plain(name, v)])
  {
    var m := Plain(name, v);
    UnescapedIsBody(name);
    QuotedBody(name);
    StringTokenIsToken(m.name);
    assert WellFormedMember(m);
    assert [m][1..] == [];
  }

  lemma ConcatOk(a: seq<Member>, b: seq<Member>)
    requires Ok(a) && Ok(b)
    ensures Ok(a + b)
  {
    MembersConcat(a, b);
  }

  lemma QuotedOk(s: string)
    requires StringBody(s)
    ensures WellFormed(Quoted(s))
  {
    QuotedBody(s);
    StringTokenIsToken("\"" + s + "\"");
  }

  lemma ErrorOk(lib: Lib, x: Meta)
    requires LibOk(lib) && MetaOk(x)
    ensures Ok(ErrorMembers(lib, x))
  {
    StringTokenIsToken(lib.quote(x.detail));
    PlainOk("detail", Scalar(lib.quote(x.detail)));
    if x.data.Some? {
      PlainOk("bad_data", x.data.value);
      ConcatOk(Optional(x.detail != "", "detail", Scalar(lib.quote(x.detail))), [Plain("bad_data", x.data.value)]);
    }
  }

  lemma NumberOk(present: bool, name: string, n: nat)
    requires Unescaped(name)
    ensures Ok(Optional(present, name, Scalar(Decimal(n))))
  {
    NumberIsToken(n);
    PlainOk(name, Scalar(Decimal(n)));
  }

  lemma TimeOk(x: Meta)
    requires MetaOk(x)
    ensures Ok(TimeMembers(x))
  {
    if x.clientTime.Some? {
      QuotedOk(x.clientTime.value);
      PlainOk("client_time", Quoted(x.clientTime.value));
    }
  }

  /** An optional member that holds an object. */
  lemma ObjectOk(present: bool, name: string, ms: seq<Member>)
    requires Ok(ms) && Unescaped(name)
    ensures Ok(Optional(present, name, Object("", ms)))
  {
    PlainOk(name, Object("", ms));
  }

  lemma ThreeOk(a: seq<Member>, b: seq<Member>, c: seq<Member>)
    requires Ok(a) && Ok(b) && Ok(c)
    ensures Ok(a + b + c)
  {
    ConcatOk(a, b);
    ConcatOk(a + b, c);
  }

  lemma FourOk(a: seq<Member>, b: seq<Member>, c: seq<Member>, d: seq<Member>)
    requires Ok(a) && Ok(b) && Ok(c) && Ok(d)
    ensures Ok(a + b + c + d)
  {
    ThreeOk(a, b, c);
    ConcatOk(a + b + c, d);
  }

  lemma ProcOk(x: Meta)
    ensures Ok(Optional(x.procID != 0, "proc_id", Scalar(Decimal(x.procID))))
  {
    NumberOk(x.procID != 0, "proc_id", x.procID);
  }

  lemma SequenceOk(x: Meta)
    ensures Ok(Optional(x.procSequence != 0, "proc_seq", Scalar(Decimal(x.procSequence))))
  {
    NumberOk(x.procSequence != 0, "proc_seq", x.procSequence);
  }

  lemma ErrorMemberOk(lib: Lib, x: Meta)
    requires LibOk(lib) && MetaOk(x)
    ensures Ok(Optional(x.detail != "" || x.data.Some?, "error", Object("", ErrorMembers(lib, x))))
  {
    ErrorOk(lib, x);
    ObjectOk(x.detail != "" || x.data.Some?, "error", ErrorMembers(lib, x));
  }

  lemma LogtailOk(lib: Lib, x: Meta)
    requires LibOk(lib) && MetaOk(x)
    ensures Ok(LogtailMembers(lib, x))
  {
    TimeOk(x);
    ProcOk(x);
    SequenceOk(x);
    ErrorMemberOk(lib, x);
    FourOk(TimeMembers(x), Optional(x.procID != 0, "proc_id", Scalar(Decimal(x.procID))),
           Optional(x.procSequence != 0, "proc_seq", Scalar(Decimal(x.procSequence))),
           Optional(x.detail != "" || x.data.Some?, "error", Object("", ErrorMembers(lib, x))));
  }

  lemma LevelOk(level: int)
    ensures Ok(LevelMembers(level))
  {
    if 0 < level < 10 {
      NumberIsToken(level);
      assert Decimal(level) == ['0' + level as char];
      PlainOk("v", Scalar(['0' + level as char]));
    }
  }

  lemma MetricsOk(x: Meta)
    requires MetaOk(x)
    ensures Ok(Optional(x.metrics != "", "metrics", Quoted(x.metrics)))
  {
    QuotedOk(x.metrics);
    PlainOk("metrics", Quoted(x.metrics));
  }

  lemma MetadataOk(lib: Lib, x: Meta)
    requires LibOk(lib) && MetaOk(x)
    ensures Ok(Metadata(lib, x))
  {
    MetricsOk(x);
    LevelOk(x.level);
    var present := x.clientTime.Some? || x.procID != 0 || x.procSequence != 0 || x.detail != "" || x.data.Some?;
    LogtailOk(lib, x);
    LogtailMemberOk(present, LogtailMembers(lib, x));
    ThreeOk(Optional(present, "logtail", Object("", LogtailMembers(lib, x))),
            Optional(x.metrics != "", "metrics", Quoted(x.metrics)), LevelMembers(x.level));
  }

  lemma LogtailMemberOk(present: bool, ms: seq<Member>)
    requires Ok(ms)
    ensures Ok(Optional(present, "logtail", Object("", ms)))
  {
    ObjectOk(present, "logtail", ms);
  }

  function Opened(name: string): string {
    "\"" + name + "\":" + "{"
  }

  /** Ends a nested object: the comma after its last member goes, a brace and a comma come. */
  method CloseObject(ghost base: string, ghost done: seq<Member>, dst: string, ghost name: string) returns (r: string)
    requires done != [] && Ok(done)
    requires dst == base + Opened(name) + Terminated(done)
    ensures r == base + Written(name, Text(Object("", done)))
  {
    TrimTerminated(base + Opened(name), done, {','});
    r := TrimRight(dst, {','});
    r := r + "},";
    CloseText(base, "\"" + name + "\":", MembersText(done));
  }

  lemma CloseText(base: string, key: string, body: string)
    ensures base + (key + "{") + body + "}," == base + (key + ("{" + body + "}") + ",")
  {
    assert base + (key + "{") + body == base + (key + ("{" + body));
    assert base + (key + ("{" + body)) + "}," == base + (key + ("{" + body) + "},");
    assert key + ("{" + body) + "}," == key + ("{" + body + "}") + ",";
  }

  method AppendError(lib: Lib, dst: string, x: Meta) returns (r: string)
    requires LibOk(lib) && MetaOk(x) && ErrorMembers(lib, x) != []
    ensures r == dst + Written("error", Text(Object("", ErrorMembers(lib, x))))
  {
    r := dst + Opened("error");
    ghost var base := r;
    var detail := lib.quote(x.detail);
    r := PutMember(base, [], r, x.detail != "", "detail", detail, Scalar(detail));
    ghost var done := [] + Optional(x.detail != "", "detail", Scalar(detail));
    if x.data.Some? {
      r := PutMember(base, done, r, true, "bad_data", Text(x.data.value), x.data.value);
    }
    ErrorOk(lib, x);
    r := CloseObject(dst, ErrorMembers(lib, x), r, "error");
  }

  /** The nested error object, when there is an error to report. */
  method PutError(lib: Lib, ghost base: string, ghost done: seq<Member>, dst: string, x: Meta) returns (r: string)
    requires LibOk(lib) && MetaOk(x) && dst == base + Terminated(done)
    ensures r == base + Terminated(done + Optional(x.detail != "" || x.data.Some?, "error", Object("", ErrorMembers(lib, x))))
  {
    r := dst;
    if x.detail != "" || x.data.Some? {
      ghost var v := Object("", ErrorMembers(lib, x));
      r := AppendError(lib, r, x);
      TerminatedPut(base, done, "error", v);
    } else {
      assert done + [] == done;
    }
  }

  method PutTime(ghost base: string, dst: string, x: Meta) returns (r: string)
    requires dst == base
    ensures r == base + Terminated(TimeMembers(x))
  {
    r := dst;
    if x.clientTime.Some? {
      r := PutMember(base, [], r, true, "client_time", "\"" + x.clientTime.value + "\"", Quoted(x.clientTime.value));
      assert [] + TimeMembers(x) == TimeMembers(x);
    }
  }

  method AppendLogtail(lib: Lib, dst: string, x: Meta) returns (r: string)
    requires LibOk(lib) && MetaOk(x) && LogtailMembers(lib, x) != []
    ensures r == dst + Written("logtail", Text(Object("", LogtailMembers(lib, x))))
  {
    r := dst + Opened("logtail");
    ghost var base := r;
    r := PutTime(base, r, x);
    ghost var done := TimeMembers(x);
    var id, sq := Decimal(x.procID), Decimal(x.procSequence);
    r := PutMember(base, done, r, x.procID != 0, "proc_id", id, Scalar(id));
    done := done + Optional(x.procID != 0, "proc_id", Scalar(id));
    r := PutMember(base, done, r, x.procSequence != 0, "proc_seq", sq, Scalar(sq));
    done := done + Optional(x.procSequence != 0, "proc_seq", Scalar(sq));
    r := PutError(lib, base, done, r, x);
    LogtailOk(lib, x);
    r := CloseObject(dst, LogtailMembers(lib, x), r, "logtail");
  }

  method AppendMetadata(lib: Lib, dst: string, x: Meta) returns (r: string)
    requires LibOk(lib) && MetaOk(x)
    ensures r == dst + Terminated(Metadata(lib, x))
  {
    r := dst;
    ghost var v := Object("", LogtailMembers(lib, x));
    var present := x.clientTime.Some? || x.procID != 0 || x.procSequence != 0 || x.detail != "" || x.data.Some?;
    if present {
      r := AppendLogtail(lib, r, x);
      WrittenIsMember("logtail", v);
    }
    ghost var done := Optional(present, "logtail", v);
    assert r == dst + Terminated(done);
    r := PutMember(dst, done, r, x.metrics != "", "metrics", "\"" + x.metrics + "\"", Quoted(x.metrics));
    done := done + Optional(x.metrics != "", "metrics", Quoted(x.metrics));
    if 0 < x.level < 10 {
      var digit := ['0' + x.level as char];
      r := PutMember(dst, done, r, true, "v", digit, Scalar(digit));
    } else {
      assert done + [] == done;
    }
  }
}
