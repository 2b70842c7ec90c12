/** The byte-cutting code that produces log entries, against the trees it must spell (logtail/logtail.go). */
module LogEncoder {
  import opened Tokens
  import Bytes
  import Seqs
  import opened Options
  import opened Json
  import opened MemBuffer
  import opened LogEntry
  import opened LogRewrite

  // ---- Where a decoder stops ----

  /** The input offset after i members were read: the end of the i-th value. */
  function EndOf(ms: seq<Member>, i: nat): nat
    requires i <= |ms|
  {
    1 + if i == 0 then 0 else |MembersText(Retail(ms[..i], ""))|
  }

  /** The text between the opening brace and the end of member i's value. */
  lemma CutStep(ms: seq<Member>, i: nat)
    requires i < |ms|
    ensures MembersText(Retail(ms[..i + 1], "")) == (if i == 0 then "" else MembersText(ms[..i]) + ",") + Core(ms[i])
    ensures EndOf(ms, i + 1) == EndOf(ms, i) + (if i == 0 then 0 else |ms[i - 1].after| + 1) + |Core(ms[i])|
  {
    var bare := ms[i].(after := "");
    assert Retail(ms[..i + 1], "") == ms[..i] + [bare];
    assert MembersText([bare]) == Core(ms[i]);
    if i == 0 {
      assert ms[..0] + [bare] == [bare];
    } else {
      MembersTextSplit(ms[..i], [bare]);
      RetailText(ms[..i], "");
    }
  }

  /** What lies before member k's key and what lies after its value. */
  function BeforeKey(ms: seq<Member>, k: nat): string
    requires k < |ms|
  {
    if k == 0 then "" else MembersText(Retail(ms[..k], ""))
  }

  function AfterValue(ms: seq<Member>, k: nat): string
    requires k < |ms|
  {
    ms[k].after + if k + 1 == |ms| then "" else "," + MembersText(ms[k + 1..])
  }

  /** A member from its colon to the end of its value. */
  function ValuePart(m: Member): string {
    m.preColon + ":" + m.postColon + Text(m.value)
  }

  lemma CutAfter(ms: seq<Member>, k: nat)
    requires k < |ms|
    ensures MembersText(ms) == MembersText(Retail(ms[..k + 1], "")) + AfterValue(ms, k)
  {
    var first := ms[..k + 1];
    RetailText(first, "");
    assert first[k] == ms[k];
    var bare, gap := MembersText(Retail(first, "")), ms[k].after;
    if k + 1 < |ms| {
      assert ms == first + ms[k + 1..];
      MembersTextSplit(first, ms[k + 1..]);
      var rest := "," + MembersText(ms[k + 1..]);
      assert bare + gap + "," + MembersText(ms[k + 1..]) == bare + (gap + rest);
    } else {
      assert first == ms;
    }
  }

  /** From the end of the value before member k to member k's colon. */
  function KeyPart(ms: seq<Member>, k: nat): string
    requires k < |ms|
  {
    (if k == 0 then "" else ms[k - 1].after + ",") + (ms[k].before + ms[k].name)
  }

  lemma CutBefore(ms: seq<Member>, k: nat)
    requires k < |ms|
    ensures MembersText(Retail(ms[..k + 1], "")) == BeforeKey(ms, k) + KeyPart(ms, k) + ValuePart(ms[k])
  {
    var m := ms[k];
    CutStep(ms, k);
    CoreParts(m);
    var head, part := m.before + m.name, ValuePart(m);
    if k == 0 {
      assert "" + ("" + head) + part == "" + (head + part);
    } else {
      RetailText(ms[..k], "");
      Regroup(BeforeKey(ms, k), ms[k - 1].after, ",", head, part);
    }
  }

  lemma CoreParts(m: Member)
    ensures Core(m) == (m.before + m.name) + ValuePart(m)
  {
  }

  lemma Regroup(a: string, b: string, c: string, d: string, e: string)
    ensures a + b + c + (d + e) == a + (b + c + d) + e
  {
  }

  /** The three slices the source takes, for a source text that spells ms. */
  lemma SourceCut(src: string, ms: seq<Member>, k: nat, rest: string)
    requires k < |ms| && src == "{" + MembersText(ms) + rest
    ensures var p := EndOf(ms, k); var q := EndOf(ms, k + 1); var n := |ValuePart(ms[k])|;
            && 1 <= p <= q <= |src| && p <= q - n
            && src[1..p] == BeforeKey(ms, k)
            && src[q - n..q] == ValuePart(ms[k])
            && src[q..] == AfterValue(ms, k) + rest
  {
    CutAfter(ms, k);
    CutBefore(ms, k);
    EndOfParts(ms, k);
    Slices(src, MembersText(ms), MembersText(Retail(ms[..k + 1], "")), BeforeKey(ms, k), KeyPart(ms, k), ValuePart(ms[k]),
           AfterValue(ms, k), rest, EndOf(ms, k), EndOf(ms, k + 1));
  }

  lemma EndOfParts(ms: seq<Member>, k: nat)
    requires k < |ms|
    ensures EndOf(ms, k) == 1 + |BeforeKey(ms, k)| && EndOf(ms, k + 1) == 1 + |MembersText(Retail(ms[..k + 1], ""))|
  {
  }

  lemma Slices(src: string, text: string, head: string, a: string, b: string, c: string, d: string, rest: string, p: nat, q: nat)
    requires src == "{" + text + rest && text == head + d && head == a + b + c && p == 1 + |a| && q == 1 + |head|
    ensures 1 <= p <= q <= |src| && p <= q - |c|
    ensures src[1..p] == a && src[q - |c|..q] == c && src[q..] == d + rest
  {
    assert src == ("{" + head) + (d + rest);
    assert src == "{" + a + b + c + (d + rest);
  }

  lemma ScanStep(ms: seq<Member>, i: nat)
    requires i < |ms|
    ensures EndOf(ms, i + 1)
         == EndOf(ms, i) + (if i == 0 then 0 else |ms[i - 1].after| + 1) + |ms[i].before + ms[i].name| + |ValuePart(ms[i])|
    ensures |ValuePart(ms[i])| > 0
  {
    CutStep(ms, i);
  }

  /** Member k's key starts at `key`, and its colon, whitespace and value are the `len` bytes from `val` on. */
  ghost predicate LiesAt(ms: seq<Member>, k: nat, key: nat, val: nat, len: nat) {
    && k < |ms|
    && len == |ValuePart(ms[k])| > 0
    && key == EndOf(ms, k) && val + len == EndOf(ms, k + 1)
  }

  /** Walks the members the way the decoder loop does, noting where the reserved one lies. */
  method Scan(lib: Lib, ms: seq<Member>) returns (at: int, keyOffset: nat, valOffset: nat, valLength: nat)
    ensures at == Reserved(lib, ms)
    ensures if at < 0 then valLength == 0 else LiesAt(ms, at, keyOffset, valOffset, valLength)
  {
    at, keyOffset, valOffset, valLength := -1, 0, 0, 0;
    var offset := 1;
    for i := 0 to |ms|
      invariant offset == EndOf(ms, i)
      invariant at == Reserved(lib, ms[..i])
      invariant if at < 0 then valLength == 0 else LiesAt(ms, at, keyOffset, valOffset, valLength)
    {
      ScanStep(ms, i);
      ReservedSnoc(lib, ms, i);
      var key := offset;
      // read the name token, past the comma and whitespace in front of it
      offset := offset + (if i == 0 then 0 else |ms[i - 1].after| + 1) + |ms[i].before + ms[i].name|;
      var isLogtail := lib.unquote(ms[i].name) == "logtail";
      var val := offset;
      // skip the colon and the value
      offset := offset + |ValuePart(ms[i])|;
      if isLogtail {
        at, keyOffset, valOffset, valLength := i, key, val, offset - val;
      }
    }
    assert ms[..|ms|] == ms;
  }

  method AppendWithoutNewline(dst: string, src: string) returns (r: string)
    ensures r == dst + Strip(src)
  {
    r := dst;
    for i := 0 to |src|
      invariant r == dst + Strip(src[..i])
    {
      assert src[..i + 1] == src[..i] + [src[i]];
      StripConcat(src[..i], [src[i]]);
      if src[i] != '\n' {
        r := r + [src[i]];
      }
    }
    assert src[..|src|] == src;
  }

  // ---- Trimming back to the last value ----

  predicate SolidEnd(s: string) {
    s != "" && s[|s| - 1] !in TRIMMED
  }

  /** The last three cuts: trailing whitespace, the brace, separators and whitespace before it. */
  method CloseEntry(dst: string, ghost x: string, ghost gap: string, ghost trailing: string) returns (r: string)
    requires dst == x + gap + "}" + trailing
    requires SolidEnd(x) && AllIn(gap, TRIMMED) && AllIn(trailing, WHITESPACE)
    ensures r == x + "}\n"
  {
    TrimTail(x + gap + "}", trailing, WHITESPACE);
    r := TrimRight(dst, WHITESPACE);
    r := r[..|r| - 1];
    assert r == x + gap;
    TrimTail(x, gap, TRIMMED);
    r := TrimRight(r, TRIMMED);
    r := r + "}\n";
  }

  /** Trimming after metadata stops at the last metadata value, or at the opening brace. */
  lemma TrimMetadata(base: string, meta: seq<Member>, gap: string)
    requires SolidEnd(base) && Ok(meta) && AllIn(gap, TRIMMED)
    ensures TrimRight(base + Terminated(meta) + gap, TRIMMED) == base + MembersText(meta)
    ensures SolidEnd(base + MembersText(meta))
  {
    var t := MembersText(meta);
    if meta == [] {
      TrimTail(base, gap, TRIMMED);
      assert base + "" == base;
    } else {
      RetailSolidEnd(meta);
      PlainRetail(meta);
      SolidConcat(base, t);
      TrimTail(base + t, "," + gap, TRIMMED);
      CommaGap(base, t, gap);
    }
  }

  lemma CommaGap(base: string, t: string, gap: string)
    ensures base + (t + ",") + gap == base + t + ("," + gap)
  {
  }

  lemma TerminatedJoin(meta: seq<Member>, ms: seq<Member>)
    requires ms != []
    ensures MembersText(meta + ms) == Terminated(meta) + MembersText(ms)
  {
    if meta == [] {
      assert meta + ms == ms;
    } else {
      MembersTextSplit(meta, ms);
    }
  }

  // ---- One object ----

  lemma WellFormedLast(ms: seq<Member>)
    requires ms != [] && WellFormedMembers(ms)
    ensures AllIn(ms[|ms| - 1].after, WHITESPACE)
  {
    AroundOk(ms, |ms| - 1);
  }

  method AppendAll(dst: string, src: string, ghost base: string, ghost meta: seq<Member>, ghost d: Decoded) returns (r: string)
    requires SolidEnd(base) && Ok(meta)
    requires dst == base + Terminated(meta)
    requires d.Whole? && WellFormed(Object(d.gap, d.members)) && AllIn(d.trailing, WHITESPACE)
    requires src == Text(Object(d.gap, d.members)) + d.trailing
    ensures r == base + MembersText(Joined(meta, d.members, -1)) + "}\n"
  {
    ghost var ms := d.members;
    ghost var body := if ms == [] then d.gap else MembersText(ms);
    assert src[1..] == body + "}" + d.trailing;
    r := AppendWithoutNewline(dst, src[1..]);
    StripSpaces(d.trailing);
    ghost var trailing := Strip(d.trailing);
    StripEnclosed(dst, body, d.trailing);
    ghost var x, gap := AllShape(dst, base, meta, d.gap, ms);
    assert r == x + gap + "}" + trailing;
    r := CloseEntry(r, x, gap, trailing);
  }

  lemma StripEnclosed(dst: string, body: string, trailing: string)
    ensures dst + Strip(body + "}" + trailing) == dst + Strip(body) + "}" + Strip(trailing)
  {
    StripConcat(body + "}", trailing);
    StripConcat(body, "}");
    assert Strip("}") == "}";
    Seqs.Assoc(dst, Strip(body) + "}", Strip(trailing));
    Seqs.Assoc(dst, Strip(body), "}");
  }

  lemma SolidConcat(a: string, b: string)
    ensures SolidEnd(b) ==> SolidEnd(a + b)
  {
  }

  /** The stripped text of some members: up to its last value, then a gap. */
  lemma StrippedShape(ms: seq<Member>) returns (t: string, gap: string)
    requires ms != [] && WellFormedMembers(ms)
    ensures t == MembersText(Retail(StripMembers(ms), ""))
    ensures Strip(MembersText(ms)) == t + gap && SolidEnd(t)
    ensures AllIn(gap, TRIMMED)
  {
    var sm := StripMembers(ms);
    StripMembersText(ms);
    StripMembersKeep(ms);
    RetailText(sm, "");
    RetailSolidEnd(sm);
    WellFormedLast(sm);
    t, gap := MembersText(Retail(sm, "")), sm[|sm| - 1].after;
  }

  /** Splits what was appended into the part that stays and the gap that the final trim removes. */
  lemma AllShape(dst: string, base: string, meta: seq<Member>, spaces: string, ms: seq<Member>) returns (x: string, gap: string)
    requires SolidEnd(base) && Ok(meta)
    requires dst == base + Terminated(meta) && WellFormed(Object(spaces, ms))
    ensures dst + Strip(if ms == [] then spaces else MembersText(ms)) == x + gap
    ensures SolidEnd(x) && AllIn(gap, TRIMMED)
    ensures x == base + MembersText(Joined(meta, ms, -1))
  {
    if ms == [] {
      x, gap := EmptyShape(dst, base, meta, spaces);
    } else {
      var t;
      t, gap := StrippedShape(ms);
      TerminatedJoin(meta, Retail(StripMembers(ms), ""));
      x := dst + t;
      SolidConcat(dst, t);
      Seqs.Assoc(dst, t, gap);
      Seqs.Assoc(base, Terminated(meta), t);
    }
  }

  lemma EmptyShape(dst: string, base: string, meta: seq<Member>, spaces: string) returns (x: string, gap: string)
    requires SolidEnd(base) && Ok(meta) && dst == base + Terminated(meta) && AllIn(spaces, WHITESPACE)
    ensures dst + Strip(spaces) == x + gap && SolidEnd(x) && AllIn(gap, TRIMMED) && x == base + MembersText(meta)
  {
    StripSpaces(spaces);
    TrimMetadata(base, meta, Strip(spaces));
    x := base + MembersText(meta);
    if meta == [] {
      gap := Strip(spaces);
      assert dst == x;
    } else {
      gap := "," + Strip(spaces);
      Seqs.Assoc(base, MembersText(meta), ",");
      Seqs.Assoc(x, ",", Strip(spaces));
    }
  }

  lemma HeadSome(base: string, meta: seq<Member>, before: seq<Member>)
    requires Ok(meta) && meta != [] && before != [] && WellFormedMembers(before)
    ensures var x := base + MembersText(Retail(meta + StripMembers(before), ""));
            x == base + Terminated(meta) + Strip(MembersText(Retail(before, ""))) && SolidEnd(x)
  {
    var sb := StripMembers(before);
    StripRetail(before);
    StripMembersKeep(before);
    RetailSolidEnd(sb);
    RetailOfConcat(meta, sb);
    BehindMetadata(base, meta, Retail(sb, ""));
  }

  lemma BehindMetadata(base: string, meta: seq<Member>, ms: seq<Member>)
    requires ms != [] && SolidEnd(MembersText(ms))
    ensures var x := base + MembersText(meta + ms); x == base + Terminated(meta) + MembersText(ms) && SolidEnd(x)
  {
    TerminatedJoin(meta, ms);
    Seqs.Assoc(base, Terminated(meta), MembersText(ms));
    SolidConcat(base + Terminated(meta), MembersText(ms));
  }

  lemma RetailOfConcat(a: seq<Member>, b: seq<Member>)
    requires b != []
    ensures Retail(a + b, "") == a + Retail(b, "")
  {
  }

  /** After the part before the reserved member: metadata and that part, ending in a value. */
  lemma HeadShape(base: string, meta: seq<Member>, before: seq<Member>)
    requires SolidEnd(base) && Ok(meta) && meta != [] && WellFormedMembers(before)
    ensures var kept := if before == [] then "" else MembersText(Retail(before, ""));
            var x := base + MembersText(Retail(meta + StripMembers(before), ""));
            TrimRight(base + Terminated(meta) + Strip(kept), TRIMMED) == x && SolidEnd(x)
  {
    if before == [] {
      assert meta + [] == meta;
      PlainRetail(meta);
      TrimMetadata(base, meta, "");
      assert base + Terminated(meta) + "" == base + Terminated(meta);
    } else {
      HeadSome(base, meta, before);
      NothingToTrim(base + MembersText(Retail(meta + StripMembers(before), "")));
    }
  }

  lemma NothingToTrim(x: string)
    requires SolidEnd(x)
    ensures TrimRight(x, TRIMMED) == x
  {
    TrimTail(x, "", TRIMMED);
    assert x + "" == x;
  }

  lemma StripRetail(ms: seq<Member>)
    requires ms != [] && WellFormedMembers(ms)
    ensures Strip(MembersText(Retail(ms, ""))) == MembersText(Retail(StripMembers(ms), ""))
  {
    RetailKeeps(ms, "");
    StripMembersText(Retail(ms, ""));
    StripThenRetail(ms);
  }

  lemma StripThenRetail(ms: seq<Member>)
    requires ms != []
    ensures StripMembers(Retail(ms, "")) == Retail(StripMembers(ms), "")
  {
    var a, m := ms[..|ms| - 1], ms[|ms| - 1];
    assert ms == a + [m];
    StripMembersConcat(a, [m]);
    StripMembersConcat(a, [m.(after := "")]);
    RetailOfConcat(StripMembers(a), StripMembers([m]));
    StripOne(m);
  }

  lemma StripOne(m: Member)
    ensures StripMembers([m]) == [StripMember(m)]
    ensures StripMembers([m.(after := "")]) == [StripMember(m).(after := "")] == Retail(StripMembers([m]), "")
  {
  }

  lemma TailSome(a: seq<Member>, m: Member, after: seq<Member>) returns (t: string, gap: string)
    requires a != [] && after != [] && WellFormedMember(m) && WellFormedMembers(after)
    ensures Strip(m.after + ("," + MembersText(after))) == Strip(m.after) + ("," + (t + gap))
    ensures SolidEnd(t) && AllIn(gap, TRIMMED)
    ensures MembersText(Retail(a, Strip(m.after)) + Retail(StripMembers(after), ""))
         == MembersText(Retail(a, "")) + Strip(m.after) + "," + t
  {
    StripConcat(m.after, "," + MembersText(after));
    StripConcat(",", MembersText(after));
    assert Strip(",") == ",";
    t, gap := StrippedShape(after);
    RetailText(a, Strip(m.after));
    MembersTextSplit(Retail(a, Strip(m.after)), Retail(StripMembers(after), ""));
  }

  lemma TailAssoc(base: string, a: string, s: string, t: string, gap: string)
    requires SolidEnd(t)
    ensures base + a + (s + ("," + (t + gap))) == base + (a + s + "," + t) + gap
    ensures SolidEnd(base + (a + s + "," + t))
  {
    Seqs.Assoc(",", t, gap);
    Seqs.Assoc(s, "," + t, gap);
    Seqs.Assoc(base + a, s + ("," + t), gap);
    Seqs.Assoc(a, s, "," + t);
    Seqs.Assoc(base, a, s + ("," + t));
    Seqs.Assoc(a + s, ",", t);
  }

  /** After the part behind the reserved member: what stays and what the final trim removes. */
  lemma TailShape(base: string, a: seq<Member>, m: Member, after: seq<Member>) returns (x: string, gap: string)
    requires a != [] && WellFormedMembers(a) && WellFormedMember(m) && WellFormedMembers(after)
    ensures var tail := m.after + if after == [] then "" else "," + MembersText(after);
            base + MembersText(Retail(a, "")) + Strip(tail) == x + gap
    ensures SolidEnd(x) && AllIn(gap, TRIMMED)
    ensures x == base + MembersText(Around(a, StripMembers(after), Strip(m.after)))
  {
    if after == [] {
      StripSpaces(m.after);
      RetailSolidEnd(a);
      assert m.after + "" == m.after;
      x, gap := base + MembersText(Retail(a, "")), Strip(m.after);
    } else {
      var t;
      t, gap := TailSome(a, m, after);
      TailAssoc(base, MembersText(Retail(a, "")), Strip(m.after), t, gap);
      x := base + MembersText(Retail(a, Strip(m.after)) + Retail(StripMembers(after), ""));
    }
  }

  /** Everything AppendAround needs to know about the text behind the reserved value. */
  lemma BehindShape(src: string, d: Decoded, k: nat)
    requires d.Whole? && k < |d.members| && src == Text(Object(d.gap, d.members)) + d.trailing
    requires AllIn(d.trailing, WHITESPACE)
    ensures var p := EndOf(d.members, k); var q := EndOf(d.members, k + 1);
            && 1 <= p <= q <= |src|
            && src[1..p] == BeforeKey(d.members, k)
            && Strip(src[q..]) == Strip(AfterValue(d.members, k)) + "}" + Strip(d.trailing)
            && AllIn(Strip(d.trailing), WHITESPACE)
  {
    var ms := d.members;
    ObjectText(d.gap, ms, d.trailing);
    SourceCut(src, ms, k, "}" + d.trailing);
    StripConcat(AfterValue(ms, k), "}" + d.trailing);
    StripConcat("}", d.trailing);
    assert Strip("}") == "}";
    StripSpaces(d.trailing);
    Seqs.Assoc(Strip(AfterValue(ms, k)), "}", Strip(d.trailing));
  }

  method AppendAround(dst: string, src: string, keyOffset: nat, end: nat,
                      ghost base: string, ghost meta: seq<Member>, ghost d: Decoded, ghost k: nat) returns (r: string)
    requires SolidEnd(base) && Ok(meta) && meta != []
    requires dst == base + Terminated(meta)
    requires d.Whole? && WellFormed(Object(d.gap, d.members)) && AllIn(d.trailing, WHITESPACE)
    requires src == Text(Object(d.gap, d.members)) + d.trailing
    requires k < |d.members| && keyOffset == EndOf(d.members, k) && end == EndOf(d.members, k + 1)
    requires 1 <= keyOffset <= end <= |src|
    ensures r == base + MembersText(Joined(meta, d.members, k)) + "}\n"
  {
    ghost var ms := d.members;
    ghost var a := meta + StripMembers(ms[..k]);
    ghost var trailing := Strip(d.trailing);
    BehindShape(src, d, k);
    AroundOk(ms, k);
    r := AppendWithoutNewline(dst, src[1..keyOffset]);
    HeadShape(base, meta, ms[..k]);
    r := TrimRight(r, TRIMMED);
    assert r == base + MembersText(Retail(a, ""));
    StripMembersKeep(ms[..k]);
    MembersConcat(meta, StripMembers(ms[..k]));
    ghost var x, gap := TailShape(base, a, ms[k], ms[k + 1..]);
    r := AppendWithoutNewline(r, src[end..]);
    Seqs.Assoc(base + MembersText(Retail(a, "")), Strip(AfterValue(ms, k)) + "}", trailing);
    Seqs.Assoc(base + MembersText(Retail(a, "")), Strip(AfterValue(ms, k)), "}");
    r := CloseEntry(r, x, gap, trailing);
  }

  lemma ObjectText(gap: string, ms: seq<Member>, trailing: string)
    requires ms != []
    ensures Text(Object(gap, ms)) + trailing == "{" + MembersText(ms) + ("}" + trailing)
  {
    Seqs.Assoc("{" + MembersText(ms), "}", trailing);
  }

  lemma ReportSlice(src: string, ms: seq<Member>, rest: string, k: nat, key: nat, val: nat, len: nat)
    requires src == "{" + MembersText(ms) + rest && LiesAt(ms, k, key, val, len)
    ensures 1 <= key <= val + len <= |src| && src[val..val + len] == ValuePart(ms[k])
  {
    SourceCut(src, ms, k, rest);
  }

  /** The report the source cuts out of src is the reserved member's value text. */
  lemma ReportCut(src: string, ms: seq<Member>, rest: string, k: nat, key: nat, val: nat, len: nat)
    requires src == "{" + MembersText(ms) + rest && WellFormedMembers(ms) && LiesAt(ms, k, key, val, len)
    ensures 1 <= key <= val + len <= |src|
    ensures TrimRight(TrimLeft(src[val..val + len], TRIMMED), TRIMMED) == Text(ms[k].value)
  {
    ReportSlice(src, ms, rest, k, key, val, len);
    AroundOk(ms, k);
    ReportText(ms[k]);
  }

  /** The input's members behind the metadata, all of them or all but the reserved one. */
  method AppendMembers(dst: string, src: string, found: bool, keyOffset: nat, end: nat,
                       ghost base: string, ghost meta: seq<Member>, ghost d: Decoded, ghost k: int) returns (r: string)
    requires SolidEnd(base) && Ok(meta) && dst == base + Terminated(meta)
    requires d.Whole? && WellFormed(Object(d.gap, d.members)) && AllIn(d.trailing, WHITESPACE)
    requires src == Text(Object(d.gap, d.members)) + d.trailing
    requires if found then 0 <= k < |d.members| && meta != [] && keyOffset == EndOf(d.members, k)
                           && end == EndOf(d.members, k + 1) && 1 <= keyOffset <= end <= |src|
             else k == -1
    ensures r == base + MembersText(Joined(meta, d.members, k)) + "}\n"
  {
    if found {
      r := AppendAround(dst, src, keyOffset, end, base, meta, d, k);
    } else {
      r := AppendAll(dst, src, base, meta, d);
    }
  }

  /** A valid object within the size limit, as bytes, is the rewritten tree. */
  method AppendObject(lib: Lib, dst: string, src: string, d: Decoded, x: Meta) returns (r: string)
    requires LibOk(lib) && MetaOk(x) && x.data.None?
    requires d.Whole? && Decodes(lib, src, d)
    ensures r == dst + Entry(Rewritten(lib, x, d.members))
  {
    var at, keyOffset, valOffset, valLength := Scan(lib, d.members);
    var y := x;
    if valLength > 0 {
      ObjectText(d.gap, d.members, d.trailing);
      ReportCut(src, d.members, "}" + d.trailing, at, keyOffset, valOffset, valLength);
      var errData := TrimRight(TrimLeft(src[valOffset..valOffset + valLength], TRIMMED), TRIMMED);
      assert errData == Text(d.members[at].value);
      y := Reported(x, d.members[at].value);
    }
    MetaOkReported(lib, x, d.members);
    MetadataOk(lib, y);
    r := AppendMetadata(lib, dst + "{", y);
    r := AppendMembers(r, src, valLength > 0, keyOffset, valOffset + valLength, dst + "{", Metadata(lib, y), d, at);
    EntryText(dst, Rewritten(lib, x, d.members));
  }

  lemma EntryText(dst: string, ms: seq<Member>)
    ensures dst + "{" + MembersText(ms) + "}\n" == dst + Entry(ms)
  {
    Seqs.Assoc(dst, "{", MembersText(ms));
    Seqs.Assoc(dst, "{" + MembersText(ms), "}\n");
  }

  /** Trimming the colon and whitespace leaves exactly the value's own text. */
  lemma ReportText(m: Member)
    requires WellFormedMember(m)
    ensures TrimRight(TrimLeft(ValuePart(m), TRIMMED), TRIMMED) == Text(m.value)
  {
    ValueSolid(m.value);
    var lead := m.preColon + ":" + m.postColon;
    TrimHead(lead, Text(m.value), TRIMMED);
    TrimTail(Text(m.value), "", TRIMMED);
    assert Text(m.value) + "" == Text(m.value);
  }

  // ---- Any input ----

  /** A JSON string for src, cut to n bytes; the number of bytes cut is appended. */
  function Truncated(lib: Lib, src: string, n: int): string
    requires |lib.truncate(src, n)| <= |src| && |lib.quote(lib.truncate(src, n))| >= 1
  {
    var kept := lib.truncate(src, n);
    var quoted := lib.quote(kept);
    if |src| > |kept| then quoted[..|quoted| - 1] + ELLIPSIS + Decimal(|src| - |kept|) + "\"" else quoted
  }

  lemma EllipsisIsBody()
    ensures StringBody(ELLIPSIS)
  {
    UnescapedIsBody(ELLIPSIS);
  }

  lemma DecimalIsBody(n: nat)
    ensures StringBody(Decimal(n))
  {
    DecimalIsInteger(n);
    UnescapedIsBody(Decimal(n));
  }

  /** Cutting the closing quote, adding the ellipsis and the count, and closing again leaves one string token. */
  lemma ReclosedToken(quoted: string, more: string)
    requires StringToken(quoted) && StringBody(more)
    ensures StringToken(quoted[..|quoted| - 1] + more + "\"")
  {
    var body := quoted[1..|quoted| - 1];
    BodyConcat(body, more);
    QuotedBody(body + more);
    assert quoted[..|quoted| - 1] == "\"" + body;
    Seqs.Assoc("\"", body, more);
  }

  lemma TruncatedOk(lib: Lib, src: string, n: int)
    requires LibOk(lib)
    ensures |lib.truncate(src, n)| <= |src| && |lib.quote(lib.truncate(src, n))| >= 1
    ensures StringToken(Truncated(lib, src, n)) && Token(Truncated(lib, src, n))
  {
    var kept := lib.truncate(src, n);
    var quoted := lib.quote(kept);
    assert StringToken(quoted);
    if |src| > |kept| {
      var count := Decimal(|src| - |kept|);
      EllipsisIsBody();
      DecimalIsBody(|src| - |kept|);
      BodyConcat(ELLIPSIS, count);
      ReclosedToken(quoted, ELLIPSIS + count);
      Seqs.Assoc(quoted[..|quoted| - 1], ELLIPSIS, count);
    }
    StringTokenIsToken(Truncated(lib, src, n));
  }

  function TextMembers(lib: Lib, s: Settings, x: Meta, src: string): seq<Member>
    requires forall t, n :: |lib.truncate(t, n)| <= |t|
    requires forall t :: |lib.quote(t)| >= 1
  {
    var max := if s.lowMem then MAX_TEXT_SIZE / LOW_MEM_RATIO else MAX_TEXT_SIZE;
    Metadata(lib, x) + if src == "" then [] else [Plain("text", Scalar(Truncated(lib, src, max)))]
  }

  function Oversized(lib: Lib, s: Settings, x: Meta, src: string): Meta
    requires forall t, n :: |lib.truncate(t, n)| <= |t|
    requires forall t :: |lib.quote(t)| >= 1
  {
    x.(metrics := "",
       detail := "entry too large: " + Decimal(|src|) + " bytes",
       data := Some(Scalar(Truncated(lib, src, TruncDiv(MaxLen(s), 6)))))
  }

  lemma OversizedOk(lib: Lib, s: Settings, x: Meta, src: string)
    requires LibOk(lib) && MetaOk(x)
    ensures MetaOk(Oversized(lib, s, x, src))
  {
    TruncatedOk(lib, src, TruncDiv(MaxLen(s), 6));
  }

  /** The members of the entry for any write: raw text, an object that is too large, or an object. */
  function EncodedMembers(lib: Lib, s: Settings, x: Meta, src: string, d: Decoded): seq<Member>
    requires forall t, n :: |lib.truncate(t, n)| <= |t|
    requires forall t :: |lib.quote(t)| >= 1
  {
    if src == "" || src[0] != '{' || d.Malformed? then TextMembers(lib, s, x, src)
    else if |src| > MaxLen(s) then Metadata(lib, Oversized(lib, s, x, src))
    else Rewritten(lib, x.(metrics := ""), d.members)
  }

  /** Whether src is rewritten member by member: one JSON object that is not too large. */
  predicate IsRewritten(s: Settings, src: string, d: Decoded) {
    src != "" && src[0] == '{' && d.Whole? && |src| <= MaxLen(s)
  }

  lemma TextMemberOk(token: string)
    requires Token(token)
    ensures Ok([Plain("text", Scalar(token))])
  {
    PlainOk("text", Scalar(token));
  }

  lemma TextMembersOk(lib: Lib, s: Settings, x: Meta, src: string)
    requires LibOk(lib) && Ok(Metadata(lib, x))
    ensures Ok(TextMembers(lib, s, x, src))
  {
    if src != "" {
      var max := if s.lowMem then MAX_TEXT_SIZE / LOW_MEM_RATIO else MAX_TEXT_SIZE;
      TruncatedOk(lib, src, max);
      TextMemberOk(Truncated(lib, src, max));
      ConcatOk(Metadata(lib, x), [Plain("text", Scalar(Truncated(lib, src, max)))]);
    } else {
      assert Metadata(lib, x) + [] == Metadata(lib, x);
    }
  }

  /** Every write becomes one well-formed JSON object, whatever was written. */
  lemma EncodedIsWellFormed(lib: Lib, s: Settings, x: Meta, src: string, d: Decoded)
    requires LibOk(lib) && MetaOk(x) && x.data.None? && Decodes(lib, src, d)
    ensures WellFormedMembers(EncodedMembers(lib, s, x, src, d))
  {
    if src == "" || src[0] != '{' || d.Malformed? {
      MetadataOk(lib, x);
      TextMembersOk(lib, s, x, src);
    } else if |src| > MaxLen(s) {
      OversizedOk(lib, s, x, src);
      MetadataOk(lib, Oversized(lib, s, x, src));
    } else {
      RewriteKeepsMeaning(lib, x.(metrics := ""), d.members);
    }
  }

  lemma TruncatedNewline(lib: Lib, src: string, n: int)
    requires LibOk(lib)
    ensures '\n' !in Text(Scalar(Truncated(lib, src, n)))
  {
    TruncatedOk(lib, src, n);
    StringTokenIsClean(Truncated(lib, src, n));
  }

  lemma TextNewline(lib: Lib, s: Settings, x: Meta, src: string)
    requires LibOk(lib) && MetaOk(x) && x.data.None?
    ensures '\n' !in MembersText(TextMembers(lib, s, x, src))
  {
    MetadataNewline(lib, x);
    if src != "" {
      var max := if s.lowMem then MAX_TEXT_SIZE / LOW_MEM_RATIO else MAX_TEXT_SIZE;
      var text := Scalar(Truncated(lib, src, max));
      TruncatedNewline(lib, src, max);
      PlainNewline(true, "text", text);
      ConcatNewline(Metadata(lib, x), [Plain("text", text)]);
    } else {
      assert TextMembers(lib, s, x, src) == Metadata(lib, x);
    }
  }

  lemma OversizedNewline(lib: Lib, s: Settings, x: Meta, src: string)
    requires LibOk(lib) && MetaOk(x)
    ensures '\n' !in MembersText(Metadata(lib, Oversized(lib, s, x, src)))
  {
    OversizedOk(lib, s, x, src);
    MetadataNewline(lib, Oversized(lib, s, x, src));
    TruncatedNewline(lib, src, TruncDiv(MaxLen(s), 6));
  }

  lemma EncodedNewline(lib: Lib, s: Settings, x: Meta, src: string, d: Decoded)
    requires LibOk(lib) && MetaOk(x) && x.data.None? && (d.Whole? ==> WellFormedMembers(d.members))
    ensures '\n' in MembersText(EncodedMembers(lib, s, x, src, d))
       <==> IsRewritten(s, src, d)
            && var k := Reserved(lib, d.members); k >= 0 && '\n' in Text(d.members[k].value)
  {
    if IsRewritten(s, src, d) {
      RewrittenNewline(lib, x.(metrics := ""), d.members);
    } else if src == "" || src[0] != '{' || d.Malformed? {
      TextNewline(lib, s, x, src);
    } else {
      OversizedNewline(lib, s, x, src);
    }
  }

  lemma EntryFrame(ms: seq<Member>)
    ensures var e := Entry(ms); e[|e| - 1] == '\n' && ('\n' in e[..|e| - 1] <==> '\n' in MembersText(ms))
  {
    assert Entry(ms) == ("{" + MembersText(ms) + "}") + "\n";
  }

  /**
   * Framing: the only newline of an entry is its last byte, except exactly when an object was
   * rewritten whose reserved member has a value spelt with a newline, which is reported verbatim.
   */
  lemma EncodedFraming(lib: Lib, s: Settings, x: Meta, src: string, d: Decoded)
    requires LibOk(lib) && MetaOk(x) && x.data.None? && Decodes(lib, src, d)
    ensures var e := Entry(EncodedMembers(lib, s, x, src, d));
            && e[|e| - 1] == '\n'
            && ('\n' in e[..|e| - 1]
                <==> IsRewritten(s, src, d)
                     && var k := Reserved(lib, d.members); k >= 0 && '\n' in Text(d.members[k].value))
  {
    EncodedNewline(lib, s, x, src, d);
    EntryFrame(EncodedMembers(lib, s, x, src, d));
  }

  /** {"logtail":[]} with a newline between the brackets. */
  function BrokenArray(): seq<Member> {
    [Plain("logtail", Array("\n", []))]
  }

  lemma LogtailAlone(lib: Lib, v: Value)
    requires LibOk(lib) && WellFormed(v) && UniqueNames(lib, Denote(v))
    ensures var ms := [Plain("logtail", v)];
            Decodes(lib, Text(Object("", ms)), Whole("", ms, "")) && Reserved(lib, ms) == 0
  {
    PlainOk("logtail", v);
    SingleField("logtail", v);
    WholeDecodes(lib, [Plain("logtail", v)]);
  }

  lemma BrokenArrayText()
    ensures '\n' in Text(BrokenArray()[0].value) && Text(Object("", BrokenArray()))[0] == '{'
  {
    assert Text(Array("\n", [])) == "[" + "\n" + "]" && ("[" + "\n" + "]")[1] == '\n';
  }

  /** The failing input breaks its entry when there is room for it, and not when it is too large. */
  lemma FramingCanBreak(lib: Lib, s: Settings, x: Meta)
    requires LibOk(lib) && MetaOk(x) && x.data.None?
    ensures var src, d := Text(Object("", BrokenArray())), Whole("", BrokenArray(), "");
            var e := Entry(EncodedMembers(lib, s, x, src, d));
            Decodes(lib, src, d) && ('\n' in e[..|e| - 1] <==> |src| <= MaxLen(s))
  {
    LogtailAlone(lib, Array("\n", []));
    BrokenArrayText();
    EncodedFraming(lib, s, x, Text(Object("", BrokenArray())), Whole("", BrokenArray(), ""));
  }

  /** Metadata alone in an object: the comma after it is trimmed away. */
  method CloseMetadata(dst: string, ghost base: string, ghost meta: seq<Member>) returns (r: string)
    requires Ok(meta) && dst == base + "{" + Terminated(meta)
    ensures r == base + Entry(meta)
  {
    if meta == [] {
      TrimTail(base + "{", "", {','});
      assert dst == (base + "{") + "";
    } else {
      TrimTerminated(base + "{", meta, {','});
    }
    r := TrimRight(dst, {','});
    r := r + "}\n";
    EntryText(base, meta);
  }

  method AppendMetadataOnly(lib: Lib, dst: string, x: Meta) returns (r: string)
    requires LibOk(lib) && MetaOk(x)
    ensures r == dst + Entry(Metadata(lib, x))
  {
    r := AppendMetadata(lib, dst + "{", x);
    MetadataOk(lib, x);
    r := CloseMetadata(r, dst, Metadata(lib, x));
  }

  method AppendText(lib: Lib, s: Settings, dst: string, src: string, x: Meta) returns (r: string)
    requires LibOk(lib) && MetaOk(x)
    ensures r == dst + Entry(TextMembers(lib, s, x, src))
  {
    MetadataOk(lib, x);
    r := AppendMetadata(lib, dst + "{", x);
    if src == "" {
      assert TextMembers(lib, s, x, src) == Metadata(lib, x);
      r := CloseMetadata(r, dst, Metadata(lib, x));
      return;
    }
    var max := MAX_TEXT_SIZE;
    if s.lowMem {
      max := max / LOW_MEM_RATIO;
    }
    var text := Truncated(lib, src, max);
    r := r + ("\"text\":" + text + "}\n");
    TextTail(dst, lib, x, text);
  }

  lemma TextTail(dst: string, lib: Lib, x: Meta, text: string)
    ensures dst + "{" + Terminated(Metadata(lib, x)) + ("\"text\":" + text + "}\n")
         == dst + Entry(Metadata(lib, x) + [Plain("text", Scalar(text))])
  {
    var meta, m := Metadata(lib, x), Plain("text", Scalar(text));
    TerminatedJoin(meta, [m]);
    TextMemberText(text);
    Enclose(dst, "{", Terminated(meta), MembersText([m]), "}\n");
  }

  lemma TextMemberText(text: string)
    ensures MembersText([Plain("text", Scalar(text))]) == "\"text\":" + text
  {
    WrittenIsMember("text", Scalar(text));
    var t := MembersText([Plain("text", Scalar(text))]);
    assert t == (t + ",")[..|t|];
  }

  lemma Enclose(dst: string, open: string, a: string, b: string, close: string)
    ensures dst + open + a + (b + close) == dst + (open + (a + b) + close)
  {
  }

  /** One entry for any write, whose metadata is x. */
  method AppendEncoded(lib: Lib, s: Settings, dst: string, src: string, d: Decoded, x: Meta) returns (r: string)
    requires LibOk(lib) && MetaOk(x) && x.data.None? && Decodes(lib, src, d)
    ensures r == dst + Entry(EncodedMembers(lib, s, x, src, d))
  {
    if src == "" || src[0] != '{' || d.Malformed? {
      r := AppendText(lib, s, dst, src, x);
    } else if |src| > MaxLen(s) {
      OversizedOk(lib, s, x, src);
      r := AppendMetadataOnly(lib, dst, Oversized(lib, s, x, src));
    } else {
      r := AppendObject(lib, dst, src, d, x.(metrics := ""));
    }
  }

  class Encoder {
    const lib: Lib
    const settings: Settings
    const includeProcSequence: bool
    var procSequence: nat

    constructor (lib: Lib, settings: Settings, includeProcSequence: bool)
      ensures this.lib == lib && this.settings == settings && this.includeProcSequence == includeProcSequence
      ensures procSequence == 0
    {
      this.lib, this.settings, this.includeProcSequence := lib, settings, includeProcSequence;
      procSequence := 0;
    }

    function EntryMetadata(clientTime: string, metrics: string, level: int): Meta
      reads this
    {
      Meta(if settings.skipClientTime then None else Some(clientTime), settings.procID, procSequence, "", None, metrics, level)
    }

    method AppendTextOrJSON(dst: string, src: string, level: int, d: Decoded, clientTime: string, metrics: string)
      returns (r: string)
      requires LibOk(lib) && Decodes(lib, src, d) && StringBody(clientTime) && StringBody(metrics)
      modifies this
      ensures procSequence == if includeProcSequence then (old(procSequence) + 1) % Bytes.UINT64 else old(procSequence)
      ensures r == dst + Entry(EncodedMembers(lib, settings, EntryMetadata(clientTime, metrics, level), src, d))
    {
      if includeProcSequence {
        procSequence := (procSequence + 1) % Bytes.UINT64;
      }
      r := AppendEncoded(lib, settings, dst, src, d, EntryMetadata(clientTime, metrics, level));
    }
  }
}
