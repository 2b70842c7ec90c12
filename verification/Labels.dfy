/** The Prometheus label string of a struct key (metrics/multilabelmap.go). */
module Labels {
  import MemBuffer

  datatype Kind = StringKind | IntKind | BoolKind

  datatype Field = Str(s: string) | Num(n: int) | Flag(b: bool)

  type Key = seq<Field>

  function KindOf(f: Field): Kind {
    match f
    case Str(_) => StringKind
    case Num(_) => IntKind
    case Flag(_) => BoolKind
  }

  /** A struct type: the label and the kind of each field. */
  datatype Struct = Struct(names: seq<string>, kinds: seq<Kind>)

  ghost predicate HasType(t: Struct, k: Key) {
    |t.names| == |t.kinds| == |k| && forall i :: 0 <= i < |k| ==> KindOf(k[i]) == t.kinds[i]
  }

  /** What quoting does to one character. */
  type Escape = char -> string

  /** No escape starts with the closing quote, and none is the start of another. */
  ghost predicate Code(escape: Escape) {
    (forall c :: |escape(c)| > 0 && escape(c)[0] != '"')
    && forall c, d :: escape(c) <= escape(d) ==> c == d
  }

  function Escaped(s: string, escape: Escape): string {
    if s == [] then [] else escape(s[0]) + Escaped(s[1..], escape)
  }

  function Integer(n: int): string {
    if n < 0 then "-" + MemBuffer.Decimal(-n) else MemBuffer.Decimal(n)
  }

  /** A field's text between its quotes. */
  function Inner(f: Field, escape: Escape): string {
    match f
    case Str(s) => Escaped(s, escape)
    case Num(n) => Integer(n)
    case Flag(b) => if b then "true" else "false"
  }

  function Members(names: seq<string>, k: Key, escape: Escape, first: bool): string
    requires |names| == |k|
  {
    if k == [] then []
    else
      (if first then [] else ",") + names[0] + "=" + "\"" + Inner(k[0], escape) + "\""
      + Members(names[1..], k[1..], escape, false)
  }

  function LabelString(t: Struct, k: Key, escape: Escape): string
    requires |t.names| == |k|
  {
    "{" + Members(t.names, k, escape, true) + "}"
  }

  // ---- Distinct keys of one type have distinct label strings ----

  lemma SplitAt(p: string, x: string, q: string, y: string)
    requires p + x == q + y && |p| == |q|
    ensures p == q && x == y
  {
    assert p == (p + x)[..|p|] && q == (q + y)[..|q|];
    assert x == (p + x)[|p|..] && y == (q + y)[|q|..];
  }

  lemma Shorter(p: string, x: string, q: string, y: string)
    requires p + x == q + y && |p| <= |q|
    ensures p <= q
  {
    assert p == (p + x)[..|p|];
    assert q[..|p|] == (q + y)[..|p|];
  }

  lemma FirstCharacter(a: string, x: string, escape: Escape)
    requires Code(escape)
    ensures (Escaped(a, escape) + "\"" + x)[0] == '"' <==> a == []
  {
    if a != [] {
      assert Escaped(a, escape)[0] == escape(a[0])[0];
    }
  }

  lemma {:induction false} EscapedInjective(a: string, x: string, b: string, y: string, escape: Escape)
    requires Code(escape) && Escaped(a, escape) + "\"" + x == Escaped(b, escape) + "\"" + y
    ensures a == b && x == y
  {
    var l, r := Escaped(a, escape) + "\"" + x, Escaped(b, escape) + "\"" + y;
    FirstCharacter(a, x, escape);
    FirstCharacter(b, y, escape);
    if a != [] && b != [] {
      var e, f := escape(a[0]), escape(b[0]);
      var tl, tr := Escaped(a[1..], escape) + "\"" + x, Escaped(b[1..], escape) + "\"" + y;
      assert l == e + tl && r == f + tr;
      if |e| <= |f| { Shorter(e, tl, f, tr); } else { Shorter(f, tr, e, tl); }
      assert a[0] == b[0];
      SplitAt(e, tl, f, tr);
      EscapedInjective(a[1..], x, b[1..], y, escape);
      assert a == [a[0]] + a[1..] && b == [b[0]] + b[1..];
    } else {
      assert l == "\"" + x && r == "\"" + y;
      SplitAt("\"", x, "\"", y);
    }
  }

  predicate Unquoted(s: string) {
    forall i :: 0 <= i < |s| ==> s[i] != '"'
  }

  lemma QuoteEnds(p: string, x: string, q: string, y: string)
    requires Unquoted(p) && Unquoted(q) && p + "\"" + x == q + "\"" + y
    ensures p == q && x == y
  {
    var l, r := p + "\"" + x, q + "\"" + y;
    assert l[|p|] == '"' && r[|q|] == '"';
    assert forall i :: 0 <= i < |p| ==> l[i] == p[i];
    assert forall i :: 0 <= i < |q| ==> r[i] == q[i];
    assert l == p + ("\"" + x) && r == q + ("\"" + y);
    SplitAt(p, "\"" + x, q, "\"" + y);
    SplitAt("\"", x, "\"", y);
  }

  lemma {:induction false} DecimalDigits(n: nat)
    ensures |MemBuffer.Decimal(n)| > 0
    ensures forall i :: 0 <= i < |MemBuffer.Decimal(n)| ==> '0' <= MemBuffer.Decimal(n)[i] <= '9'
  {
    if n >= 10 {
      DecimalDigits(n / 10);
    }
  }

  lemma IntegerInjective(m: int, n: int)
    requires Integer(m) == Integer(n)
    ensures m == n
  {
    DecimalDigits(if m < 0 then -m else m);
    DecimalDigits(if n < 0 then -n else n);
    assert m < 0 <==> Integer(m)[0] == '-';
    assert n < 0 <==> Integer(n)[0] == '-';
    if m < 0 {
      assert Integer(m)[1..] == MemBuffer.Decimal(-m) && Integer(n)[1..] == MemBuffer.Decimal(-n);
      MemBuffer.DecimalInjective(-m, -n);
    } else {
      MemBuffer.DecimalInjective(m, n);
    }
  }

  lemma IntegerUnquoted(n: int)
    ensures Unquoted(Integer(n))
  {
    DecimalDigits(if n < 0 then -n else n);
  }

  lemma InnerInjective(f: Field, x: string, g: Field, y: string, escape: Escape)
    requires Code(escape) && KindOf(f) == KindOf(g)
    requires Inner(f, escape) + "\"" + x == Inner(g, escape) + "\"" + y
    ensures f == g && x == y
  {
    match f
    case Str(s) => EscapedInjective(s, x, g.s, y, escape);
    case Num(n) =>
      IntegerUnquoted(n);
      IntegerUnquoted(g.n);
      QuoteEnds(Integer(n), x, Integer(g.n), y);
      IntegerInjective(n, g.n);
    case Flag(b) =>
      QuoteEnds(Inner(f, escape), x, Inner(g, escape), y);
      assert Inner(f, escape)[0] == Inner(g, escape)[0];
  }

  function Head(name: string, first: bool): string {
    (if first then [] else ",") + name + "=" + "\""
  }

  lemma Unfold(names: seq<string>, k: Key, escape: Escape, first: bool, x: string)
    requires |names| == |k| > 0
    ensures Members(names, k, escape, first) + x
            == Head(names[0], first) + (Inner(k[0], escape) + "\"" + (Members(names[1..], k[1..], escape, false) + x))
  {
    var h, i, t := Head(names[0], first), Inner(k[0], escape), Members(names[1..], k[1..], escape, false);
    assert Members(names, k, escape, first) == h + i + "\"" + t;
    Reassociate(h, i, "\"", t, x);
  }

  lemma Reassociate(h: string, i: string, q: string, t: string, x: string)
    ensures h + i + q + t + x == h + (i + q + (t + x))
  {
  }

  lemma {:induction false} MembersInjective(names: seq<string>, kinds: seq<Kind>, k: Key, x: string, l: Key, y: string,
                                            escape: Escape, first: bool)
    requires Code(escape) && HasType(Struct(names, kinds), k) && HasType(Struct(names, kinds), l)
    requires Members(names, k, escape, first) + x == Members(names, l, escape, first) + y
    ensures k == l
  {
    if k != [] {
      Unfold(names, k, escape, first, x);
      Unfold(names, l, escape, first, y);
      var x', y' := Members(names[1..], k[1..], escape, false) + x, Members(names[1..], l[1..], escape, false) + y;
      SplitAt(Head(names[0], first), Inner(k[0], escape) + "\"" + x', Head(names[0], first), Inner(l[0], escape) + "\"" + y');
      InnerInjective(k[0], x', l[0], y', escape);
      MembersInjective(names[1..], kinds[1..], k[1..], x, l[1..], y, escape, false);
      assert k == [k[0]] + k[1..] && l == [l[0]] + l[1..];
    }
  }

  /** Two keys of one struct type have the same label string exactly when they are the same key. */
  lemma LabelsIdentify(t: Struct, k: Key, l: Key, escape: Escape)
    requires Code(escape) && HasType(t, k) && HasType(t, l)
    ensures LabelString(t, k, escape) == LabelString(t, l, escape) <==> k == l
  {
    var a, b := Members(t.names, k, escape, true), Members(t.names, l, escape, true);
    if LabelString(t, k, escape) == LabelString(t, l, escape) {
      assert "{" + a + "}" == "{" + (a + "}") && "{" + b + "}" == "{" + (b + "}");
      SplitAt("{", a + "}", "{", b + "}");
      MembersInjective(t.names, t.kinds, k, "}", l, "}", escape, true);
    }
  }
}
