/** JSON text is unambiguous: however a text is read as a value, the value means the same. */
module Unambiguous {
  import opened Tokens
  import Seqs
  import opened Json

  /** What may follow a value or a name. */
  const DELIMITERS: set<char> := {' ', '\n', '\r', '\t', ',', ':', ']', '}'}

  predicate Stops(s: string) {
    s == "" || s[0] in DELIMITERS
  }

  /** Text that starts with something other than whitespace. */
  predicate Starts(s: string) {
    s != "" && s[0] !in WHITESPACE
  }

  /** A run of characters of one kind, followed by nothing or by another kind, ends where it ends. */
  lemma {:induction false} SplitPoint(a: string, s: string, b: string, t: string, kind: char -> bool)
    requires forall i :: 0 <= i < |a| ==> kind(a[i])
    requires forall i :: 0 <= i < |b| ==> kind(b[i])
    requires (s == "" || !kind(s[0])) && (t == "" || !kind(t[0])) && a + s == b + t
    ensures a == b && s == t
  {
    if a == "" || b == "" {
      assert "" + s == s && "" + t == t;
    } else {
      assert (a + s)[1..] == a[1..] + s && (b + t)[1..] == b[1..] + t;
      SplitPoint(a[1..], s, b[1..], t, kind);
      assert a == [(a + s)[0]] + a[1..] && b == [(b + t)[0]] + b[1..];
    }
  }

  lemma SkipSpace(a: string, s: string, b: string, t: string)
    requires AllIn(a, WHITESPACE) && AllIn(b, WHITESPACE) && Starts(s) && Starts(t) && a + s == b + t
    ensures a == b && s == t
  {
    SplitPoint(a, s, b, t, c => c in WHITESPACE);
  }

  // ---- Tokens ----

  lemma BodyStart(s: string, x: string)
    requires StringBody(s) && x != "" && x[0] == '"'
    ensures s == "" <==> (s + x)[0] == '"'
  {
  }

  /** Text between quotes ends at the first bare quote. */
  lemma {:induction false} BodyPrefix(s: string, t: string, x: string, y: string)
    requires StringBody(s) && StringBody(t) && x != "" && y != "" && x[0] == y[0] == '"' && s + x == t + y
    ensures s == t && x == y
  {
    BodyStart(s, x);
    BodyStart(t, y);
    if s == "" {
      assert "" + x == x && "" + y == y;
    } else {
      UnitConcat(s, x);
      UnitConcat(t, y);
      var n := UnitLength(s);
      DropCommon(s, t, x, y, n);
      BodyPrefix(s[n..], t[n..], x, y);
    }
  }

  lemma DropCommon(s: string, t: string, x: string, y: string, n: nat)
    requires n <= |s| && n <= |t| && s + x == t + y
    ensures s[n..] + x == t[n..] + y && s[..n] == t[..n] && s == s[..n] + s[n..] && t == t[..n] + t[n..]
  {
    assert (s + x)[n..] == s[n..] + x && (t + y)[n..] == t[n..] + y;
    assert (s + x)[..n] == s[..n] && (t + y)[..n] == t[..n];
  }

  lemma StringPrefix(s: string, t: string, a: string, b: string)
    requires StringToken(s) && StringToken(t) && s + a == t + b
    ensures s == t && a == b
  {
    var x, y := s[1..|s| - 1], t[1..|t| - 1];
    assert s == "\"" + x + "\"" && t == "\"" + y + "\"";
    assert (s + a)[1..] == x + ("\"" + a) && (t + b)[1..] == y + ("\"" + b);
    BodyPrefix(x, y, "\"" + a, "\"" + b);
    FirstThenRest("\"", a);
    FirstThenRest("\"", b);
  }

  /** Numbers and literals are spelt without delimiters. */
  predicate Unbroken(s: string) {
    s != "" && s[0] !in {'"', '[', '{'} && forall i :: 0 <= i < |s| ==> s[i] !in DELIMITERS
  }

  lemma NumberIsUnbroken(s: string)
    requires NumberToken(s)
    ensures Unbroken(s)
  {
    var sign, i, f, e :| sign in {"", "-"} && IntegerPart(i) && FractionPart(f) && ExponentPart(e) && s == sign + i + f + e;
    PartIsUnbroken(sign, 0);
    PartIsUnbroken(i, 0);
    PartIsUnbroken(f, if f == "" then 0 else 1);
    PartIsUnbroken(e, if e == "" then 0 else if Digits(e[1..]) then 1 else 2);
    assert s[0] == (sign + i)[0];
  }

  /** A part of a number: digits after at most two characters that are no delimiters either. */
  lemma PartIsUnbroken(s: string, n: nat)
    requires n <= |s| && forall i :: n <= i < |s| ==> IsDigit(s[i]) || s[i] == '-'
    requires forall i :: 0 <= i < n ==> s[i] in {'.', 'e', 'E', '+', '-'}
    ensures forall i :: 0 <= i < |s| ==> s[i] !in DELIMITERS
  {
  }

  lemma UnbrokenPrefix(s: string, t: string, a: string, b: string)
    requires Unbroken(s) && Unbroken(t) && Stops(a) && Stops(b) && s + a == t + b
    ensures s == t && a == b
  {
    SplitPoint(s, a, t, b, c => c !in DELIMITERS);
  }

  lemma TokenKinds(s: string)
    requires Token(s)
    ensures s != "" && (if s[0] == '"' then StringToken(s) else Unbroken(s))
  {
    if NumberToken(s) {
      NumberIsUnbroken(s);
    }
  }

  lemma TokenPrefix(s: string, t: string, a: string, b: string)
    requires Token(s) && Token(t) && Stops(a) && Stops(b) && s + a == t + b
    ensures s == t && a == b
  {
    TokenKinds(s);
    TokenKinds(t);
    assert s[0] == (s + a)[0] == (t + b)[0] == t[0];
    if s[0] == '"' {
      StringPrefix(s, t, a, b);
    } else {
      UnbrokenPrefix(s, t, a, b);
    }
  }

  // ---- Values ----

  lemma ValueStarts(v: Value, a: string)
    requires WellFormed(v)
    ensures Starts(Text(v) + a) && (Text(v) + a)[0] !in DELIMITERS
    ensures (v.Array? <==> (Text(v) + a)[0] == '[') && (v.Object? <==> (Text(v) + a)[0] == '{')
  {
    ValueSolid(v);
    assert (Text(v) + a)[0] == Text(v)[0];
    if v.Scalar? {
      TokenKinds(v.token);
    }
  }

  /** From the end of the first item to the end of the array, and on. */
  function ItemsTail(items: seq<Item>, a: string): string
    requires items != []
  {
    if |items| == 1 then "]" + a else "," + (ItemsText(items[1..]) + "]" + a)
  }

  lemma ItemsSplit(items: seq<Item>, a: string)
    requires items != []
    ensures ItemsText(items) + "]" + a
         == items[0].before + (Text(items[0].value) + (items[0].after + ItemsTail(items, a)))
  {
    var first, v, after := items[0].before, Text(items[0].value), items[0].after;
    if |items| == 1 {
      Four(first + v, after, "]", a);
    } else {
      Listed(first + v, after, ",", ItemsText(items[1..]), "]", a);
    }
    Seqs.Assoc(first, v, after + ItemsTail(items, a));
  }

  lemma Four(a: string, b: string, c: string, d: string)
    ensures a + b + c + d == a + (b + (c + d))
  {
  }

  lemma Listed(a: string, b: string, c: string, d: string, e: string, f: string)
    ensures a + b + c + d + e + f == a + (b + (c + (d + e + f)))
  {
  }

  /** From the end of the first member to the end of the object, and on. */
  function MembersTail(ms: seq<Member>, a: string): string
    requires ms != []
  {
    if |ms| == 1 then "}" + a else "," + (MembersText(ms[1..]) + "}" + a)
  }

  function AfterName(m: Member, a: string): string {
    m.preColon + (":" + (m.postColon + (Text(m.value) + (m.after + a))))
  }

  lemma MembersSplit(ms: seq<Member>, a: string)
    requires ms != []
    ensures MembersText(ms) + "}" + a == ms[0].before + (ms[0].name + AfterName(ms[0], MembersTail(ms, a)))
  {
    CoreSplit(ms[0], ms[0].after + MembersTail(ms, a));
    if |ms| == 1 {
      Four(Core(ms[0]), ms[0].after, "}", a);
    } else {
      Listed(Core(ms[0]), ms[0].after, ",", MembersText(ms[1..]), "}", a);
    }
  }

  lemma CoreSplit(m: Member, a: string)
    ensures Core(m) + a == m.before + (m.name + (m.preColon + (":" + (m.postColon + (Text(m.value) + a)))))
  {
    Six(m.before, m.name, m.preColon, ":", m.postColon, Text(m.value), a);
  }

  lemma Six(a: string, b: string, c: string, d: string, e: string, f: string, g: string)
    ensures a + b + c + d + e + f + g == a + (b + (c + (d + (e + (f + g)))))
  {
  }

  lemma SpaceStops(space: string, s: string)
    requires AllIn(space, WHITESPACE) && s != "" && s[0] in DELIMITERS
    ensures Stops(space + s)
  {
    assert (space + s)[0] == if space == "" then s[0] else space[0];
  }

  /** Where the first item starts, or where the array ends. */
  function ItemsRest(items: seq<Item>, a: string): string {
    if items == [] then "]" + a else Text(items[0].value) + (items[0].after + ItemsTail(items, a))
  }

  lemma ItemsTailShape(items: seq<Item>, a: string)
    requires items != []
    ensures var tail := ItemsTail(items, a);
            && Starts(tail) && tail[0] in DELIMITERS && (|items| == 1 <==> tail[0] == ']')
            && tail[1..] == if |items| == 1 then a else ItemsText(items[1..]) + "]" + a
  {
    if |items| == 1 {
      FirstThenRest("]", a);
    } else {
      FirstThenRest(",", ItemsText(items[1..]) + "]" + a);
    }
  }

  lemma FirstThenRest(c: string, s: string)
    requires |c| == 1
    ensures (c + s)[0] == c[0] && (c + s)[1..] == s
  {
  }

  lemma ItemsRestShape(gap: string, items: seq<Item>, a: string)
    requires AllIn(gap, WHITESPACE) && WellFormedItems(items)
    ensures var lead := if items == [] then gap else items[0].before;
            && AllIn(lead, WHITESPACE) && Starts(ItemsRest(items, a))
            && Text(Array(gap, items)) + a == "[" + (lead + ItemsRest(items, a))
            && (items == [] <==> ItemsRest(items, a)[0] == ']')
  {
    if items == [] {
      Four("[", gap, "]", a);
    } else {
      Four("[", ItemsText(items), "]", a);
      Seqs.Assoc(ItemsText(items), "]", a);
      ItemsSplit(items, a);
      ValueStarts(items[0].value, items[0].after + ItemsTail(items, a));
    }
  }

  lemma DropFirst(c: string, s: string, t: string)
    requires |c| == 1 && c + s == c + t
    ensures s == t
  {
    FirstThenRest(c, s);
    FirstThenRest(c, t);
  }

  // Whichever way a text is read, its first value, item or member ends at the same place.

  lemma {:induction false} ValuePrefix(v: Value, w: Value, a: string, b: string)
    requires WellFormed(v) && WellFormed(w) && Stops(a) && Stops(b) && Text(v) + a == Text(w) + b
    ensures Denote(v) == Denote(w) && a == b
    decreases v, 2
  {
    ValueStarts(v, a);
    ValueStarts(w, b);
    match v
    case Scalar(token) => TokenPrefix(token, w.token, a, b);
    case Array(gap, items) => ArrayPrefix(gap, items, w.gap, w.items, a, b);
    case Object(gap, members) => ObjectPrefix(gap, members, w.gap, w.members, a, b);
  }

  lemma {:induction false} ArrayPrefix(gap: string, items: seq<Item>, space: string, others: seq<Item>, a: string, b: string)
    requires AllIn(gap, WHITESPACE) && WellFormedItems(items) && AllIn(space, WHITESPACE) && WellFormedItems(others)
    requires Text(Array(gap, items)) + a == Text(Array(space, others)) + b
    ensures DenoteItems(items) == DenoteItems(others) && a == b
    decreases items, 1
  {
    var lead := if items == [] then gap else items[0].before;
    var mark := if others == [] then space else others[0].before;
    ItemsRestShape(gap, items, a);
    ItemsRestShape(space, others, b);
    DropFirst("[", lead + ItemsRest(items, a), mark + ItemsRest(others, b));
    SkipSpace(lead, ItemsRest(items, a), mark, ItemsRest(others, b));
    if items == [] {
      DropFirst("]", a, b);
    } else {
      ItemsPrefix(items, others, a, b);
    }
  }

  lemma {:induction false} ItemsPrefix(items: seq<Item>, others: seq<Item>, a: string, b: string)
    requires WellFormedItems(items) && WellFormedItems(others) && items != [] && others != []
    requires ItemsRest(items, a) == ItemsRest(others, b)
    ensures DenoteItems(items) == DenoteItems(others) && a == b
    decreases items, 0
  {
    var m, n, s, t := items[0], others[0], ItemsTail(items, a), ItemsTail(others, b);
    ItemsTailShape(items, a);
    ItemsTailShape(others, b);
    SpaceStops(m.after, s);
    SpaceStops(n.after, t);
    ValuePrefix(m.value, n.value, m.after + s, n.after + t);
    SkipSpace(m.after, s, n.after, t);
    if |items| > 1 {
      ItemsSplit(items[1..], a);
      ItemsSplit(others[1..], b);
      ValueStarts(items[1].value, items[1].after + ItemsTail(items[1..], a));
      ValueStarts(others[1].value, others[1].after + ItemsTail(others[1..], b));
      SkipSpace(items[1].before, ItemsRest(items[1..], a), others[1].before, ItemsRest(others[1..], b));
      ItemsPrefix(items[1..], others[1..], a, b);
    }
  }

  /** Where the first name starts, or where the object ends. */
  function MembersRest(ms: seq<Member>, a: string): string {
    if ms == [] then "}" + a else ms[0].name + AfterName(ms[0], MembersTail(ms, a))
  }

  lemma MembersTailShape(ms: seq<Member>, a: string)
    requires ms != []
    ensures var tail := MembersTail(ms, a);
            && Starts(tail) && tail[0] in DELIMITERS && (|ms| == 1 <==> tail[0] == '}')
            && tail[1..] == if |ms| == 1 then a else MembersText(ms[1..]) + "}" + a
  {
    if |ms| == 1 {
      FirstThenRest("}", a);
    } else {
      FirstThenRest(",", MembersText(ms[1..]) + "}" + a);
    }
  }

  lemma NameStarts(ms: seq<Member>, a: string)
    requires WellFormedMembers(ms) && ms != []
    ensures AllIn(ms[0].before, WHITESPACE) && Starts(MembersRest(ms, a)) && MembersRest(ms, a)[0] == '"'
  {
  }

  lemma MembersRestShape(gap: string, ms: seq<Member>, a: string)
    requires AllIn(gap, WHITESPACE) && WellFormedMembers(ms)
    ensures var lead := if ms == [] then gap else ms[0].before;
            && AllIn(lead, WHITESPACE) && Starts(MembersRest(ms, a))
            && Text(Object(gap, ms)) + a == "{" + (lead + MembersRest(ms, a))
            && (ms == [] <==> MembersRest(ms, a)[0] == '}')
  {
    if ms == [] {
      Four("{", gap, "}", a);
    } else {
      Four("{", MembersText(ms), "}", a);
      Seqs.Assoc(MembersText(ms), "}", a);
      MembersSplit(ms, a);
      NameStarts(ms, a);
    }
  }

  lemma {:induction false} ObjectPrefix(gap: string, ms: seq<Member>, space: string, others: seq<Member>, a: string, b: string)
    requires AllIn(gap, WHITESPACE) && WellFormedMembers(ms) && AllIn(space, WHITESPACE) && WellFormedMembers(others)
    requires Text(Object(gap, ms)) + a == Text(Object(space, others)) + b
    ensures DenoteMembers(ms) == DenoteMembers(others) && a == b
    decreases ms, 1
  {
    var lead := if ms == [] then gap else ms[0].before;
    var mark := if others == [] then space else others[0].before;
    MembersRestShape(gap, ms, a);
    MembersRestShape(space, others, b);
    DropFirst("{", lead + MembersRest(ms, a), mark + MembersRest(others, b));
    SkipSpace(lead, MembersRest(ms, a), mark, MembersRest(others, b));
    if ms == [] {
      DropFirst("}", a, b);
    } else {
      MembersPrefix(ms, others, a, b);
    }
  }

  lemma {:induction false} MembersPrefix(ms: seq<Member>, others: seq<Member>, a: string, b: string)
    requires WellFormedMembers(ms) && WellFormedMembers(others) && ms != [] && others != []
    requires MembersRest(ms, a) == MembersRest(others, b)
    ensures DenoteMembers(ms) == DenoteMembers(others) && a == b
    decreases ms, 0
  {
    var m, n, s, t := ms[0], others[0], MembersTail(ms, a), MembersTail(others, b);
    MembersTailShape(ms, a);
    MembersTailShape(others, b);
    StringPrefix(m.name, n.name, AfterName(m, s), AfterName(n, t));
    AfterNamePrefix(m, n, s, t);
    if |ms| > 1 {
      MembersSplit(ms[1..], a);
      MembersSplit(others[1..], b);
      NameStarts(ms[1..], a);
      NameStarts(others[1..], b);
      SkipSpace(ms[1..][0].before, MembersRest(ms[1..], a), others[1..][0].before, MembersRest(others[1..], b));
      MembersPrefix(ms[1..], others[1..], a, b);
    }
  }

  lemma {:induction false} AfterNamePrefix(m: Member, n: Member, a: string, b: string)
    requires WellFormedMember(m) && WellFormedMember(n) && AfterName(m, a) == AfterName(n, b)
    requires Starts(a) && a[0] in DELIMITERS && Starts(b) && b[0] in DELIMITERS
    ensures Denote(m.value) == Denote(n.value) && a == b
    decreases m, 0
  {
    var s, t := m.after + a, n.after + b;
    var x, y := Text(m.value) + s, Text(n.value) + t;
    SkipSpace(m.preColon, ":" + (m.postColon + x), n.preColon, ":" + (n.postColon + y));
    DropFirst(":", m.postColon + x, n.postColon + y);
    ValueStarts(m.value, s);
    ValueStarts(n.value, t);
    SkipSpace(m.postColon, x, n.postColon, y);
    SpaceStops(m.after, a);
    SpaceStops(n.after, b);
    ValuePrefix(m.value, n.value, s, t);
    SkipSpace(m.after, a, n.after, b);
  }

  /** A text is that of a value with whitespace around it. */
  ghost predicate Spells(lead: string, v: Value, trail: string, s: string) {
    AllIn(lead, WHITESPACE) && WellFormed(v) && AllIn(trail, WHITESPACE) && s == lead + Text(v) + trail
  }

  /** The text alone determines what it means, so every right parser finds the same. */
  lemma TextDeterminesMeaning(lead: string, v: Value, trail: string, space: string, w: Value, rest: string, s: string)
    requires Spells(lead, v, trail, s) && Spells(space, w, rest, s)
    ensures Denote(v) == Denote(w)
  {
    Seqs.Assoc(lead, Text(v), trail);
    Seqs.Assoc(space, Text(w), rest);
    ValueStarts(v, trail);
    ValueStarts(w, rest);
    SkipSpace(lead, Text(v) + trail, space, Text(w) + rest);
    ValuePrefix(v, w, trail, rest);
  }
}
