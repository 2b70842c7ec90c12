/**
 * JSON values (sections 2 and 4 of RFC 8259): a value is a tree that remembers its whitespace, Text
 * prints it back and Denote forgets the whitespace.
 */
module Json {
  import MemBuffer
  import opened Tokens
  import Seqs

  datatype Value =
    | Scalar(token: string)
    | Array(gap: string, items: seq<Item>)
    | Object(gap: string, members: seq<Member>)

  datatype Item = Item(before: string, value: Value, after: string)

  datatype Member = Member(before: string, name: string, preColon: string, postColon: string,
                           value: Value, after: string)

  const WHITESPACE: set<char> := {' ', '\n', '\r', '\t'}
  const TRIMMED: set<char> := {',', ':', ' ', '\n', '\r', '\t'}

  // ---- Printing ----

  function Text(v: Value): string
    decreases v
  {
    match v
    case Scalar(token) => token
    case Array(gap, items) => "[" + (if items == [] then gap else ItemsText(items)) + "]"
    case Object(gap, members) => "{" + (if members == [] then gap else MembersText(members)) + "}"
  }

  function ItemsText(items: seq<Item>): string
    decreases items
  {
    if items == [] then ""
    else
      var first := items[0].before + Text(items[0].value) + items[0].after;
      if |items| == 1 then first else first + "," + ItemsText(items[1..])
  }

  /** A member up to the end of its value, which is where a decoder stops after reading it. */
  function Core(m: Member): string
    decreases m
  {
    m.before + m.name + m.preColon + ":" + m.postColon + Text(m.value)
  }

  function MembersText(ms: seq<Member>): string
    decreases ms
  {
    if ms == [] then ""
    else if |ms| == 1 then Core(ms[0]) + ms[0].after
    else Core(ms[0]) + ms[0].after + "," + MembersText(ms[1..])
  }

  // ---- Well-formedness ----

  predicate AllIn(s: string, cut: set<char>) {
    forall i :: 0 <= i < |s| ==> s[i] in cut
  }

  /** A text that trimming separators and whitespace leaves alone. */
  predicate Solid(s: string) {
    s != "" && s[0] !in TRIMMED && s[|s| - 1] !in TRIMMED
  }

  /** A lexeme; that it is solid and has no newline follows, and is said for those who need just that. */
  ghost predicate Token(s: string) {
    Solid(s) && '\n' !in s && Lexeme(s)
  }

  ghost predicate WellFormed(v: Value)
    decreases v
  {
    match v
    case Scalar(token) => Token(token)
    case Array(gap, items) => AllIn(gap, WHITESPACE) && WellFormedItems(items)
    case Object(gap, members) => AllIn(gap, WHITESPACE) && WellFormedMembers(members)
  }

  ghost predicate WellFormedItems(items: seq<Item>)
    decreases items
  {
    items == [] ||
    (AllIn(items[0].before, WHITESPACE) && WellFormed(items[0].value) && AllIn(items[0].after, WHITESPACE)
     && WellFormedItems(items[1..]))
  }

  ghost predicate WellFormedMember(m: Member)
    decreases m
  {
    && AllIn(m.before, WHITESPACE) && Token(m.name) && StringToken(m.name) && AllIn(m.preColon, WHITESPACE)
    && AllIn(m.postColon, WHITESPACE) && WellFormed(m.value) && AllIn(m.after, WHITESPACE)
  }

  ghost predicate WellFormedMembers(ms: seq<Member>)
    decreases ms
  {
    ms == [] || (WellFormedMember(ms[0]) && WellFormedMembers(ms[1..]))
  }

  lemma StringTokenIsToken(s: string)
    requires StringToken(s)
    ensures Token(s)
  {
    StringTokenIsClean(s);
  }

  lemma NumberIsToken(n: nat)
    ensures Token(MemBuffer.Decimal(n))
  {
    DecimalIsInteger(n);
    IntegerIsNumber(MemBuffer.Decimal(n));
  }

  // ---- Meaning ----

  datatype Meaning = Atom(token: string) | List(elements: seq<Meaning>) | Fields(fields: seq<Field>)
  datatype Field = Field(name: string, meaning: Meaning)

  function Denote(v: Value): Meaning
    decreases v
  {
    match v
    case Scalar(token) => Atom(token)
    case Array(_, items) => List(DenoteItems(items))
    case Object(_, members) => Fields(DenoteMembers(members))
  }

  function DenoteItems(items: seq<Item>): seq<Meaning>
    decreases items
  {
    if items == [] then [] else [Denote(items[0].value)] + DenoteItems(items[1..])
  }

  function DenoteMembers(ms: seq<Member>): seq<Field>
    decreases ms
  {
    if ms == [] then [] else [Field(ms[0].name, Denote(ms[0].value))] + DenoteMembers(ms[1..])
  }

  // ---- Removing newlines: on text, and on the tree ----

  function Strip(s: string): string {
    if s == "" then "" else (if s[0] == '\n' then "" else [s[0]]) + Strip(s[1..])
  }

  function StripValue(v: Value): Value
    decreases v
  {
    match v
    case Scalar(token) => v
    case Array(gap, items) => Array(Strip(gap), StripItems(items))
    case Object(gap, members) => Object(Strip(gap), StripMembers(members))
  }

  function StripItems(items: seq<Item>): (r: seq<Item>)
    ensures |r| == |items|
    decreases items
  {
    if items == [] then []
    else [Item(Strip(items[0].before), StripValue(items[0].value), Strip(items[0].after))] + StripItems(items[1..])
  }

  function StripMember(m: Member): Member
    decreases m
  {
    Member(Strip(m.before), m.name, Strip(m.preColon), Strip(m.postColon), StripValue(m.value), Strip(m.after))
  }

  function StripMembers(ms: seq<Member>): (r: seq<Member>)
    ensures |r| == |ms|
    decreases ms
  {
    if ms == [] then [] else [StripMember(ms[0])] + StripMembers(ms[1..])
  }

  lemma {:induction false} StripConcat(a: string, b: string)
    ensures Strip(a + b) == Strip(a) + Strip(b)
  {
    if a == "" {
      assert a + b == b;
    } else {
      assert (a + b)[1..] == a[1..] + b;
      StripConcat(a[1..], b);
    }
  }

  lemma {:induction false} StripClean(s: string)
    ensures '\n' !in Strip(s)
    ensures '\n' !in s ==> Strip(s) == s
    ensures forall c | c in Strip(s) :: c in s
  {
    if s != "" {
      StripClean(s[1..]);
      assert s == [s[0]] + s[1..];
    }
  }

  lemma StripSpaces(s: string)
    requires AllIn(s, WHITESPACE)
    ensures AllIn(Strip(s), WHITESPACE)
  {
    StripClean(s);
    forall i | 0 <= i < |Strip(s)|
      ensures Strip(s)[i] in WHITESPACE
    {
      assert Strip(s)[i] in Strip(s);
    }
  }

  lemma {:induction false} StripText(v: Value)
    requires WellFormed(v)
    ensures Strip(Text(v)) == Text(StripValue(v))
    decreases v
  {
    match v
    case Scalar(token) => StripClean(token);
    case Array(gap, items) =>
      var body := if items == [] then gap else ItemsText(items);
      StripConcat("[" + body, "]");
      StripConcat("[", body);
      assert Strip("[") == "[" && Strip("]") == "]";
      if items != [] {
        StripItemsText(items);
      }
    case Object(gap, members) =>
      var body := if members == [] then gap else MembersText(members);
      StripConcat("{" + body, "}");
      StripConcat("{", body);
      assert Strip("{") == "{" && Strip("}") == "}";
      if members != [] {
        StripMembersText(members);
      }
  }

  lemma {:induction false} StripItemsText(items: seq<Item>)
    requires WellFormedItems(items)
    ensures Strip(ItemsText(items)) == ItemsText(StripItems(items))
    decreases items
  {
    if items != [] {
      var i := items[0];
      StripText(i.value);
      var first := i.before + Text(i.value) + i.after;
      StripConcat(i.before + Text(i.value), i.after);
      StripConcat(i.before, Text(i.value));
      var stripped := StripItems(items);
      assert stripped[1..] == StripItems(items[1..]);
      if |items| > 1 {
        StripConcat(first + ",", ItemsText(items[1..]));
        StripConcat(first, ",");
        assert Strip(",") == ",";
        StripItemsText(items[1..]);
      }
    }
  }

  lemma {:induction false} StripCore(m: Member)
    requires WellFormedMember(m)
    ensures Strip(Core(m)) == Core(StripMember(m))
    decreases m
  {
    StripText(m.value);
    StripClean(m.name);
    var a := m.before + m.name;
    var b := a + m.preColon;
    var c := b + ":";
    var d := c + m.postColon;
    StripConcat(d, Text(m.value));
    StripConcat(c, m.postColon);
    StripConcat(b, ":");
    StripConcat(a, m.preColon);
    StripConcat(m.before, m.name);
    assert Strip(":") == ":";
  }

  lemma {:induction false} StripMembersText(ms: seq<Member>)
    requires WellFormedMembers(ms)
    ensures Strip(MembersText(ms)) == MembersText(StripMembers(ms))
    decreases ms
  {
    if ms != [] {
      var m := ms[0];
      StripCore(m);
      StripConcat(Core(m), m.after);
      assert StripMembers(ms)[1..] == StripMembers(ms[1..]);
      if |ms| > 1 {
        StripConcat(Core(m) + m.after + ",", MembersText(ms[1..]));
        StripConcat(Core(m) + m.after, ",");
        assert Strip(",") == ",";
        StripMembersText(ms[1..]);
      }
    }
  }

  /** Dropping newlines changes no meaning: JSON text has newlines only where whitespace is allowed. */
  lemma {:induction false} StripKeepsMeaning(v: Value)
    requires WellFormed(v)
    ensures Denote(StripValue(v)) == Denote(v) && WellFormed(StripValue(v))
    decreases v
  {
    match v
    case Scalar(_) =>
    case Array(gap, items) => StripSpaces(gap); StripItemsKeep(items);
    case Object(gap, members) => StripSpaces(gap); StripMembersKeep(members);
  }

  lemma {:induction false} StripItemsKeep(items: seq<Item>)
    requires WellFormedItems(items)
    ensures DenoteItems(StripItems(items)) == DenoteItems(items) && WellFormedItems(StripItems(items))
    decreases items
  {
    if items != [] {
      StripKeepsMeaning(items[0].value);
      StripSpaces(items[0].before);
      StripSpaces(items[0].after);
      StripItemsKeep(items[1..]);
      assert StripItems(items)[1..] == StripItems(items[1..]);
    }
  }

  lemma {:induction false} StripMembersKeep(ms: seq<Member>)
    requires WellFormedMembers(ms)
    ensures DenoteMembers(StripMembers(ms)) == DenoteMembers(ms) && WellFormedMembers(StripMembers(ms))
    decreases ms
  {
    if ms != [] {
      var m := ms[0];
      StripKeepsMeaning(m.value);
      StripSpaces(m.before);
      StripSpaces(m.preColon);
      StripSpaces(m.postColon);
      StripSpaces(m.after);
      StripMembersKeep(ms[1..]);
      assert StripMembers(ms)[1..] == StripMembers(ms[1..]);
    }
  }

  // ---- Trimming ----

  function TrimRight(s: string, cut: set<char>): string {
    if s != "" && s[|s| - 1] in cut then TrimRight(s[..|s| - 1], cut) else s
  }

  function TrimLeft(s: string, cut: set<char>): string {
    if s != "" && s[0] in cut then TrimLeft(s[1..], cut) else s
  }

  lemma {:induction false} TrimTail(x: string, w: string, cut: set<char>)
    requires AllIn(w, cut)
    requires x == "" || x[|x| - 1] !in cut
    ensures TrimRight(x + w, cut) == x
  {
    if w == "" {
      assert x + w == x;
    } else {
      assert (x + w)[..|x + w| - 1] == x + w[..|w| - 1];
      TrimTail(x, w[..|w| - 1], cut);
    }
  }

  lemma {:induction false} TrimHead(w: string, x: string, cut: set<char>)
    requires AllIn(w, cut)
    requires x == "" || x[0] !in cut
    ensures TrimLeft(w + x, cut) == x
  {
    if w == "" {
      assert w + x == x;
    } else {
      assert (w + x)[1..] == w[1..] + x;
      TrimHead(w[1..], x, cut);
    }
  }

  // ---- Shape of printed text ----

  lemma ValueSolid(v: Value)
    requires WellFormed(v)
    ensures Solid(Text(v))
  {
  }

  lemma CoreSolidEnd(m: Member)
    requires WellFormedMember(m)
    ensures Core(m) != "" && Core(m)[|Core(m)| - 1] !in TRIMMED
  {
    ValueSolid(m.value);
  }

  /** The members with the whitespace after the last one replaced. */
  function Retail(ms: seq<Member>, after: string): (r: seq<Member>)
    requires ms != []
    ensures |r| == |ms|
  {
    ms[..|ms| - 1] + [ms[|ms| - 1].(after := after)]
  }

  lemma {:induction false} MembersTextSplit(a: seq<Member>, b: seq<Member>)
    requires a != [] && b != []
    ensures MembersText(a + b) == MembersText(a) + "," + MembersText(b)
    decreases a
  {
    assert (a + b)[0] == a[0] && (a + b)[1..] == a[1..] + b;
    if |a| == 1 {
      assert a[1..] + b == b;
    } else {
      MembersTextSplit(a[1..], b);
    }
  }

  /** What the members before one more print, and the comma after them. */
  function Lead(a: seq<Member>): string {
    if a == [] then "" else MembersText(a) + ","
  }

  lemma LastText(a: seq<Member>, m: Member)
    ensures MembersText(a + [m]) == Lead(a) + Core(m) + m.after
  {
    if a == [] {
      assert a + [m] == [m];
    } else {
      MembersTextSplit(a, [m]);
      Seqs.Assoc(Lead(a), Core(m), m.after);
    }
  }

  lemma RetailSnoc(ms: seq<Member>, a: seq<Member>, m: Member, after: string)
    requires ms == a + [m]
    ensures MembersText(Retail(ms, after)) == Lead(a) + Core(m) + after
  {
    assert Retail(ms, after) == a + [m.(after := after)];
    LastText(a, m.(after := after));
  }

  lemma RetailBoth(ms: seq<Member>, a: seq<Member>, m: Member, after: string)
    requires ms == a + [m]
    ensures MembersText(Retail(ms, after)) == MembersText(Retail(ms, "")) + after
    ensures MembersText(ms) == MembersText(Retail(ms, "")) + m.after
  {
    LastText(a, m);
    RetailSnoc(ms, a, m, after);
    RetailSnoc(ms, a, m, "");
    EmptyTail(Lead(a) + Core(m));
  }

  /** The text of a nonempty member list is the text up to its last value, then trailing whitespace. */
  lemma RetailText(ms: seq<Member>, after: string)
    requires ms != []
    ensures MembersText(ms) == MembersText(Retail(ms, "")) + ms[|ms| - 1].after
    ensures MembersText(Retail(ms, after)) == MembersText(Retail(ms, "")) + after
  {
    Seqs.SplitLast(ms);
    RetailBoth(ms, ms[..|ms| - 1], ms[|ms| - 1], after);
  }

  lemma EmptyTail(s: string)
    ensures s + "" == s
  {
  }

  lemma {:induction false} RetailSolidEnd(ms: seq<Member>)
    requires ms != [] && WellFormedMembers(ms)
    ensures var t := MembersText(Retail(ms, "")); t != "" && t[|t| - 1] !in TRIMMED
    decreases ms
  {
    var bare := Retail(ms, "");
    if |ms| == 1 {
      CoreSolidEnd(ms[0]);
      assert Core(bare[0]) == Core(ms[0]);
    } else {
      RetailSolidEnd(ms[1..]);
      assert bare[1..] == Retail(ms[1..], "");
    }
  }

  lemma {:induction false} RetailKeeps(ms: seq<Member>, after: string)
    requires ms != [] && AllIn(after, WHITESPACE)
    ensures DenoteMembers(Retail(ms, after)) == DenoteMembers(ms)
    ensures WellFormedMembers(ms) ==> WellFormedMembers(Retail(ms, after))
    decreases ms
  {
    var r := Retail(ms, after);
    if |ms| > 1 {
      RetailKeeps(ms[1..], after);
      assert r[1..] == Retail(ms[1..], after);
    } else {
      assert ms[1..] == [] == r[1..] && r[0] == ms[0].(after := after);
      assert WellFormedMembers(ms) ==> WellFormedMember(ms[0]) && WellFormedMember(r[0]);
    }
  }

  lemma {:induction false} DenoteConcat(a: seq<Member>, b: seq<Member>)
    ensures DenoteMembers(a + b) == DenoteMembers(a) + DenoteMembers(b)
    decreases a
  {
    if a == [] {
      assert a + b == b;
    } else {
      assert (a + b)[0] == a[0] && (a + b)[1..] == a[1..] + b;
      DenoteConcat(a[1..], b);
    }
  }

  lemma {:induction false} WellFormedConcat(a: seq<Member>, b: seq<Member>)
    ensures WellFormedMembers(a + b) <==> WellFormedMembers(a) && WellFormedMembers(b)
    decreases a
  {
    if a == [] {
      assert a + b == b;
    } else {
      assert (a + b)[0] == a[0] && (a + b)[1..] == a[1..] + b;
      WellFormedConcat(a[1..], b);
    }
  }

  lemma {:induction false} StripMembersConcat(a: seq<Member>, b: seq<Member>)
    ensures StripMembers(a + b) == StripMembers(a) + StripMembers(b)
    decreases a
  {
    if a == [] {
      assert a + b == b;
    } else {
      assert (a + b)[0] == a[0] && (a + b)[1..] == a[1..] + b;
      StripMembersConcat(a[1..], b);
    }
  }

  lemma MembersConcat(a: seq<Member>, b: seq<Member>)
    ensures DenoteMembers(a + b) == DenoteMembers(a) + DenoteMembers(b)
    ensures WellFormedMembers(a + b) <==> WellFormedMembers(a) && WellFormedMembers(b)
    ensures StripMembers(a + b) == StripMembers(a) + StripMembers(b)
  {
    DenoteConcat(a, b);
    WellFormedConcat(a, b);
    StripMembersConcat(a, b);
  }
}
