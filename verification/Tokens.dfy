/** JSON tokens (sections 3, 6 and 7 of RFC 8259): strings, numbers and literals. */
module Tokens {
  import opened MemBuffer

  const ESCAPES: set<char> := {'"', '\\', '/', 'b', 'f', 'n', 'r', 't'}

  predicate IsDigit(c: char) {
    '0' <= c <= '9'
  }

  predicate IsHex(c: char) {
    IsDigit(c) || 'a' <= c <= 'f' || 'A' <= c <= 'F'
  }

  /** The length of the character or escape that text starts with, 0 if it starts with neither. */
  function UnitLength(s: string): (n: nat)
    ensures n <= |s|
  {
    if s == "" then 0
    else if s[0] != '\\' then if s[0] != '"' && s[0] >= ' ' then 1 else 0
    else if |s| < 2 then 0
    else if s[1] != 'u' then if s[1] in ESCAPES then 2 else 0
    else if |s| >= 6 && IsHex(s[2]) && IsHex(s[3]) && IsHex(s[4]) && IsHex(s[5]) then 6 else 0
  }

  /** Text that may stand between quotes: no bare quote, no control character, every escape complete. */
  predicate StringBody(s: string) {
    s == "" || (UnitLength(s) > 0 && StringBody(s[UnitLength(s)..]))
  }

  predicate StringToken(s: string) {
    |s| >= 2 && s[0] == '"' && s[|s| - 1] == '"' && StringBody(s[1..|s| - 1])
  }

  predicate Digits(s: string) {
    s != "" && forall i :: 0 <= i < |s| ==> IsDigit(s[i])
  }

  /** An integer part has no leading zero. */
  predicate IntegerPart(s: string) {
    Digits(s) && (s[0] == '0' ==> |s| == 1)
  }

  predicate FractionPart(s: string) {
    s == "" || (s[0] == '.' && Digits(s[1..]))
  }

  predicate ExponentPart(s: string) {
    s == "" || (s[0] in {'e', 'E'} && (Digits(s[1..]) || (|s| > 1 && s[1] in {'+', '-'} && Digits(s[2..]))))
  }

  ghost predicate NumberToken(s: string) {
    exists sign, i, f, e :: sign in {"", "-"} && IntegerPart(i) && FractionPart(f) && ExponentPart(e) && s == sign + i + f + e
  }

  ghost predicate Lexeme(s: string) {
    StringToken(s) || NumberToken(s) || s in {"true", "false", "null"}
  }

  /** Characters that need no escape. */
  predicate Unescaped(s: string) {
    forall i :: 0 <= i < |s| ==> s[i] != '"' && s[i] != '\\' && s[i] >= ' '
  }

  lemma {:induction false} UnescapedIsBody(s: string)
    requires Unescaped(s)
    ensures StringBody(s)
  {
    if s != "" {
      UnescapedIsBody(s[1..]);
    }
  }

  lemma UnitConcat(a: string, b: string)
    requires UnitLength(a) > 0
    ensures UnitLength(a + b) == UnitLength(a)
  {
    assert forall i :: 0 <= i < |a| ==> (a + b)[i] == a[i];
  }

  lemma UnitThenBody(a: string, rest: string, n: nat)
    requires a != "" && n <= |a| && n == UnitLength(a) > 0 && a[n..] == rest && StringBody(rest)
    ensures StringBody(a)
  {
  }

  lemma DropConcat(a: string, b: string, n: nat)
    requires n <= |a|
    ensures (a + b)[n..] == a[n..] + b
  {
  }

  /** Bodies can be joined: each ends outside an escape. */
  lemma {:induction false} BodyConcat(a: string, b: string)
    requires StringBody(a) && StringBody(b)
    ensures StringBody(a + b)
  {
    if a == "" {
      assert a + b == b;
    } else {
      var n := UnitLength(a);
      UnitConcat(a, b);
      BodyConcat(a[n..], b);
      DropConcat(a, b, n);
      UnitThenBody(a + b, a[n..] + b, n);
    }
  }

  lemma UnitIsClean(s: string, i: nat)
    requires i < UnitLength(s)
    ensures s[i] >= ' '
  {
  }

  lemma {:induction false} BodyIsClean(s: string)
    requires StringBody(s)
    ensures forall i :: 0 <= i < |s| ==> s[i] >= ' '
  {
    if s != "" {
      var n := UnitLength(s);
      BodyIsClean(s[n..]);
      forall i | 0 <= i < |s|
        ensures s[i] >= ' '
      {
        if i < n {
          UnitIsClean(s, i);
        } else {
          assert s[i] == s[n..][i - n];
        }
      }
    }
  }

  lemma QuotedBody(s: string)
    requires StringBody(s)
    ensures StringToken("\"" + s + "\"")
  {
    var t := "\"" + s + "\"";
    assert t[1..|t| - 1] == s;
  }

  lemma StringTokenIsClean(s: string)
    requires StringToken(s)
    ensures '\n' !in s
  {
    BodyIsClean(s[1..|s| - 1]);
    assert s == "\"" + s[1..|s| - 1] + "\"";
  }

  lemma {:induction false} DecimalIsInteger(n: nat)
    ensures IntegerPart(Decimal(n)) && (Decimal(n)[0] == '0' ==> n == 0)
  {
    if n >= 10 {
      DecimalIsInteger(n / 10);
      assert Decimal(n)[0] == Decimal(n / 10)[0];
    }
  }

  lemma IntegerIsNumber(s: string)
    requires IntegerPart(s)
    ensures NumberToken(s)
  {
    assert s == "" + s + "" + "";
    assert FractionPart("") && ExponentPart("");
  }
}
