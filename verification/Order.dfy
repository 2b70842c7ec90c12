/** Strict orders, lists that increase in them, and the order Go gives strings. */
module Order {

  ghost predicate StrictOrder<K(!new)>(less: (K, K) -> bool) {
    && (forall a :: !less(a, a))
    && (forall a, b, c :: less(a, b) && less(b, c) ==> less(a, c))
  }

  ghost predicate Increasing<K(!new)>(s: seq<K>, less: (K, K) -> bool) {
    forall i, j :: 0 <= i < j < |s| ==> less(s[i], s[j])
  }

  ghost predicate SameMembers<K(!new)>(a: seq<K>, b: seq<K>) {
    forall k :: k in a <==> k in b
  }

  lemma SameLast<K(!new)>(a: seq<K>, b: seq<K>, less: (K, K) -> bool)
    requires StrictOrder(less) && Increasing(a, less) && Increasing(b, less) && SameMembers(a, b) && a != [] && b != []
    ensures a[|a| - 1] == b[|b| - 1]
  {
    var x, y := a[|a| - 1], b[|b| - 1];
    assert x in b && y in a;
    var i :| 0 <= i < |a| && a[i] == y;
    var j :| 0 <= j < |b| && b[j] == x;
    assert i < |a| - 1 ==> less(y, x);
    assert j < |b| - 1 ==> less(x, y);
    assert i < |a| - 1 && j < |b| - 1 ==> less(x, x);
  }

  lemma WithoutLast<K(!new)>(a: seq<K>, less: (K, K) -> bool, k: K)
    requires StrictOrder(less) && Increasing(a, less) && a != []
    ensures k in a[..|a| - 1] <==> k in a && k != a[|a| - 1]
  {
    if k in a && k != a[|a| - 1] {
      var i :| 0 <= i < |a| && a[i] == k;
      assert a[..|a| - 1][i] == k;
    }
  }

  /** An increasing list is determined by its members. */
  lemma {:induction false} IncreasingIsUnique<K(!new)>(a: seq<K>, b: seq<K>, less: (K, K) -> bool)
    requires StrictOrder(less) && Increasing(a, less) && Increasing(b, less) && SameMembers(a, b)
    ensures a == b
    decreases |a|
  {
    assert a != [] ==> a[0] in b;
    assert b != [] ==> b[0] in a;
    if a != [] {
      SameLast(a, b, less);
      var a', b' := a[..|a| - 1], b[..|b| - 1];
      forall k
        ensures k in a' <==> k in b'
      {
        WithoutLast(a, less, k);
        WithoutLast(b, less, k);
      }
      IncreasingIsUnique(a', b', less);
      assert a == a' + [a[|a| - 1]] && b == b' + [a[|a| - 1]];
    }
  }

  // ---- Sorting ----

  /** What the library sort needs of a comparison: it is strict, and "not less" is transitive. */
  ghost predicate WeakOrder<K(!new)>(less: (K, K) -> bool) {
    StrictOrder(less) && forall a, b, c :: !less(b, a) && !less(c, b) ==> !less(c, a)
  }

  ghost predicate NonDecreasing<K(!new)>(s: seq<K>, less: (K, K) -> bool) {
    forall i, j :: 0 <= i < j < |s| ==> !less(s[j], s[i])
  }

  /** What a call of the library sort may leave. */
  ghost predicate SortResult<K(!new)>(r: seq<K>, s: seq<K>, less: (K, K) -> bool) {
    NonDecreasing(r, less) && multiset(r) == multiset(s)
  }

  function Insert<K>(k: K, s: seq<K>, less: (K, K) -> bool): seq<K> {
    if s == [] then [k]
    else if less(k, s[|s| - 1]) then Insert(k, s[..|s| - 1], less) + [s[|s| - 1]]
    else s + [k]
  }

  /** A stand-in for the library sort; callers use its contract only. */
  method Sort<K(!new)>(s: seq<K>, less: (K, K) -> bool) returns (r: seq<K>)
    requires WeakOrder(less)
    ensures SortResult(r, s, less)
  {
    r := [];
    for i := 0 to |s|
      invariant SortResult(r, s[..i], less)
    {
      InsertSorts(s[i], r, less);
      InsertPermutes(s[i], r, less);
      assert s[..i + 1] == s[..i] + [s[i]];
      r := Insert(s[i], r, less);
    }
    assert s[..|s|] == s;
  }

  lemma {:induction false} InsertPermutes<K(!new)>(k: K, s: seq<K>, less: (K, K) -> bool)
    ensures multiset(Insert(k, s, less)) == multiset(s) + multiset{k}
  {
    if s != [] {
      InsertPermutes(k, s[..|s| - 1], less);
      assert s == s[..|s| - 1] + [s[|s| - 1]];
    }
  }

  lemma NonDecreasingSnoc<K(!new)>(s: seq<K>, k: K, less: (K, K) -> bool)
    requires NonDecreasing(s, less) && forall q :: q in s ==> !less(k, q)
    ensures NonDecreasing(s + [k], less)
  {
  }

  lemma NothingBelow<K(!new)>(s: seq<K>, k: K, q: K, less: (K, K) -> bool)
    requires WeakOrder(less) && NonDecreasing(s, less) && q in s && !less(k, s[|s| - 1])
    ensures !less(k, q)
  {
    var i :| 0 <= i < |s| && s[i] == q;
    assert i < |s| - 1 ==> !less(s[|s| - 1], s[i]);
  }

  lemma {:induction false} InsertSorts<K(!new)>(k: K, s: seq<K>, less: (K, K) -> bool)
    requires WeakOrder(less) && NonDecreasing(s, less)
    ensures NonDecreasing(Insert(k, s, less), less)
  {
    if s != [] {
      var rest, last := s[..|s| - 1], s[|s| - 1];
      if less(k, last) {
        InsertSorts(k, rest, less);
        forall q | q in Insert(k, rest, less)
          ensures !less(last, q)
        {
          InsertPermutes(k, rest, less);
          assert q in multiset(Insert(k, rest, less));
          assert q == k || q in rest;
          assert less(k, last) && less(last, k) ==> less(k, k);
        }
        NonDecreasingSnoc(Insert(k, rest, less), last, less);
      } else {
        forall q | q in s
          ensures !less(k, q)
        {
          NothingBelow(s, k, q, less);
        }
        NonDecreasingSnoc(s, k, less);
      }
    }
  }

  lemma Twice<K(!new)>(s: seq<K>, i: nat, j: nat)
    requires i < j < |s|
    ensures s[i] == s[j] ==> multiset(s)[s[i]] >= 2
  {
    assert s == s[..j] + [s[j]] + s[j + 1..];
    assert s[i] in s[..j];
  }

  // ---- Strings ----

  predicate Less(a: string, b: string) {
    if b == [] then false
    else if a == [] then true
    else a[0] < b[0] || (a[0] == b[0] && Less(a[1..], b[1..]))
  }

  lemma {:induction false} Irreflexive(a: string)
    ensures !Less(a, a)
  {
    if a != [] {
      Irreflexive(a[1..]);
    }
  }

  lemma {:induction false} Transitive(a: string, b: string, c: string)
    requires Less(a, b) && Less(b, c)
    ensures Less(a, c)
  {
    if a != [] && a[0] == b[0] == c[0] {
      Transitive(a[1..], b[1..], c[1..]);
    }
  }

  lemma {:induction false} Total(a: string, b: string)
    ensures Less(a, b) || a == b || Less(b, a)
  {
    if a != [] && b != [] && a[0] == b[0] {
      Total(a[1..], b[1..]);
      if a[1..] == b[1..] {
        assert a == [a[0]] + a[1..] && b == [b[0]] + b[1..];
      }
    }
  }

  lemma LessIsStrictOrder()
    ensures StrictOrder(Less)
  {
    forall a: string
      ensures !Less(a, a)
    {
      Irreflexive(a);
    }
    forall a: string, b: string, c: string | Less(a, b) && Less(b, c)
      ensures Less(a, c)
    {
      Transitive(a, b, c);
    }
  }
}
