/** Facts about sequences that proofs on long concatenations need to be told. */
module Seqs {

  lemma Assoc<T>(a: seq<T>, b: seq<T>, c: seq<T>)
    ensures a + b + c == a + (b + c)
  {
  }

  lemma SplitAt<T>(s: seq<T>, k: nat)
    requires k < |s|
    ensures s == s[..k] + ([s[k]] + s[k + 1..])
  {
  }

  lemma SplitLast<T>(s: seq<T>)
    requires s != []
    ensures s == s[..|s| - 1] + [s[|s| - 1]]
  {
  }

  lemma SameCons<T>(a: T, s: seq<T>, b: T, t: seq<T>)
    ensures [a] + s == [b] + t <==> a == b && s == t
  {
    var l, r := [a] + s, [b] + t;
    assert l[0] == a && r[0] == b && l[1..] == s && r[1..] == t;
  }

  /** Element for element. */
  ghost predicate Images<A, B>(goal: seq<A>, f: A -> B, made: seq<B>) {
    |made| == |goal| && forall i :: 0 <= i < |made| ==> made[i] == f(goal[i])
  }
}
