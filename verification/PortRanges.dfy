/** The port ranges a service is reachable on (ipn/serve.go). */
module PortRanges {
  import opened Order
  import Seqs
  import opened Bytes

  datatype Range = Range(proto: int, first: int, last: int)

  const TCP: int := 6
  const ANY_PROTO: int := 0

  predicate InRange(r: Range, p: int) {
    r.first <= p <= r.last
  }

  ghost predicate Covers(rs: seq<Range>, p: int) {
    exists i :: 0 <= i < |rs| && InRange(rs[i], p)
  }

  /** Non-empty ranges in increasing order, no two of which touch. */
  ghost predicate Canonical(rs: seq<Range>) {
    && (forall i :: 0 <= i < |rs| ==> rs[i].proto == TCP && rs[i].first <= rs[i].last)
    && (forall i, j :: 0 <= i < j < |rs| ==> rs[i].last + 1 < rs[j].first)
  }

  ghost predicate SameCover(rs: seq<Range>, qs: seq<Range>) {
    forall p :: Covers(rs, p) <==> Covers(qs, p)
  }

  // ---- Canonical lists are unique ----

  lemma NothingBefore(rs: seq<Range>, p: int)
    requires Canonical(rs) && rs != [] && Covers(rs, p)
    ensures rs[0].first <= p && (p <= rs[0].last || rs[0].last + 1 < p)
  {
    var i :| 0 <= i < |rs| && InRange(rs[i], p);
    assert i > 0 ==> rs[0].last + 1 < rs[i].first;
  }

  lemma CoversItsFirst(rs: seq<Range>)
    requires Canonical(rs) && rs != []
    ensures Covers(rs, rs[0].first)
  {
    assert InRange(rs[0], rs[0].first);
  }

  lemma FirstReaches(rs: seq<Range>, qs: seq<Range>)
    requires Canonical(rs) && Canonical(qs) && SameCover(rs, qs) && rs != [] && qs != []
    ensures qs[0].first <= rs[0].first && (rs[0].first == qs[0].first ==> rs[0].last <= qs[0].last)
  {
    CoversItsFirst(rs);
    NothingBefore(qs, rs[0].first);
    if rs[0].first == qs[0].first && qs[0].last < rs[0].last {
      var p := qs[0].last + 1;
      assert InRange(rs[0], p);
      assert Covers(rs, p);
      NothingBefore(qs, p);
    }
  }

  lemma TailCovers(rs: seq<Range>, p: int)
    requires Canonical(rs) && rs != []
    ensures Covers(rs[1..], p) <==> Covers(rs, p) && !InRange(rs[0], p)
  {
    if Covers(rs[1..], p) {
      var i :| 0 <= i < |rs[1..]| && InRange(rs[1..][i], p);
      assert InRange(rs[i + 1], p);
    }
    if Covers(rs, p) && !InRange(rs[0], p) {
      var i :| 0 <= i < |rs| && InRange(rs[i], p);
      assert InRange(rs[1..][i - 1], p);
    }
  }

  lemma TailCanonical(rs: seq<Range>)
    requires Canonical(rs) && rs != []
    ensures Canonical(rs[1..])
  {
  }

  lemma TailsSameCover(rs: seq<Range>, qs: seq<Range>)
    requires Canonical(rs) && Canonical(qs) && SameCover(rs, qs) && rs != [] && qs != [] && rs[0] == qs[0]
    ensures SameCover(rs[1..], qs[1..])
  {
    forall p: int
      ensures Covers(rs[1..], p) <==> Covers(qs[1..], p)
    {
      TailCovers(rs, p);
      TailCovers(qs, p);
    }
  }

  lemma SameFirst(rs: seq<Range>, qs: seq<Range>)
    requires Canonical(rs) && Canonical(qs) && SameCover(rs, qs) && rs != [] && qs != []
    ensures rs[0] == qs[0]
  {
    FirstReaches(rs, qs);
    FirstReaches(qs, rs);
  }

  lemma BothOrNeither(rs: seq<Range>, qs: seq<Range>)
    requires Canonical(rs) && Canonical(qs) && SameCover(rs, qs)
    ensures rs == [] <==> qs == []
  {
    if rs != [] {
      CoversItsFirst(rs);
    }
    if qs != [] {
      CoversItsFirst(qs);
    }
  }

  /** Two canonical lists that cover the same ports are the same list. */
  lemma {:induction false} CanonicalIsUnique(rs: seq<Range>, qs: seq<Range>)
    requires Canonical(rs) && Canonical(qs) && SameCover(rs, qs)
    ensures rs == qs
    decreases |rs|
  {
    BothOrNeither(rs, qs);
    if rs != [] {
      SameFirst(rs, qs);
      TailCanonical(rs);
      TailCanonical(qs);
      TailsSameCover(rs, qs);
      CanonicalIsUnique(rs[1..], qs[1..]);
      Seqs.SplitAt(rs, 0);
      Seqs.SplitAt(qs, 0);
    }
  }

  // ---- Coalescing ----

  predicate Below(a: int, b: int) {
    a < b
  }

  /** The next port in 16-bit arithmetic. */
  function NextPort(p: int): int {
    (p + 1) % UINT16
  }

  ghost predicate IsPort(p: int) {
    0 < p < UINT16
  }

  /** One step of the loop: extend the last range or start a new one. */
  function AddPort(rs: seq<Range>, p: int): seq<Range> {
    if rs != [] && p == NextPort(rs[|rs| - 1].last) then rs[|rs| - 1 := rs[|rs| - 1].(last := p)]
    else rs + [Range(TCP, p, p)]
  }

  /** The wrap-around of the last port cannot match, because port 0 is not among them. */
  lemma AddPortOk(rs: seq<Range>, p: int)
    requires Canonical(rs) && IsPort(p)
    requires forall i :: 0 <= i < |rs| ==> 0 < rs[i].first && rs[i].last < p
    ensures Canonical(AddPort(rs, p))
    ensures forall i :: 0 <= i < |AddPort(rs, p)| ==> 0 < AddPort(rs, p)[i].first && AddPort(rs, p)[i].last <= p
  {
    if rs != [] {
      assert rs[|rs| - 1].last + 1 <= p < UINT16;
      assert NextPort(rs[|rs| - 1].last) == rs[|rs| - 1].last + 1;
    }
  }

  lemma AddPortCovers(rs: seq<Range>, p: int, x: int)
    requires Canonical(rs) && IsPort(p)
    requires forall i :: 0 <= i < |rs| ==> 0 < rs[i].first && rs[i].last < p
    ensures Covers(AddPort(rs, p), x) <==> Covers(rs, x) || x == p
  {
    var qs := AddPort(rs, p);
    if rs != [] {
      assert NextPort(rs[|rs| - 1].last) == rs[|rs| - 1].last + 1;
    }
    if Covers(qs, x) {
      var i :| 0 <= i < |qs| && InRange(qs[i], x);
      assert x != p ==> i < |rs| && InRange(rs[i], x);
    }
    if Covers(rs, x) {
      var i :| 0 <= i < |rs| && InRange(rs[i], x);
      assert InRange(qs[i], x);
    }
    assert InRange(qs[|qs| - 1], p);
  }

  /** The ranges so far: canonical, and covering exactly the ports read. */
  ghost predicate Within(rs: seq<Range>, last: int) {
    forall i :: 0 <= i < |rs| ==> 0 < rs[i].first && rs[i].last <= last
  }

  ghost predicate CoversExactly(rs: seq<Range>, ports: seq<int>) {
    forall p :: Covers(rs, p) <==> p in ports
  }

  ghost predicate SoFar(rs: seq<Range>, ports: seq<int>) {
    Canonical(rs) && CoversExactly(rs, ports) && if ports == [] then rs == [] else Within(rs, ports[|ports| - 1])
  }

  lemma OnePort(rs: seq<Range>, ports: seq<int>, p: int)
    requires SoFar(rs, ports) && IsPort(p) && (ports != [] ==> ports[|ports| - 1] < p)
    ensures SoFar(AddPort(rs, p), ports + [p])
  {
    AddPortOk(rs, p);
    CoversNext(rs, ports, p);
    assert Within(AddPort(rs, p), p);
    assert (ports + [p])[|ports|] == p;
  }

  lemma CoversNext(rs: seq<Range>, ports: seq<int>, p: int)
    requires SoFar(rs, ports) && IsPort(p) && (ports != [] ==> ports[|ports| - 1] < p)
    ensures CoversExactly(AddPort(rs, p), ports + [p])
  {
    forall x: int
      ensures Covers(AddPort(rs, p), x) <==> x in ports + [p]
    {
      AddPortCovers(rs, p, x);
      assert x in ports + [p] <==> x in ports || x == p;
    }
  }

  method Coalesce(ports: seq<int>) returns (ranges: seq<Range>)
    requires Increasing(ports, Below) && forall i :: 0 <= i < |ports| ==> IsPort(ports[i])
    ensures Canonical(ranges) && forall p :: Covers(ranges, p) <==> p in ports
  {
    ranges := [];
    for n := 0 to |ports|
      invariant SoFar(ranges, ports[..n])
    {
      var p := ports[n];
      assert n > 0 ==> Below(ports[n - 1], p);
      OnePort(ranges, ports[..n], p);
      assert ports[..n + 1] == ports[..n] + [p];
      ranges := AddPort(ranges, p);
    }
    assert ports[..|ports|] == ports;
  }

  /** The positive ports, in whatever order the set yields them. */
  method Slice(ports: set<int>) returns (s: seq<int>)
    ensures multiset(s) == multiset(ports)
  {
    s := [];
    var rest := ports;
    while rest != {}
      invariant rest <= ports && multiset(s) + multiset(rest) == multiset(ports)
      decreases |rest|
    {
      assert (forall p: int :: p !in rest) ==> rest == {};
      var p: int :| p in rest;
      s := s + [p];
      rest := rest - {p};
    }
  }

  lemma SortedSetIncreases(s: seq<int>, ports: set<int>)
    requires NonDecreasing(s, Below) && multiset(s) == multiset(ports)
    ensures Increasing(s, Below)
  {
    forall i, j | 0 <= i < j < |s|
      ensures Below(s[i], s[j])
    {
      Twice(s, i, j);
      assert multiset(ports)[s[i]] <= 1;
      assert !Below(s[j], s[i]);
    }
  }

  /**
   * In Tun mode every port of every protocol; otherwise the one canonical list of TCP ranges that
   * covers exactly the configured ports other than 0.
   */
  method ServicePortRange(tun: bool, tcp: set<int>) returns (ranges: seq<Range>)
    requires forall p :: p in tcp ==> 0 <= p < UINT16
    ensures tun ==> ranges == [Range(ANY_PROTO, 0, UINT16 - 1)]
    ensures !tun ==> Canonical(ranges) && forall p :: Covers(ranges, p) <==> p in tcp && p != 0
  {
    if tun {
      return [Range(ANY_PROTO, 0, UINT16 - 1)];
    }
    var servePorts := set p | p in tcp && p > 0;
    var unsorted := Slice(servePorts);
    var sorted := Sort(unsorted, Below);
    SortedSetIncreases(sorted, servePorts);
    forall p: int
      ensures p in sorted <==> p in servePorts
    {
      assert p in sorted <==> p in multiset(sorted);
      assert p in servePorts <==> p in multiset(servePorts);
    }
    forall i | 0 <= i < |sorted|
      ensures IsPort(sorted[i])
    {
      assert sorted[i] in servePorts;
    }
    ranges := Coalesce(sorted);
  }
}
