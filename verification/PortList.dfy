/** Sorting and de-duplicating the list of listening ports (portlist/portlist.go). */
module PortList {
  import opened Bytes
  import Seqs
  import opened Order

  datatype Port = Port(proto: string, port: Uint16, process: string, pid: int)

  predicate LessThan(a: Port, b: Port) {
    if a.port != b.port then a.port < b.port
    else if a.proto != b.proto then Less(a.proto, b.proto)
    else Less(a.process, b.process)
  }

  predicate Equal(a: Port, b: Port) {
    a.port == b.port && a.proto == b.proto && a.process == b.process
  }

  const ZeroPort: Port := Port("", 0, "", 0)

  /** The pair that is kept once. */
  predicate SameSlot(a: Port, b: Port) {
    a.proto == b.proto && a.port == b.port
  }

  predicate SlotLess(a: Port, b: Port) {
    a.port < b.port || (a.port == b.port && Less(a.proto, b.proto))
  }

  /** A port without its process ID, which comparisons ignore. */
  function Face(p: Port): Port {
    p.(pid := 0)
  }

  function Faces(ps: seq<Port>): (r: seq<Port>)
    ensures |r| == |ps| && forall i :: 0 <= i < |ps| ==> r[i] == Face(ps[i])
  {
    seq(|ps|, i requires 0 <= i < |ps| => Face(ps[i]))
  }

  // ---- The comparison orders ports up to process ID ----

  lemma LessThanTransitive(a: Port, b: Port, c: Port)
    requires LessThan(a, b) && LessThan(b, c)
    ensures LessThan(a, c)
  {
    if a.port == b.port == c.port {
      if a.proto == b.proto == c.proto {
        Transitive(a.process, b.process, c.process);
      } else if a.proto != b.proto && b.proto != c.proto {
        Transitive(a.proto, b.proto, c.proto);
        Irreflexive(a.proto);
      }
    }
  }

  lemma LessThanIsStrictOrder()
    ensures StrictOrder(LessThan)
  {
    LessIsStrictOrder();
    forall a: Port, b: Port, c: Port | LessThan(a, b) && LessThan(b, c)
      ensures LessThan(a, c)
    {
      LessThanTransitive(a, b, c);
    }
  }

  /** Ports neither of which is less are equal in all but process ID. */
  lemma Incomparable(a: Port, b: Port)
    ensures !LessThan(a, b) && !LessThan(b, a) <==> Equal(a, b)
  {
    Total(a.proto, b.proto);
    Total(a.process, b.process);
    Irreflexive(a.process);
  }

  // ---- Sorting ----

  lemma NotLessTransitive(a: Port, b: Port, c: Port)
    requires !LessThan(b, a) && !LessThan(c, b)
    ensures !LessThan(c, a)
  {
    Incomparable(a, b);
    Incomparable(b, c);
    if LessThan(c, a) && LessThan(a, b) {
      LessThanTransitive(c, a, b);
    }
    if LessThan(c, a) && LessThan(b, c) {
      LessThanTransitive(b, c, a);
    }
  }

  lemma LessThanIsWeakOrder()
    ensures WeakOrder(LessThan)
  {
    LessThanIsStrictOrder();
    forall a: Port, b: Port, c: Port | !LessThan(b, a) && !LessThan(c, b)
      ensures !LessThan(c, a)
    {
      NotLessTransitive(a, b, c);
    }
  }

  /** The library sort, in place. */
  method SortSlice(ps: array<Port>)
    modifies ps
    ensures SortResult(ps[..], old(ps[..]), LessThan)
  {
    LessThanIsWeakOrder();
    var q := Sort(ps[..], LessThan);
    assert |multiset(q)| == |multiset(ps[..])|;
    forall k | 0 <= k < ps.Length {
      ps[k] := q[k];
    }
    assert ps[..] == q;
  }

  // ---- De-duplication ----

  function LastOf(ps: seq<Port>): Port {
    if ps == [] then ZeroPort else ps[|ps| - 1]
  }

  function Dedup(ps: seq<Port>): seq<Port> {
    if ps == [] then []
    else
      var out := Dedup(ps[..|ps| - 1]);
      if SameSlot(LastOf(out), ps[|ps| - 1]) then out else out + [ps[|ps| - 1]]
  }

  /** Compacts over the prefix of the same array. */
  method Compact(ps: array<Port>) returns (n: nat)
    modifies ps
    ensures n <= ps.Length && ps[..n] == Dedup(old(ps[..]))
  {
    ghost var q := ps[..];
    n := 0;
    var last := ZeroPort;
    var i := 0;
    while i < ps.Length
      invariant 0 <= n <= i <= ps.Length
      invariant ps[..n] == Dedup(q[..i]) && last == LastOf(ps[..n])
      invariant forall k :: i <= k < ps.Length ==> ps[k] == q[k]
    {
      assert q[..i + 1][..i] == q[..i];
      var p := ps[i];
      if !(last.proto == p.proto && last.port == p.port) {
        ps[n] := p;
        n := n + 1;
        last := p;
      }
      i := i + 1;
    }
    assert q[..i] == q;
  }

  method SortAndDedup(ps: array<Port>) returns (n: nat, ghost q: seq<Port>)
    modifies ps
    ensures n <= ps.Length && SortResult(q, old(ps[..]), LessThan) && ps[..n] == Dedup(q)
  {
    SortSlice(ps);
    q := ps[..];
    n := Compact(ps);
  }

  // ---- What the list means ----

  /** The pair of the zero value, which the first comparison drops. */
  predicate ZeroSlot(p: Port) {
    SameSlot(p, ZeroPort)
  }

  /** `f` has the least process name its (protocol, port) pair has in `ps`. */
  ghost predicate Least(ps: seq<Port>, f: Port) {
    forall q :: q in ps && SameSlot(q, f) ==> !Less(q.process, f.process)
  }

  ghost predicate HasFace(ps: seq<Port>, f: Port) {
    exists p :: p in ps && Face(p) == f
  }

  /** The entries a de-duplicated list should have. */
  ghost predicate Representative(ps: seq<Port>, f: Port) {
    !ZeroSlot(f) && HasFace(ps, f) && Least(ps, f)
  }

  /** Every entry kept was read and is not the zero pair. */
  ghost predicate KeptFrom(ps: seq<Port>, out: seq<Port>) {
    forall p :: p in out ==> p in ps && !ZeroSlot(p)
  }

  /**
   * On a sorted list: pairs strictly increase, the last entry kept shares its pair with the last
   * entry read, and every entry kept is one that was read.
   */
  lemma {:induction false} DedupShape(ps: seq<Port>)
    requires NonDecreasing(ps, LessThan)
    ensures KeptFrom(ps, Dedup(ps)) && PairsIncrease(Dedup(ps))
    ensures ps != [] ==> SameSlot(LastOf(Dedup(ps)), ps[|ps| - 1])
  {
    if ps != [] {
      var before, p := ps[..|ps| - 1], ps[|ps| - 1];
      Seqs.SplitLast(ps);
      NonDecreasingPrefix(before, p);
      DedupShape(before);
      ShapeStep(before, Dedup(before), p);
    }
  }

  lemma NonDecreasingPrefix(before: seq<Port>, p: Port)
    requires NonDecreasing(before + [p], LessThan)
    ensures NonDecreasing(before, LessThan)
  {
    assert forall i :: 0 <= i < |before| ==> (before + [p])[i] == before[i];
  }

  lemma ShapeStep(before: seq<Port>, out: seq<Port>, p: Port)
    requires NonDecreasing(before + [p], LessThan) && KeptFrom(before, out) && PairsIncrease(out)
    requires before != [] ==> SameSlot(LastOf(out), before[|before| - 1])
    requires before == [] ==> out == []
    ensures var next := if SameSlot(LastOf(out), p) then out else out + [p];
            KeptFrom(before + [p], next) && PairsIncrease(next) && SameSlot(LastOf(next), p)
  {
    if !SameSlot(LastOf(out), p) {
      StepUp(before, out, p);
      PairsIncreaseSnoc(out, p);
    }
  }

  ghost predicate PairsIncrease(out: seq<Port>) {
    forall i, j :: 0 <= i < j < |out| ==> SlotLess(out[i], out[j])
  }

  lemma PairsIncreaseSnoc(out: seq<Port>, p: Port)
    requires PairsIncrease(out) && (out != [] ==> SlotLess(LastOf(out), p))
    ensures PairsIncrease(out + [p])
  {
    forall i | 0 <= i < |out|
      ensures SlotLess(out[i], p)
    {
      if i < |out| - 1 {
        SlotLessTransitive(out[i], LastOf(out), p);
      }
    }
  }

  lemma SlotLessTransitive(a: Port, b: Port, c: Port)
    requires SlotLess(a, b) && SlotLess(b, c)
    ensures SlotLess(a, c)
  {
    if a.port == b.port == c.port {
      Transitive(a.proto, b.proto, c.proto);
    }
  }

  /** A new pair is above the last pair kept, and is not the zero pair. */
  lemma StepUp(before: seq<Port>, out: seq<Port>, p: Port)
    requires NonDecreasing(before + [p], LessThan) && !SameSlot(LastOf(out), p)
    requires if before == [] then out == [] else SameSlot(LastOf(out), before[|before| - 1])
    ensures SlotLess(LastOf(out), p) && !ZeroSlot(p)
  {
    if before != [] {
      var ps := before + [p];
      assert !LessThan(ps[|before|], ps[|before| - 1]);
    }
    Total(LastOf(out).proto, p.proto);
  }

  /** Sorted after `before`, `p` is not below any earlier entry. */
  lemma AfterAll(before: seq<Port>, p: Port, q: Port)
    requires NonDecreasing(before + [p], LessThan) && q in before
    ensures !LessThan(p, q)
    ensures SameSlot(p, q) ==> !Less(p.process, q.process)
  {
    var i :| 0 <= i < |before| && before[i] == q;
    var ps := before + [p];
    assert ps[i] == q && ps[|before|] == p;
    assert !LessThan(ps[|before|], ps[i]);
  }

  /** Once the pair changes it does not come back. */
  lemma PairIsNew(before: seq<Port>, p: Port, q: Port)
    requires NonDecreasing(before + [p], LessThan) && q in before && SlotLess(before[|before| - 1], p)
    ensures !SameSlot(q, p)
  {
    var n := |before| - 1;
    var last := before[n];
    var i :| 0 <= i < |before| && before[i] == q;
    var ps := before + [p];
    assert ps[i] == q && ps[n] == last;
    assert i < n ==> !LessThan(ps[n], ps[i]);
    LessIsStrictOrder();
    Incomparable(last, q);
  }

  lemma KeptRepresents(before: seq<Port>, p: Port, f: Port)
    requires NonDecreasing(before + [p], LessThan) && (before != [] ==> SlotLess(before[|before| - 1], p)) && !ZeroSlot(p)
    ensures Representative(before + [p], f) <==> Representative(before, f) || f == Face(p)
  {
    var ps := before + [p];
    assert forall q :: q in ps <==> q in before || q == p;
    forall q | q in before
      ensures !SameSlot(q, p)
    {
      PairIsNew(before, p, q);
    }
    Irreflexive(p.process);
    assert p in ps;
    if HasFace(before, f) {
      var q :| q in before && Face(q) == f;
      assert q in ps;
    }
  }

  lemma SkippedRepresents(before: seq<Port>, last: Port, p: Port, f: Port)
    requires NonDecreasing(before + [p], LessThan) && SameSlot(last, p) && (ZeroSlot(p) || last in before)
    ensures Representative(before + [p], f) <==> Representative(before, f)
  {
    var ps := before + [p];
    assert forall q :: q in ps <==> q in before || q == p;
    if Representative(ps, f) && f == Face(p) {
      AfterAll(before, p, last);
      assert last in ps;
      Total(last.process, p.process);
      assert Face(last) == f;
    }
    if Representative(before, f) {
      var q :| q in before && Face(q) == f;
      AfterAll(before, p, q);
      assert q in ps;
    }
  }

  /** De-duplicating a sorted list keeps exactly the least entry of each pair but the zero pair. */
  lemma {:induction false} DedupRepresents(ps: seq<Port>, f: Port)
    requires NonDecreasing(ps, LessThan)
    ensures f in Faces(Dedup(ps)) <==> Representative(ps, f)
  {
    if ps != [] {
      var before, p := ps[..|ps| - 1], ps[|ps| - 1];
      assert ps == before + [p];
      DedupRepresents(before, f);
      DedupShape(before);
      var out := Dedup(before);
      if SameSlot(LastOf(out), p) {
        SkippedRepresents(before, LastOf(out), p, f);
      } else {
        StepUp(before, out, p);
        KeptRepresents(before, p, f);
        assert Faces(out + [p]) == Faces(out) + [Face(p)];
      }
    }
  }

  lemma MembersRepresent(ps: seq<Port>, qs: seq<Port>, f: Port)
    requires SameMembers(ps, qs)
    ensures Representative(ps, f) <==> Representative(qs, f)
  {
    if HasFace(ps, f) {
      var p :| p in ps && Face(p) == f;
      assert p in qs;
    }
    if HasFace(qs, f) {
      var q :| q in qs && Face(q) == f;
      assert q in ps;
    }
  }

  lemma SortKeepsMembers(q: seq<Port>, ps: seq<Port>)
    requires SortResult(q, ps, LessThan)
    ensures SameMembers(q, ps)
  {
    assert forall p :: p in ps <==> p in multiset(ps);
    assert forall p :: p in q <==> p in multiset(q);
  }

  lemma FacesIncrease(ps: seq<Port>)
    requires NonDecreasing(ps, LessThan)
    ensures Order.Increasing(Faces(Dedup(ps)), LessThan)
  {
    DedupShape(ps);
    LessIsStrictOrder();
  }

  /**
   * Whatever order and however often the ports are gathered, and whatever the sort does with equal entries, the
   * de-duplicated lists agree in all but process ID.
   */
  lemma ResultIgnoresOrder(ps: seq<Port>, qs: seq<Port>, a: seq<Port>, b: seq<Port>)
    requires SameMembers(ps, qs) && SortResult(a, ps, LessThan) && SortResult(b, qs, LessThan)
    ensures Faces(Dedup(a)) == Faces(Dedup(b))
  {
    SortKeepsMembers(a, ps);
    SortKeepsMembers(b, qs);
    LessThanIsStrictOrder();
    FacesIncrease(a);
    FacesIncrease(b);
    forall f: Port
      ensures f in Faces(Dedup(a)) <==> f in Faces(Dedup(b))
    {
      DedupRepresents(a, f);
      DedupRepresents(b, f);
      MembersRepresent(a, b, f);
    }
    IncreasingIsUnique(Faces(Dedup(a)), Faces(Dedup(b)), LessThan);
  }

  /** Every pair but the zero pair is in the result exactly once; the zero pair never is. */
  lemma PairsCovered(ps: seq<Port>, p: Port)
    requires NonDecreasing(ps, LessThan) && p in ps
    ensures (exists i :: 0 <= i < |Dedup(ps)| && SameSlot(Dedup(ps)[i], p)) <==> !ZeroSlot(p)
    ensures forall i, j :: 0 <= i < j < |Dedup(ps)| ==> SlotLess(Dedup(ps)[i], Dedup(ps)[j]) && !SameSlot(Dedup(ps)[i], Dedup(ps)[j])
  {
    DedupShape(ps);
    assert forall i :: 0 <= i < |Dedup(ps)| ==> Dedup(ps)[i] in Dedup(ps);
    LessIsStrictOrder();
    if !ZeroSlot(p) {
      PairIsKept(ps, p);
    }
  }

  /** The failing input: a list of the zero pair alone is emptied. */
  lemma ZeroPairIsDropped(process: string, pid: int)
    ensures Dedup([Port("", 0, process, pid)]) == []
  {
    var p := Port("", 0, process, pid);
    var ps := [p];
    assert ps[..0] == [];
    assert SameSlot(LastOf([]), p);
  }

  lemma {:induction false} PairIsKept(ps: seq<Port>, p: Port)
    requires NonDecreasing(ps, LessThan) && p in ps && !ZeroSlot(p)
    ensures exists i :: 0 <= i < |Dedup(ps)| && SameSlot(Dedup(ps)[i], p)
  {
    DedupShape(ps);
    var before, last := ps[..|ps| - 1], ps[|ps| - 1];
    var out := Dedup(ps);
    if p == last {
      assert SameSlot(LastOf(out), p);
      assert out != [];
      assert SameSlot(out[|out| - 1], p);
    } else {
      PairIsKept(before, p);
      var i :| 0 <= i < |Dedup(before)| && SameSlot(Dedup(before)[i], p);
      assert out[i] == Dedup(before)[i];
    }
  }

  /** Entry-by-entry comparison that stops at the first difference. */
  method ListEqual(a: seq<Port>, b: seq<Port>) returns (same: bool)
    ensures same <==> Faces(a) == Faces(b)
  {
    if |a| != |b| {
      return false;
    }
    for i := 0 to |a|
      invariant forall j :: 0 <= j < i ==> Face(a[j]) == Face(b[j])
    {
      if !Equal(a[i], b[i]) {
        assert Faces(a)[i] != Faces(b)[i];
        return false;
      }
    }
    return true;
  }
}
