/**
 * A map from struct keys to metric variables, kept next to a slice of the same entries in label
 * order (metrics/multilabelmap.go).
 */
module LabelMap {
  import opened Labels
  import opened Order

  /** A reference to a metric variable, or Go's nil interface. */
  datatype Var = NilVar | Ref(id: nat)

  datatype Entry = Entry(key: Key, labels: string, val: Var)

  ghost predicate StrictlySorted(es: seq<Entry>) {
    forall i, j :: 0 <= i < j < |es| ==> Less(es[i].labels, es[j].labels)
  }

  /** How keys are labelled: on the keys in `typed`, equal labels mean equal keys. */
  datatype Scheme = Scheme(text: Key -> string, typed: iset<Key>)

  ghost predicate Identifies(sc: Scheme) {
    forall k, l :: k in sc.typed && l in sc.typed && sc.text(k) == sc.text(l) ==> k == l
  }

  ghost predicate Labelled(es: seq<Entry>, sc: Scheme) {
    forall i :: 0 <= i < |es| ==> es[i].key in sc.typed && es[i].labels == sc.text(es[i].key)
  }

  /** The slice and the map hold the same keys with the same values. */
  ghost predicate Agrees(es: seq<Entry>, m: map<Key, Var>) {
    && (forall i :: 0 <= i < |es| ==> es[i].key in m && m[es[i].key] == es[i].val)
    && (forall k :: k in m ==> Holds(es, k))
  }

  ghost predicate Holds(es: seq<Entry>, k: Key) {
    exists i :: 0 <= i < |es| && es[i].key == k
  }

  ghost predicate IsIndex(es: seq<Entry>, m: map<Key, Var>, sc: Scheme) {
    Identifies(sc) && StrictlySorted(es) && Labelled(es, sc) && Agrees(es, m)
  }

  // ---- The slice is determined by the map ----

  ghost predicate DistinctKeys(es: seq<Entry>) {
    forall i, j :: 0 <= i < j < |es| ==> es[i].key != es[j].key
  }

  lemma IndexHasDistinctKeys(es: seq<Entry>, sc: Scheme)
    requires StrictlySorted(es) && Labelled(es, sc)
    ensures DistinctKeys(es)
  {
    forall i, j | 0 <= i < j < |es|
      ensures es[i].key != es[j].key
    {
      Irreflexive(es[i].labels);
    }
  }

  predicate Before(e: Entry, f: Entry) {
    Less(e.labels, f.labels)
  }

  lemma MembersOfIndex(es: seq<Entry>, m: map<Key, Var>, sc: Scheme, e: Entry)
    requires IsIndex(es, m, sc)
    ensures e in es <==> e.key in m && e == Entry(e.key, sc.text(e.key), m[e.key])
  {
    if e.key in m {
      assert Holds(es, e.key);
    }
  }

  /** Whatever the history, the slice is the map's entries in label order. */
  lemma IndexIsUnique(es: seq<Entry>, fs: seq<Entry>, m: map<Key, Var>, sc: Scheme)
    requires IsIndex(es, m, sc) && IsIndex(fs, m, sc)
    ensures es == fs
  {
    LessIsStrictOrder();
    forall e: Entry
      ensures e in es <==> e in fs
    {
      MembersOfIndex(es, m, sc, e);
      MembersOfIndex(fs, m, sc, e);
    }
    IncreasingIsUnique(es, fs, Before);
  }

  // ---- Edits at the position binary search finds ----

  ghost predicate Below(es: seq<Entry>, ls: string, i: int)
    requires i <= |es|
  {
    forall j :: 0 <= j < i ==> Less(es[j].labels, ls)
  }

  ghost predicate NotBelow(es: seq<Entry>, ls: string, i: nat) {
    forall j :: i <= j < |es| ==> !Less(es[j].labels, ls)
  }

  lemma BelowUpTo(es: seq<Entry>, ls: string, h: nat)
    requires StrictlySorted(es) && h < |es| && Less(es[h].labels, ls)
    ensures Below(es, ls, h + 1)
  {
    forall k | 0 <= k < h
      ensures Less(es[k].labels, ls)
    {
      Transitive(es[k].labels, es[h].labels, ls);
    }
  }

  lemma NotBelowFrom(es: seq<Entry>, ls: string, h: nat)
    requires StrictlySorted(es) && h < |es| && !Less(es[h].labels, ls)
    ensures NotBelow(es, ls, h)
  {
    forall k | h < k < |es|
      ensures !Less(es[k].labels, ls)
    {
      if Less(es[k].labels, ls) {
        Transitive(es[h].labels, es[k].labels, ls);
      }
    }
  }

  /** `i` is the first position whose label is not below `ls`. */
  ghost predicate Position(es: seq<Entry>, ls: string, i: nat) {
    i <= |es| && Below(es, ls, i) && NotBelow(es, ls, i)
  }

  function Placed(es: seq<Entry>, i: nat, e: Entry): seq<Entry>
    requires i <= |es|
  {
    if i < |es| && es[i].key == e.key then es[i := es[i].(val := e.val)] else es[..i] + [e] + es[i..]
  }

  /** The key at the position is the key sought, or the key is not there at all. */
  lemma FoundIff(es: seq<Entry>, m: map<Key, Var>, sc: Scheme, key: Key, i: nat)
    requires IsIndex(es, m, sc) && key in sc.typed && Position(es, sc.text(key), i)
    ensures key in m <==> i < |es| && es[i].key == key
    ensures i < |es| && es[i].key != key ==> Less(sc.text(key), es[i].labels)
  {
    var ls := sc.text(key);
    if key in m {
      assert Holds(es, key);
      var j :| 0 <= j < |es| && es[j].key == key;
      Irreflexive(ls);
      assert j >= i;
    }
    if i < |es| && es[i].key != key {
      Total(es[i].labels, ls);
    }
  }

  lemma InsertSorted(es: seq<Entry>, i: nat, e: Entry)
    requires StrictlySorted(es) && Position(es, e.labels, i) && (i < |es| ==> Less(e.labels, es[i].labels))
    ensures StrictlySorted(es[..i] + [e] + es[i..])
  {
    forall j | i <= j < |es|
      ensures Less(e.labels, es[j].labels)
    {
      if i < j {
        Transitive(e.labels, es[i].labels, es[j].labels);
      }
    }
  }

  lemma InsertAgrees(es: seq<Entry>, m: map<Key, Var>, i: nat, e: Entry)
    requires Agrees(es, m) && i <= |es| && e.key !in m
    ensures Agrees(es[..i] + [e] + es[i..], m[e.key := e.val])
  {
    var fs := es[..i] + [e] + es[i..];
    assert fs[i] == e;
    forall k | k in m
      ensures Holds(fs, k)
    {
      assert Holds(es, k);
      var j :| 0 <= j < |es| && es[j].key == k;
      assert fs[if j < i then j else j + 1] == es[j];
    }
  }

  lemma ReplaceAgrees(es: seq<Entry>, m: map<Key, Var>, i: nat, val: Var)
    requires DistinctKeys(es) && Agrees(es, m) && i < |es|
    ensures Agrees(es[i := es[i].(val := val)], m[es[i].key := val])
  {
    var fs := es[i := es[i].(val := val)];
    forall k | k in m
      ensures Holds(fs, k)
    {
      assert Holds(es, k);
      var j :| 0 <= j < |es| && es[j].key == k;
      assert fs[j].key == k;
    }
  }

  lemma PlacedIsIndex(es: seq<Entry>, m: map<Key, Var>, sc: Scheme, i: nat, e: Entry)
    requires IsIndex(es, m, sc) && e.key in sc.typed && e.labels == sc.text(e.key)
    requires Position(es, e.labels, i)
    ensures IsIndex(Placed(es, i, e), m[e.key := e.val], sc)
  {
    FoundIff(es, m, sc, e.key, i);
    if i < |es| && es[i].key == e.key {
      IndexHasDistinctKeys(es, sc);
      ReplaceAgrees(es, m, i, e.val);
      ReplaceSorted(es, sc, i, e.val);
    } else {
      InsertSorted(es, i, e);
      InsertAgrees(es, m, i, e);
      InsertLabelled(es, sc, i, e);
    }
  }

  lemma ReplaceSorted(es: seq<Entry>, sc: Scheme, i: nat, val: Var)
    requires StrictlySorted(es) && Labelled(es, sc) && i < |es|
    ensures StrictlySorted(es[i := es[i].(val := val)]) && Labelled(es[i := es[i].(val := val)], sc)
  {
  }

  lemma InsertLabelled(es: seq<Entry>, sc: Scheme, i: nat, e: Entry)
    requires Labelled(es, sc) && i <= |es| && e.key in sc.typed && e.labels == sc.text(e.key)
    ensures Labelled(es[..i] + [e] + es[i..], sc)
  {
  }

  function Without(es: seq<Entry>, i: nat): (r: seq<Entry>)
    requires i < |es|
    ensures |r| == |es| - 1 && forall j :: 0 <= j < |r| ==> r[j] == es[if j < i then j else j + 1]
  {
    es[..i] + es[i + 1..]
  }

  lemma HeldWithout(es: seq<Entry>, i: nat, k: Key)
    requires i < |es| && Holds(es, k) && k != es[i].key
    ensures Holds(Without(es, i), k)
  {
    var j :| 0 <= j < |es| && es[j].key == k;
    assert Without(es, i)[if j < i then j else j - 1] == es[j];
  }

  lemma RemoveAgrees(es: seq<Entry>, m: map<Key, Var>, i: nat)
    requires DistinctKeys(es) && Agrees(es, m) && i < |es|
    ensures Agrees(Without(es, i), m - {es[i].key})
  {
    forall k | k in m && k != es[i].key
      ensures Holds(Without(es, i), k)
    {
      HeldWithout(es, i, k);
    }
  }

  lemma RemovedIsIndex(es: seq<Entry>, m: map<Key, Var>, sc: Scheme, i: nat)
    requires IsIndex(es, m, sc) && i < |es|
    ensures IsIndex(Without(es, i), m - {es[i].key}, sc)
  {
    IndexHasDistinctKeys(es, sc);
    RemoveAgrees(es, m, i);
  }

  /** Removing the key at the position, if it is the one sought, leaves the index of the map without the key. */
  lemma DeletedIsIndex(es: seq<Entry>, m: map<Key, Var>, sc: Scheme, key: Key, i: nat)
    requires IsIndex(es, m, sc) && key in sc.typed && Position(es, sc.text(key), i)
    ensures if i < |es| && es[i].key == key then IsIndex(Without(es, i), m - {key}, sc) else m - {key} == m
  {
    FoundIff(es, m, sc, key, i);
    if i < |es| && es[i].key == key {
      RemovedIsIndex(es, m, sc, i);
    }
  }

  /** The labelling of one struct type. */
  ghost function StructScheme(t: Struct, escape: Escape): Scheme {
    Scheme(k => if |t.names| == |k| then LabelString(t, k, escape) else [], iset k | HasType(t, k))
  }

  lemma SchemeIdentifies(t: Struct, escape: Escape)
    requires Code(escape)
    ensures Identifies(StructScheme(t, escape))
  {
    forall k, l | HasType(t, k) && HasType(t, l)
      ensures LabelString(t, k, escape) == LabelString(t, l, escape) ==> k == l
    {
      LabelsIdentify(t, k, l, escape);
    }
  }

  // ---- The variable itself ----

  class MultiLabelMap {
    const t: Struct
    const escape: Escape
    var sorted: seq<Entry>
    var m: map<Key, Var>

    ghost function LabelScheme(): Scheme {
      StructScheme(t, escape)
    }

    ghost predicate Valid()
      reads this
    {
      IsIndex(sorted, m, LabelScheme())
    }

    constructor (t: Struct, escape: Escape)
      requires Code(escape)
      ensures Valid() && m == map[] && this.t == t && this.escape == escape
    {
      this.t, this.escape := t, escape;
      sorted, m := [], map[];
      SchemeIdentifies(t, escape);
    }

    /** Binary search for the first label not below `ls`. */
    method Search(ls: string) returns (i: nat)
      requires StrictlySorted(sorted)
      ensures Position(sorted, ls, i)
    {
      i := 0;
      var j := |sorted|;
      while i < j
        invariant i <= j <= |sorted| && Below(sorted, ls, i) && NotBelow(sorted, ls, j)
      {
        var h := (i + j) / 2;
        if Less(sorted[h].labels, ls) {
          BelowUpTo(sorted, ls, h);
          i := h + 1;
        } else {
          NotBelowFrom(sorted, ls, h);
          j := h;
        }
      }
    }

    /** Appends, replaces or inserts, as the key at the position calls for. */
    method Place(i: nat, ent: Entry)
      requires i <= |sorted|
      modifies this`sorted
      ensures sorted == Placed(old(sorted), i, ent)
    {
      if i >= |sorted| {
        sorted := sorted + [ent];
      } else if sorted[i].key == ent.key {
        sorted := sorted[i := sorted[i].(val := ent.val)];
      } else {
        sorted := sorted[..i] + [ent] + sorted[i..];
      }
    }

    method AddKeyLocked(key: Key, val: Var)
      requires Valid() && HasType(t, key)
      modifies this`sorted
      ensures IsIndex(sorted, m[key := val], LabelScheme())
    {
      var ls := LabelString(t, key, escape);
      var ent := Entry(key, ls, val);
      var i := Search(ls);
      PlacedIsIndex(sorted, m, LabelScheme(), i, ent);
      Place(i, ent);
    }

    method Get(key: Key) returns (v: Var)
      ensures v == if key in m then m[key] else NilVar
    {
      v := if key in m then m[key] else NilVar;
    }

    method Set(key: Key, val: Var)
      requires Valid() && HasType(t, key)
      modifies this
      ensures Valid() && m == old(m)[key := val]
    {
      AddKeyLocked(key, val);
      m := m[key := val];
    }

    /** `fill` is the value the caller's constructor would give; it is used only for an absent or nil entry. */
    method GetOrFill(key: Key, fill: Var) returns (v: Var)
      requires Valid() && HasType(t, key)
      modifies this
      ensures Valid()
      ensures if key in old(m) && old(m)[key] != NilVar then v == old(m)[key] && m == old(m)
              else v == fill && m == old(m)[key := fill]
    {
      v := Get(key);
      if v != NilVar {
        return;
      }
      v := fill;
      AddKeyLocked(key, v);
      m := m[key := v];
    }

    method Delete(key: Key)
      requires Valid() && HasType(t, key)
      modifies this
      ensures Valid() && m == old(m) - {key}
    {
      var ls := LabelString(t, key, escape);
      var i := Search(ls);
      DeletedIsIndex(sorted, m, LabelScheme(), key, i);
      if i < |sorted| && sorted[i].key == key {
        sorted := sorted[..i] + sorted[i + 1..];
        m := m - {key};
      }
    }

    method Init()
      requires Valid()
      modifies this
      ensures Valid() && m == map[]
    {
      sorted, m := [], map[];
    }

    /** The entries handed to the callback, in order. */
    method Do() returns (visited: seq<(Key, Var)>)
      requires Valid()
      ensures VisitsEachOnce(visited, m, LabelScheme())
    {
      visited := Walk(sorted);
      IndexVisits(sorted, m, LabelScheme(), visited);
    }
  }

  method Walk(es: seq<Entry>) returns (visited: seq<(Key, Var)>)
    ensures |visited| == |es|
    ensures forall j :: 0 <= j < |es| ==> visited[j] == (es[j].key, es[j].val)
  {
    visited := [];
    for i := 0 to |es|
      invariant |visited| == i
      invariant forall j :: 0 <= j < i ==> visited[j] == (es[j].key, es[j].val)
    {
      visited := visited + [(es[i].key, es[i].val)];
    }
  }

  /** Each of the map's entries exactly once, in strictly increasing label order. */
  ghost predicate VisitsEachOnce(visited: seq<(Key, Var)>, m: map<Key, Var>, sc: Scheme) {
    && (forall i, j :: 0 <= i < j < |visited| ==> Less(sc.text(visited[i].0), sc.text(visited[j].0)))
    && (forall i, j :: 0 <= i < j < |visited| ==> visited[i].0 != visited[j].0)
    && (forall k :: k in m <==> exists i :: 0 <= i < |visited| && visited[i].0 == k)
    && (forall i :: 0 <= i < |visited| ==> visited[i].0 in m && m[visited[i].0] == visited[i].1)
  }

  lemma IndexVisits(es: seq<Entry>, m: map<Key, Var>, sc: Scheme, visited: seq<(Key, Var)>)
    requires IsIndex(es, m, sc) && |visited| == |es|
    requires forall j :: 0 <= j < |es| ==> visited[j] == (es[j].key, es[j].val)
    ensures VisitsEachOnce(visited, m, sc)
  {
    forall a, b | 0 <= a < b < |visited|
      ensures visited[a].0 != visited[b].0
    {
      Irreflexive(es[a].labels);
    }
    forall k | k in m
      ensures exists j :: 0 <= j < |visited| && visited[j].0 == k
    {
      assert Holds(es, k);
      var j :| 0 <= j < |es| && es[j].key == k;
      assert visited[j].0 == k;
    }
  }
}
