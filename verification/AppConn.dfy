/** The address tables of the app connector (appc/appconnector.go). */
module AppConn {
  import opened Bytes
  import opened Net
  import opened Order

  // ---- The order of addresses: width, then value, then zone ----

  function BitLen(a: Addr): nat {
    match a
    case NoAddr => 0
    case V4(_) => 32
    case V6(_, _) => 128
  }

  function Value(a: Addr): nat {
    match a
    case NoAddr => 0
    case V4(b) => GetBE(b)
    case V6(b, _) => GetBE(b)
  }

  function Zone(a: Addr): string {
    if a.V6? then a.zone else ""
  }

  predicate AddrLess(a: Addr, b: Addr) {
    if BitLen(a) != BitLen(b) then BitLen(a) < BitLen(b)
    else if Value(a) != Value(b) then Value(a) < Value(b)
    else Less(Zone(a), Zone(b))
  }

  lemma SameAddr(a: Addr, b: Addr)
    requires BitLen(a) == BitLen(b) && Value(a) == Value(b) && Zone(a) == Zone(b)
    ensures a == b
  {
    match a
    case NoAddr =>
    case V4(x) => GetThenPut(x); GetThenPut(b.v4);
    case V6(x, _) => GetThenPut(x); GetThenPut(b.v6);
  }

  /** Addresses neither of which is less are the same address. */
  lemma AddrTotal(a: Addr, b: Addr)
    ensures AddrLess(a, b) || a == b || AddrLess(b, a)
  {
    Total(Zone(a), Zone(b));
    if !AddrLess(a, b) && !AddrLess(b, a) {
      SameAddr(a, b);
    }
  }

  lemma AddrTransitive(a: Addr, b: Addr, c: Addr)
    requires AddrLess(a, b) && AddrLess(b, c)
    ensures AddrLess(a, c)
  {
    if BitLen(a) == BitLen(b) == BitLen(c) && Value(a) == Value(b) == Value(c) {
      Transitive(Zone(a), Zone(b), Zone(c));
    }
  }

  lemma AddrIrreflexive(a: Addr)
    ensures !AddrLess(a, a)
  {
    Irreflexive(Zone(a));
  }

  lemma AddrOrder()
    ensures WeakOrder(AddrLess)
  {
    forall a: Addr
      ensures !AddrLess(a, a)
    {
      AddrIrreflexive(a);
    }
    forall a: Addr, b: Addr, c: Addr | AddrLess(a, b) && AddrLess(b, c)
      ensures AddrLess(a, c)
    {
      AddrTransitive(a, b, c);
    }
    forall a: Addr, b: Addr, c: Addr | !AddrLess(b, a) && !AddrLess(c, b)
      ensures !AddrLess(c, a)
    {
      AddrTotal(a, b);
      AddrTotal(b, c);
    }
  }

  // ---- One list ----

  ghost predicate Ordered(list: seq<Addr>) {
    Increasing(list, AddrLess)
  }

  /** Binary search finds an address in an ordered list exactly when it is there. */
  method Search(list: seq<Addr>, addr: Addr) returns (found: bool)
    requires Ordered(list)
    ensures found <==> addr in list
  {
    var i, j := 0, |list|;
    while i < j
      invariant 0 <= i <= j <= |list|
      invariant forall k :: 0 <= k < i ==> AddrLess(list[k], addr)
      invariant forall k :: j <= k < |list| ==> !AddrLess(list[k], addr)
    {
      var h := (i + j) / 2;
      if AddrLess(list[h], addr) {
        Below(list, h, addr);
        i := h + 1;
      } else {
        Above(list, h, addr);
        j := h;
      }
    }
    found := i < |list| && !AddrLess(addr, list[i]);
    if i < |list| {
      AddrTotal(list[i], addr);
    }
    FoundAt(list, i, addr);
  }

  lemma FoundAt(list: seq<Addr>, i: nat, addr: Addr)
    requires Ordered(list) && i <= |list|
    requires forall k :: 0 <= k < i ==> AddrLess(list[k], addr)
    requires forall k :: i <= k < |list| ==> !AddrLess(list[k], addr)
    ensures addr in list <==> i < |list| && list[i] == addr
  {
    AddrIrreflexive(addr);
  }

  lemma Below(list: seq<Addr>, h: nat, addr: Addr)
    requires Ordered(list) && h < |list| && AddrLess(list[h], addr)
    ensures forall k :: 0 <= k <= h ==> AddrLess(list[k], addr)
  {
    forall k | 0 <= k < h
      ensures AddrLess(list[k], addr)
    {
      AddrTransitive(list[k], list[h], addr);
    }
  }

  lemma Above(list: seq<Addr>, h: nat, addr: Addr)
    requires Ordered(list) && h < |list| && !AddrLess(list[h], addr)
    ensures forall k :: h <= k < |list| ==> !AddrLess(list[k], addr)
  {
    forall k | h < k < |list|
      ensures !AddrLess(list[k], addr)
    {
      if AddrLess(list[k], addr) {
        AddrTransitive(list[h], list[k], addr);
      }
    }
  }

  /** Appending and sorting keeps the list strictly ordered exactly when the address is new. */
  lemma AddedIff(list: seq<Addr>, addr: Addr, r: seq<Addr>)
    requires Ordered(list) && SortResult(r, list + [addr], AddrLess)
    ensures Ordered(r) <==> addr !in list
    ensures forall a :: a in r <==> a in list || a == addr
  {
    var all := list + [addr];
    assert forall a :: a in r <==> a in multiset(r);
    assert forall a :: a in all <==> a in multiset(all);
    assert multiset(all) == multiset(list) + multiset{addr};
    if addr !in list {
      Unique(list);
      forall i, j | 0 <= i < j < |r|
        ensures AddrLess(r[i], r[j])
      {
        Twice(r, i, j);
        AddrTotal(r[i], r[j]);
      }
    } else {
      var k :| 0 <= k < |list| && list[k] == addr;
      assert multiset(list)[addr] > 0;
      assert multiset(r)[addr] == multiset(list)[addr] + 1;
      if Ordered(r) {
        Unique(r);
      }
    }
  }

  lemma {:induction false} Unique(list: seq<Addr>)
    requires Ordered(list)
    ensures forall a :: multiset(list)[a] <= 1
  {
    if list != [] {
      var rest, last := list[..|list| - 1], list[|list| - 1];
      Unique(rest);
      assert list == rest + [last];
      AddrIrreflexive(last);
      assert last !in rest;
    }
  }

  // ---- The tables ----

  type Domains = map<string, seq<Addr>>

  function Get(domains: Domains, d: string): seq<Addr> {
    if d in domains then domains[d] else []
  }

  ghost predicate AllOrdered(domains: Domains) {
    forall d :: d in domains ==> Ordered(domains[d])
  }

  datatype Prefix = Prefix(addr: Addr, bits: int)

  function WithoutZone(a: Addr): Addr {
    if a.V6? then a.(zone := "") else a
  }

  /** The single-address prefix; of the zero address there is none. */
  function HostPrefix(a: Addr): Prefix {
    Prefix(WithoutZone(a), if a == NoAddr then -1 else BitLen(a))
  }

  predicate IsSingleIP(p: Prefix) {
    p.addr != NoAddr && p.bits == BitLen(p.addr)
  }

  // ---- Reconfiguration, as the configured names (already lower-cased) determine it ----

  predicate IsWildcard(d: string) {
    "*." <= d
  }

  predicate IsName(d: string) {
    d != "" && !IsWildcard(d)
  }

  function Names(ds: seq<string>): set<string> {
    set i | 0 <= i < |ds| && IsName(ds[i]) :: ds[i]
  }

  function Wildcards(ds: seq<string>): seq<string> {
    if ds == [] then []
    else Wildcards(ds[..|ds| - 1]) + if IsWildcard(ds[|ds| - 1]) then [ds[|ds| - 1][2..]] else []
  }

  function Count(ds: seq<string>, d: string): nat {
    if ds == [] then 0 else Count(ds[..|ds| - 1], d) + if ds[|ds| - 1] == d then 1 else 0
  }

  type Suffix = (string, string) -> bool

  predicate Matches(wildcards: seq<string>, d: string, suffix: Suffix) {
    exists i :: 0 <= i < |wildcards| && suffix(d, wildcards[i])
  }

  function NamedList(was: Domains, ds: seq<string>, d: string): seq<Addr> {
    if Count(ds, d) == 1 then Get(was, d) else []
  }

  /** A configured name takes over its old list, but a second mention of it finds that list gone. */
  function Named(was: Domains, ds: seq<string>): Domains {
    map d | d in Names(ds) :: NamedList(was, ds, d)
  }

  /** The names that match a wildcard. */
  function Hits(rest: Domains, wildcards: seq<string>, suffix: Suffix): set<string> {
    set d | d in rest && Matches(wildcards, d, suffix)
  }

  function Only(rest: Domains, ds: set<string>): Domains {
    map d | d in rest && d in ds :: rest[d]
  }

  function Kept(was: Domains, ds: seq<string>, suffix: Suffix): Domains {
    Named(was, ds) + Only(was - Names(ds), Hits(was - Names(ds), Wildcards(ds), suffix))
  }

  function Removed(was: Domains, ds: seq<string>, suffix: Suffix): Domains {
    was - Names(ds) - Hits(was - Names(ds), Wildcards(ds), suffix)
  }

  function Lowered(names: seq<string>, lower: string -> string): seq<string> {
    seq(|names|, i requires 0 <= i < |names| => lower(names[i]))
  }

  lemma {:induction false} CountIff(ds: seq<string>, d: string)
    ensures Count(ds, d) > 0 <==> d in ds
    ensures d in Names(ds) <==> IsName(d) && d in ds
  {
    if d in ds && IsName(d) {
      var i :| 0 <= i < |ds| && ds[i] == d;
      assert ds[i] in Names(ds);
    }
    if ds != [] {
      CountIff(ds[..|ds| - 1], d);
      assert ds == ds[..|ds| - 1] + [ds[|ds| - 1]];
    }
  }

  lemma NamesSnoc(ds: seq<string>, d: string)
    ensures Names(ds + [d]) == Names(ds) + if IsName(d) then {d} else {}
  {
    forall x: string
      ensures x in Names(ds + [d]) <==> x in Names(ds) || (IsName(d) && x == d)
    {
      CountIff(ds + [d], x);
      CountIff(ds, x);
    }
  }

  /**
   * Every old list is kept unchanged under its name or removed whole, never both; except that a
   * name configured more than once loses its list.
   */
  lemma EachListOnce(was: Domains, ds: seq<string>, suffix: Suffix, d: string)
    requires d in was
    ensures var kept, removed := Kept(was, ds, suffix), Removed(was, ds, suffix);
            && !(d in kept && d in removed)
            && (d in removed ==> removed[d] == was[d])
            && ((d in kept && kept[d] == was[d]) || d in removed
                <==> !(IsName(d) && Count(ds, d) > 1 && was[d] != []))
  {
    CountIff(ds, d);
  }

  /** A name given twice, for instance in two capitalisations, forgets its addresses without unadvertising them. */
  lemma RepeatedNameIsLost(a: Addr, suffix: Suffix)
    ensures var was: Domains := map["x.io" := [a]];
            && Get(Kept(was, ["x.io", "x.io"], suffix), "x.io") == []
            && "x.io" !in Removed(was, ["x.io", "x.io"], suffix)
  {
    var d := "x.io";
    var ds, one := [d, d], [d];
    assert ds[..1] == one && one[..0] == [];
    assert Count(one, d) == 1;
    assert Count(ds, d) == 2;
    assert d[0] == 'x' && "*."[0] == '*';
    CountIff(ds, d);
  }

  /** No prefix of a removed list is that of an address still listed under a kept name. */
  ghost predicate NothingShared(kept: Domains, removed: Domains) {
    forall d, e, a, b :: d in removed && e in kept && a in removed[d] && b in kept[e] ==> HostPrefix(a) != HostPrefix(b)
  }

  /** No two names list addresses with the same prefix. */
  ghost predicate Disjoint(was: Domains) {
    forall d, e, a, b :: d in was && e in was && d != e && a in was[d] && b in was[e] ==> HostPrefix(a) != HostPrefix(b)
  }

  /** None of the prefixes is that of a listed address. */
  ghost predicate Spares(domains: Domains, prefixes: seq<Prefix>) {
    forall e, b :: e in domains && b in domains[e] ==> HostPrefix(b) !in prefixes
  }

  /** The prefixes are those of the addresses in the lists. */
  ghost predicate Hosts(left: Domains, prefixes: seq<Prefix>) {
    forall p :: p in prefixes <==> exists d, a :: d in left && a in left[d] && p == HostPrefix(a)
  }

  /** What a reconfiguration to ds may unadvertise: nothing at all without stored routes. */
  ghost predicate Unadvertised(was: Domains, hasStoredRoutes: bool, ds: seq<string>, suffix: Suffix, prefixes: seq<Prefix>) {
    if hasStoredRoutes then Hosts(Removed(was, ds, suffix), prefixes) else prefixes == []
  }

  /** Names that can be configured: they are in lower case, and neither empty nor wildcards. */
  ghost predicate Configurable(domains: Domains, lower: string -> string) {
    forall d :: d in domains ==> IsName(d) && lower(d) == d
  }

  lemma KeptConfigurable(was: Domains, names: seq<string>, lower: string -> string, suffix: Suffix)
    requires Configurable(was, lower) && forall d :: lower(lower(d)) == lower(d)
    ensures Configurable(Kept(was, Lowered(names, lower), suffix), lower)
  {
    var ds := Lowered(names, lower);
    forall d | d in Kept(was, ds, suffix)
      ensures IsName(d) && lower(d) == d
    {
      if d in Names(ds) {
        CountIff(ds, d);
        var i :| 0 <= i < |ds| && ds[i] == d;
        assert d == lower(names[i]);
      }
    }
  }

  /** The address is no longer listed under d, and its prefix is not unadvertised. */
  ghost predicate Forgotten(kept: Domains, prefixes: seq<Prefix>, d: string, a: Addr) {
    a !in Get(kept, d) && HostPrefix(a) !in prefixes
  }

  ghost predicate ListsPrefix(domains: Domains, p: Prefix) {
    exists e, b :: e in domains && b in domains[e] && p == HostPrefix(b)
  }

  /**
   * A reconfiguration forgets an address without unadvertising it if and only if its name is configured more than
   * once, and no name removed with stored routes lists the same prefix; or its name is removed without stored routes.
   */
  lemma ForgottenIff(was: Domains, hasStoredRoutes: bool, ds: seq<string>, suffix: Suffix, prefixes: seq<Prefix>,
                     d: string, a: Addr)
    requires d in was && a in was[d] && Unadvertised(was, hasStoredRoutes, ds, suffix, prefixes)
    ensures var removed := Removed(was, ds, suffix);
            Forgotten(Kept(was, ds, suffix), prefixes, d, a)
            <==> if IsName(d) && Count(ds, d) > 1 then !(hasStoredRoutes && ListsPrefix(removed, HostPrefix(a)))
                 else d in removed && !hasStoredRoutes
  {
    ListFate(was, ds, suffix, d);
    if d in Removed(was, ds, suffix) {
      assert ListsPrefix(Removed(was, ds, suffix), HostPrefix(a));
    }
  }

  /** A repeated name keeps nothing; any other keeps its list, unless it is removed. */
  lemma ListFate(was: Domains, ds: seq<string>, suffix: Suffix, d: string)
    requires d in was
    ensures var kept, removed := Kept(was, ds, suffix), Removed(was, ds, suffix);
            if IsName(d) && Count(ds, d) > 1 then Get(kept, d) == [] && d !in removed
            else if d in removed then removed[d] == was[d] && Get(kept, d) == []
            else Get(kept, d) == was[d]
  {
    CountIff(ds, d);
  }

  /** Without stored routes, configuring nothing forgets every address. */
  lemma NothingConfigured(a: Addr, suffix: Suffix, prefixes: seq<Prefix>)
    requires Unadvertised(map["a.io" := [a]], false, [], suffix, prefixes)
    ensures Forgotten(Kept(map["a.io" := [a]], [], suffix), prefixes, "a.io", a)
  {
    var was: Domains := map["a.io" := [a]];
    assert Count([], "a.io") == 0;
    CountIff([], "a.io");
    assert Wildcards([]) == [];
    ForgottenIff(was, false, [], suffix, prefixes, "a.io", a);
  }

  lemma SomeHosts(left: Domains) returns (prefixes: seq<Prefix>)
    ensures Hosts(left, prefixes)
    decreases |left|
  {
    if left == map[] {
      prefixes := [];
    } else {
      var d :| d in left;
      var more := SomeHosts(left - {d});
      prefixes := more + seq(|left[d]|, i requires 0 <= i < |left[d]| => HostPrefix(left[d][i]));
      forall p
        ensures p in prefixes <==> exists e, a :: e in left && a in left[e] && p == HostPrefix(a)
      {
        if e, a :| e in left && a in left[e] && p == HostPrefix(a) {
          if e == d {
            var i :| 0 <= i < |left[d]| && left[d][i] == a;
            assert prefixes[|more| + i] == p;
          } else {
            assert e in left - {d};
          }
        }
      }
    }
  }

  /** Configuring only e keeps e's list and removes every other one. */
  lemma OnlyOneKept(was: Domains, suffix: Suffix, d: string, e: string)
    requires d in was && e in was && d != e && IsName(e)
    ensures d in Removed(was, [e], suffix) && Removed(was, [e], suffix)[d] == was[d]
    ensures e in Kept(was, [e], suffix) && Kept(was, [e], suffix)[e] == was[e]
  {
    var ds := [e];
    assert ds[..0] == [];
    assert Count(ds, e) == 1;
    CountIff(ds, e);
    CountIff(ds, d);
    assert Wildcards(ds) == [];
  }

  /** With stored routes, configuring one of two names that share a prefix unadvertises it. */
  lemma SharedIsUnadvertised(was: Domains, lower: string -> string, suffix: Suffix, d: string, e: string, a: Addr, b: Addr,
                             prefixes: seq<Prefix>)
    requires d in was && e in was && d != e && a in was[d] && b in was[e] && HostPrefix(a) == HostPrefix(b)
    requires IsName(e) && lower(e) == e && Unadvertised(was, true, Lowered([e], lower), suffix, prefixes)
    ensures HostPrefix(b) in prefixes && b in Get(Kept(was, Lowered([e], lower), suffix), e)
    ensures !Spares(Kept(was, Lowered([e], lower), suffix), prefixes)
  {
    assert Lowered([e], lower) == [e];
    OnlyOneKept(was, suffix, d, e);
    assert a in Removed(was, [e], suffix)[d];
  }

  /** Prefixes carry no zone, so two addresses that differ in their zones only share one. */
  lemma ZonesAreDropped(x: Bytes16, suffix: Suffix, prefixes: seq<Prefix>)
    requires Unadvertised(map["a.io" := [V6(x, "eth0")], "b.io" := [V6(x, "eth1")]], true, ["b.io"], suffix, prefixes)
    ensures var was: Domains := map["a.io" := [V6(x, "eth0")], "b.io" := [V6(x, "eth1")]];
            !Spares(Kept(was, ["b.io"], suffix), prefixes)
  {
    var was: Domains := map["a.io" := [V6(x, "eth0")], "b.io" := [V6(x, "eth1")]];
    assert "a.io"[0] == 'a' && "b.io"[0] == 'b' && "*."[0] == '*';
    assert Lowered(["b.io"], c => c) == ["b.io"];
    SharedIsUnadvertised(was, c => c, suffix, "a.io", "b.io", V6(x, "eth0"), V6(x, "eth1"), prefixes);
  }

  /** No reconfiguration unadvertises a prefix that is still in use. */
  ghost predicate AlwaysSpares(was: Domains, hasStoredRoutes: bool, lower: string -> string, suffix: Suffix) {
    forall names, prefixes :: Unadvertised(was, hasStoredRoutes, Lowered(names, lower), suffix, prefixes) ==>
      Spares(Kept(was, Lowered(names, lower), suffix), prefixes)
  }

  /**
   * Every reconfiguration spares the prefixes still in use if and only if routes are not stored
   * or no two names share a prefix: a prefix is unadvertised with one name even if another name
   * keeps an address of it.
   */
  lemma RemovalIsSafeIff(was: Domains, hasStoredRoutes: bool, lower: string -> string, suffix: Suffix)
    requires Configurable(was, lower)
    ensures AlwaysSpares(was, hasStoredRoutes, lower, suffix) <==> !hasStoredRoutes || Disjoint(was)
  {
    if !hasStoredRoutes || Disjoint(was) {
      SafeSpares(was, hasStoredRoutes, lower, suffix);
    } else {
      var d, e, a, b :| d in was && e in was && d != e && a in was[d] && b in was[e] && HostPrefix(a) == HostPrefix(b);
      SharedBreaks(was, lower, suffix, d, e, a, b);
    }
  }

  lemma SafeSpares(was: Domains, hasStoredRoutes: bool, lower: string -> string, suffix: Suffix)
    requires !hasStoredRoutes || Disjoint(was)
    ensures AlwaysSpares(was, hasStoredRoutes, lower, suffix)
  {
    forall names, prefixes | Unadvertised(was, hasStoredRoutes, Lowered(names, lower), suffix, prefixes)
      ensures Spares(Kept(was, Lowered(names, lower), suffix), prefixes)
    {
      UnadvertisedSpares(was, hasStoredRoutes, Lowered(names, lower), suffix, prefixes);
    }
  }

  lemma SharedBreaks(was: Domains, lower: string -> string, suffix: Suffix, d: string, e: string, a: Addr, b: Addr)
    requires d in was && e in was && d != e && a in was[d] && b in was[e] && HostPrefix(a) == HostPrefix(b)
    requires IsName(e) && lower(e) == e
    ensures !AlwaysSpares(was, true, lower, suffix)
  {
    var prefixes := SomeHosts(Removed(was, Lowered([e], lower), suffix));
    SharedIsUnadvertised(was, lower, suffix, d, e, a, b, prefixes);
  }

  lemma UnadvertisedSpares(was: Domains, hasStoredRoutes: bool, ds: seq<string>, suffix: Suffix, prefixes: seq<Prefix>)
    requires Unadvertised(was, hasStoredRoutes, ds, suffix, prefixes) && (!hasStoredRoutes || Disjoint(was))
    ensures Spares(Kept(was, ds, suffix), prefixes)
  {
    if hasStoredRoutes {
      DisjointIsSafe(was, ds, suffix);
      SparesIff(Kept(was, ds, suffix), Removed(was, ds, suffix), prefixes);
    }
  }

  lemma DisjointIsSafe(was: Domains, ds: seq<string>, suffix: Suffix)
    requires Disjoint(was)
    ensures NothingShared(Kept(was, ds, suffix), Removed(was, ds, suffix))
  {
    KeptIsOld(was, ds, suffix);
  }

  lemma SparesIff(kept: Domains, removed: Domains, prefixes: seq<Prefix>)
    requires Hosts(removed, prefixes)
    ensures Spares(kept, prefixes) <==> NothingShared(kept, removed)
  {
    if NothingShared(kept, removed) {
      forall e, b | e in kept && b in kept[e]
        ensures HostPrefix(b) !in prefixes
      {
      }
    }
    if Spares(kept, prefixes) {
      forall d, e, a, b | d in removed && e in kept && a in removed[d] && b in kept[e]
        ensures HostPrefix(a) != HostPrefix(b)
      {
        assert HostPrefix(a) in prefixes;
      }
    }
  }

  lemma KeptIsOld(was: Domains, ds: seq<string>, suffix: Suffix)
    ensures forall e, a :: e in Kept(was, ds, suffix) && a in Kept(was, ds, suffix)[e] ==>
              e in was && a in was[e] && e !in Removed(was, ds, suffix)
  {
  }

  // ---- The connector ----

  class AppConnector {
    const hasStoredRoutes: bool
    const lower: string -> string
    const suffix: Suffix
    const contains: (Prefix, Addr) -> bool
    var domains: Domains
    var wildcards: seq<string>
    var controlRoutes: seq<Prefix>

    /** Every list is strictly ordered, so binary search decides membership. */
    ghost predicate Valid()
      reads this
    {
      AllOrdered(domains)
    }

    constructor (stored: Domains, wildcards: seq<string>, controlRoutes: seq<Prefix>, hasStoredRoutes: bool,
                 lower: string -> string, suffix: Suffix, contains: (Prefix, Addr) -> bool)
      requires AllOrdered(stored)
      ensures Valid() && domains == stored && this.wildcards == wildcards && this.controlRoutes == controlRoutes
      ensures this.hasStoredRoutes == hasStoredRoutes && this.lower == lower && this.suffix == suffix && this.contains == contains
    {
      this.hasStoredRoutes, this.lower, this.suffix, this.contains := hasStoredRoutes, lower, suffix, contains;
      domains, this.wildcards, this.controlRoutes := stored, wildcards, controlRoutes;
    }

    method HasDomainAddr(domain: string, addr: Addr) returns (has: bool)
      requires Valid()
      ensures has <==> addr in Get(domains, domain)
    {
      has := Search(Get(domains, domain), addr);
    }

    /** Does not look for the address first; a caller that has not would break the order. */
    method AddDomainAddr(domain: string, addr: Addr)
      requires Valid()
      modifies this`domains
      ensures domain in domains && domains == old(domains)[domain := domains[domain]]
      ensures forall a :: a in domains[domain] <==> a in Get(old(domains), domain) || a == addr
      ensures Valid() <==> addr !in Get(old(domains), domain)
    {
      AddrOrder();
      var list := Get(domains, domain);
      var sorted := Sort(list + [addr], AddrLess);
      AddedIff(list, addr, sorted);
      domains := domains[domain := sorted];
    }

    ghost predicate Covered(addr: Addr)
      reads this
    {
      exists i :: 0 <= i < |controlRoutes| && contains(controlRoutes[i], addr)
    }

    /** Known means listed or covered by a control route; an address found covered becomes listed. */
    method IsAddrKnown(domain: string, addr: Addr) returns (known: bool)
      requires Valid()
      modifies this`domains
      ensures Valid()
      ensures known <==> addr in Get(old(domains), domain) || Covered(addr)
      ensures !known ==> domains == old(domains)
      ensures known ==> forall a :: a in Get(domains, domain) <==> a in Get(old(domains), domain) || a == addr
      ensures forall d :: d != domain ==> (d in domains <==> d in old(domains)) && Get(domains, d) == Get(old(domains), d)
    {
      var has := HasDomainAddr(domain, addr);
      if has {
        return true;
      }
      for i := 0 to |controlRoutes|
        invariant domains == old(domains)
        invariant forall j :: 0 <= j < i ==> !contains(controlRoutes[j], addr)
      {
        if contains(controlRoutes[i], addr) {
          AddDomainAddr(domain, addr);
          assert contains(controlRoutes[i], addr);
          return true;
        }
      }
      return false;
    }

    /** The queued job, after `advertised` tells whether the advertisement went through. */
    method Advertised(domain: string, routes: seq<Prefix>, advertised: bool)
      requires Valid()
      modifies this`domains
      ensures Valid()
      ensures !advertised ==> domains == old(domains)
      ensures advertised ==> forall a :: a in Get(domains, domain) <==>
                a in Get(old(domains), domain) || exists i :: 0 <= i < |routes| && IsSingleIP(routes[i]) && routes[i].addr == a
      ensures forall d :: d != domain ==> (d in domains <==> d in old(domains)) && Get(domains, d) == Get(old(domains), d)
    {
      if !advertised {
        return;
      }
      for n := 0 to |routes|
        invariant Valid()
        invariant forall a :: a in Get(domains, domain) <==>
                    a in Get(old(domains), domain) || exists i :: 0 <= i < n && IsSingleIP(routes[i]) && routes[i].addr == a
        invariant forall d :: d != domain ==> (d in domains <==> d in old(domains)) && Get(domains, d) == Get(old(domains), d)
      {
        if IsSingleIP(routes[n]) {
          var has := HasDomainAddr(domain, routes[n].addr);
          if !has {
            AddDomainAddr(domain, routes[n].addr);
          }
        }
      }
    }
  
    /** Takes over the lists of the configured names; what is left of the old table is returned. */
    method TakeNames(names: seq<string>) returns (rest: Domains)
      modifies this`domains, this`wildcards
      ensures var ds := Lowered(names, lower);
              && domains == Named(old(domains), ds) && wildcards == Wildcards(ds)
              && rest == old(domains) - Names(ds)
    {
      ghost var ds := Lowered(names, lower);
      assert ds[..0] == [];
      rest := domains;
      domains, wildcards := map[], [];
      for n := 0 to |names|
        invariant domains == Named(old(domains), ds[..n]) && wildcards == Wildcards(ds[..n])
        invariant rest == old(domains) - Names(ds[..n])
      {
        var d := lower(names[n]);
        assert ds[..n + 1] == ds[..n] + [d];
        NamedSnoc(old(domains), ds[..n], d);
        RestSnoc(old(domains), ds[..n], d);
        if |d| == 0 {
        } else if IsWildcard(d) {
          wildcards := wildcards + [d[2..]];
        } else {
          domains := domains[d := Get(rest, d)];
          rest := rest - {d};
        }
      }
      assert ds[..|names|] == ds;
    }

    /** Moves back the lists whose name matches a wildcard, in whatever order the map yields them. */
    method KeepMatching(rest: Domains) returns (left: Domains)
      modifies this`domains
      ensures domains == old(domains) + Only(rest, Hits(rest, wildcards, suffix))
      ensures left == rest - Hits(rest, wildcards, suffix)
    {
      left := rest;
      var todo := rest.Keys;
      ghost var moved: set<string> := {};
      NoneMoved(domains, rest);
      while todo != {}
        invariant Sorted(rest, wildcards, suffix, todo, moved)
        invariant left == rest - moved && domains == old(domains) + Only(rest, moved)
        decreases |todo|
      {
        var d :| d in todo;
        var hit := AnySuffix(d);
        if hit {
          OneMoved(old(domains), rest, moved, d);
          domains := domains[d := left[d]];
          left := left - {d};
          moved := moved + {d};
        }
        todo := todo - {d};
      }
      AllSorted(rest, wildcards, suffix, moved);
    }

    method AnySuffix(d: string) returns (hit: bool)
      ensures hit == Matches(wildcards, d, suffix)
    {
      for i := 0 to |wildcards|
        invariant forall j :: 0 <= j < i ==> !suffix(d, wildcards[j])
      {
        if suffix(d, wildcards[i]) {
          return true;
        }
      }
      return false;
    }

    /** `toRemove` is what is unadvertised. */
    method UpdateDomains(names: seq<string>) returns (toRemove: seq<Prefix>)
      requires Valid()
      modifies this`domains, this`wildcards
      ensures Valid()
      ensures var ds := Lowered(names, lower);
              && domains == Kept(old(domains), ds, suffix) && wildcards == Wildcards(ds)
              && Unadvertised(old(domains), hasStoredRoutes, ds, suffix, toRemove)
      ensures !hasStoredRoutes || Disjoint(old(domains)) ==> Spares(domains, toRemove)
    {
      ghost var ds := Lowered(names, lower);
      KeptOrdered(domains, ds, suffix);
      ghost var was := domains;
      var rest := TakeNames(names);
      var left := KeepMatching(rest);
      toRemove := [];
      if hasStoredRoutes {
        toRemove := HostPrefixes(left);
      }
      if !hasStoredRoutes || Disjoint(was) {
        UnadvertisedSpares(was, hasStoredRoutes, ds, suffix, toRemove);
      }
    }
  }

  /** Of the names looked at, exactly those that match have been moved. */
  ghost predicate Sorted(rest: Domains, wildcards: seq<string>, suffix: Suffix, todo: set<string>, moved: set<string>) {
    && todo <= rest.Keys && moved <= rest.Keys && moved !! todo
    && forall d :: d in rest && d !in todo ==> (d in moved <==> Matches(wildcards, d, suffix))
  }

  lemma AllSorted(rest: Domains, wildcards: seq<string>, suffix: Suffix, moved: set<string>)
    requires Sorted(rest, wildcards, suffix, {}, moved)
    ensures moved == Hits(rest, wildcards, suffix)
  {
  }

  lemma NoneMoved(base: Domains, rest: Domains)
    ensures rest - {} == rest && base + Only(rest, {}) == base
  {
  }

  lemma OneMoved(base: Domains, rest: Domains, moved: set<string>, d: string)
    requires d in rest && d !in moved
    ensures (base + Only(rest, moved))[d := (rest - moved)[d]] == base + Only(rest, moved + {d})
    ensures rest - moved - {d} == rest - (moved + {d})
  {
    assert Only(rest, moved + {d}) == Only(rest, moved)[d := rest[d]];
  }

  lemma KeptOrdered(was: Domains, ds: seq<string>, suffix: Suffix)
    requires AllOrdered(was)
    ensures AllOrdered(Kept(was, ds, suffix))
  {
  }

  lemma CountSnoc(ds: seq<string>, d: string, x: string)
    ensures Count(ds + [d], x) == Count(ds, x) + if x == d then 1 else 0
  {
    assert (ds + [d])[..|ds|] == ds;
  }

  /** One more mention of d: of d itself, its list if this is the first; of any other name, what it had. */
  lemma NamedListSnoc(was: Domains, ds: seq<string>, d: string, x: string)
    ensures x != d ==> NamedList(was, ds + [d], x) == NamedList(was, ds, x)
    ensures IsName(d) ==> NamedList(was, ds + [d], d) == Get(was - Names(ds), d)
  {
    CountSnoc(ds, d, x);
    CountSnoc(ds, d, d);
    CountIff(ds, d);
  }

  lemma NamedSnoc(was: Domains, ds: seq<string>, d: string)
    ensures Named(was, ds + [d]) ==
            if IsName(d) then Named(was, ds)[d := Get(was - Names(ds), d)] else Named(was, ds)
  {
    NamesSnoc(ds, d);
    var next := if IsName(d) then Named(was, ds)[d := Get(was - Names(ds), d)] else Named(was, ds);
    forall x | x in Names(ds + [d])
      ensures Named(was, ds + [d])[x] == next[x]
    {
      NamedListSnoc(was, ds, d, x);
      CountIff(ds + [d], x);
    }
  }

  lemma RestSnoc(was: Domains, ds: seq<string>, d: string)
    ensures Wildcards(ds + [d]) == Wildcards(ds) + if IsWildcard(d) then [d[2..]] else []
    ensures was - Names(ds + [d]) == if IsName(d) then was - Names(ds) - {d} else was - Names(ds)
  {
    assert (ds + [d])[..|ds|] == ds;
    NamesSnoc(ds, d);
  }

  method HostPrefixes(left: Domains) returns (prefixes: seq<Prefix>)
    ensures Hosts(left, prefixes)
  {
    prefixes := [];
    var todo := left.Keys;
    while todo != {}
      invariant todo <= left.Keys
      invariant forall p :: p in prefixes <==> exists d, a :: d in left && d !in todo && a in left[d] && p == HostPrefix(a)
      decreases |todo|
    {
      var d :| d in todo;
      for i := 0 to |left[d]|
        invariant forall p :: p in prefixes <==>
                    (exists e, a :: e in left && e !in todo && a in left[e] && p == HostPrefix(a))
                    || (exists j :: 0 <= j < i && p == HostPrefix(left[d][j]))
      {
        prefixes := prefixes + [HostPrefix(left[d][i])];
      }
      todo := todo - {d};
    }
  }
}
