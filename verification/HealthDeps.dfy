/**
 * Dependency suppression (health/state.go): which unhealthy warnables are reported when others
 * they depend on are unhealthy too.
 */
module HealthDeps {
  import opened Health

  type Deps = Warnable -> seq<Warnable>

  /** An acyclic dependency relation, by a numbering that decreases along every dependency. */
  ghost predicate Ranked(deps: Deps, rank: Warnable -> nat) {
    forall w, d :: d in deps(w) ==> rank(d) < rank(w)
  }

  /** The source's recursion: healthy, or some dependency is not effectively healthy. */
  predicate EffectivelyHealthy(unhealthy: set<Warnable>, deps: Deps, w: Warnable, ghost rank: Warnable -> nat)
    requires Ranked(deps, rank)
    decreases rank(w)
  {
    w !in unhealthy || exists d :: d in deps(w) && !EffectivelyHealthy(unhealthy, deps, d, rank)
  }

  ghost function Kernel(unhealthy: set<Warnable>, deps: Deps, rank: Warnable -> nat): set<Warnable>
    requires Ranked(deps, rank)
  {
    set w | w in unhealthy && !EffectivelyHealthy(unhealthy, deps, w, rank)
  }

  ghost predicate HasDepIn(deps: Deps, w: Warnable, k: set<Warnable>) {
    exists d :: d in deps(w) && d in k
  }

  /** No member depends directly on another; every other unhealthy warnable depends directly on one. */
  ghost predicate IsKernel(unhealthy: set<Warnable>, deps: Deps, k: set<Warnable>) {
    k <= unhealthy && forall w :: w in unhealthy ==> (w in k <==> !HasDepIn(deps, w, k))
  }

  /** What the recursion calls effectively unhealthy is a kernel of the dependency graph. */
  lemma KernelIsKernel(unhealthy: set<Warnable>, deps: Deps, rank: Warnable -> nat)
    requires Ranked(deps, rank)
    ensures IsKernel(unhealthy, deps, Kernel(unhealthy, deps, rank))
  {
    var k := Kernel(unhealthy, deps, rank);
    forall w | w in unhealthy
      ensures w in k <==> !HasDepIn(deps, w, k)
    {
      if w !in k {
        var d :| d in deps(w) && !EffectivelyHealthy(unhealthy, deps, d, rank);
        assert d in k;
      } else {
        forall d | d in deps(w)
          ensures d !in k
        {
          assert EffectivelyHealthy(unhealthy, deps, d, rank);
        }
      }
    }
  }

  /** It is the only one, so the order in which dependencies are listed cannot matter. */
  lemma KernelIsUnique(unhealthy: set<Warnable>, deps: Deps, rank: Warnable -> nat, k: set<Warnable>)
    requires Ranked(deps, rank) && IsKernel(unhealthy, deps, k)
    ensures k == Kernel(unhealthy, deps, rank)
  {
    KernelIsKernel(unhealthy, deps, rank);
    forall w | w in unhealthy
      ensures w in k <==> w in Kernel(unhealthy, deps, rank)
    {
      KernelsAgree(unhealthy, deps, rank, k, Kernel(unhealthy, deps, rank), w);
    }
  }

  lemma {:induction false} KernelsAgree(unhealthy: set<Warnable>, deps: Deps, rank: Warnable -> nat,
                                        a: set<Warnable>, b: set<Warnable>, w: Warnable)
    requires Ranked(deps, rank) && IsKernel(unhealthy, deps, a) && IsKernel(unhealthy, deps, b)
    ensures w in a <==> w in b
    decreases rank(w)
  {
    forall d | d in deps(w)
      ensures d in a <==> d in b
    {
      KernelsAgree(unhealthy, deps, rank, a, b, d);
    }
    assert HasDepIn(deps, w, a) <==> HasDepIn(deps, w, b);
  }

  lemma {:induction false} LeastRanked(unhealthy: set<Warnable>, rank: Warnable -> nat) returns (w: Warnable)
    requires unhealthy != {}
    ensures w in unhealthy && forall v :: v in unhealthy ==> rank(w) <= rank(v)
    decreases |unhealthy|
  {
    w :| w in unhealthy;
    var rest := unhealthy - {w};
    if rest != {} {
      var u := LeastRanked(rest, rank);
      if rank(u) < rank(w) {
        w := u;
      }
    }
  }

  /** Suppression never hides everything: something unhealthy is always effectively unhealthy. */
  lemma SomethingRemains(unhealthy: set<Warnable>, deps: Deps, rank: Warnable -> nat)
    requires Ranked(deps, rank)
    ensures Kernel(unhealthy, deps, rank) == {} <==> unhealthy == {}
  {
    if unhealthy != {} {
      var w := LeastRanked(unhealthy, rank);
      assert forall d :: d in deps(w) ==> EffectivelyHealthy(unhealthy, deps, d, rank);
      assert w in Kernel(unhealthy, deps, rank);
    }
  }

  /** The unhealthy warnables with no unhealthy direct dependency. */
  ghost function Roots(unhealthy: set<Warnable>, deps: Deps): set<Warnable> {
    set w | w in unhealthy && !HasDepIn(deps, w, unhealthy)
  }

  ghost predicate TransitivelyClosed(deps: Deps) {
    forall w, d, e :: d in deps(w) && e in deps(d) ==> e in deps(w)
  }

  /**
   * Only the roots are reported exactly when every other unhealthy warnable depends directly on a
   * root.
   */
  lemma RootsIffDirect(unhealthy: set<Warnable>, deps: Deps, rank: Warnable -> nat)
    requires Ranked(deps, rank)
    ensures Kernel(unhealthy, deps, rank) == Roots(unhealthy, deps)
       <==> forall w :: w in unhealthy && w !in Roots(unhealthy, deps) ==> HasDepIn(deps, w, Roots(unhealthy, deps))
  {
    var k, roots := Kernel(unhealthy, deps, rank), Roots(unhealthy, deps);
    KernelIsKernel(unhealthy, deps, rank);
    if forall w :: w in unhealthy && w !in roots ==> HasDepIn(deps, w, roots) {
      forall w | w in roots
        ensures !HasDepIn(deps, w, roots)
      {
        assert forall d :: d in deps(w) && d in roots ==> d in unhealthy;
      }
      KernelIsUnique(unhealthy, deps, rank, roots);
    }
  }

  /** A transitively closed relation meets that condition. */
  lemma ClosedReportsRoots(unhealthy: set<Warnable>, deps: Deps, rank: Warnable -> nat)
    requires Ranked(deps, rank) && TransitivelyClosed(deps)
    ensures Kernel(unhealthy, deps, rank) == Roots(unhealthy, deps)
  {
    forall w | w in unhealthy && w !in Roots(unhealthy, deps)
      ensures HasDepIn(deps, w, Roots(unhealthy, deps))
    {
      var down := set d | d in deps(w) && d in unhealthy;
      assert down != {} by {
        var d :| d in deps(w) && d in unhealthy;
        assert d in down;
      }
      var d := LeastRanked(down, rank);
      assert forall e :: e in deps(d) ==> rank(e) < rank(d) && (e in unhealthy ==> e in down);
      assert d in Roots(unhealthy, deps);
    }
    RootsIffDirect(unhealthy, deps, rank);
  }

  /** Without closure a chain a -> b -> c, all unhealthy, reports a although its dependency b is unhealthy. */
  lemma ChainReportsBothEnds(a: Warnable, b: Warnable, c: Warnable, deps: Deps, rank: Warnable -> nat)
    requires a != b && b != c && a != c && Ranked(deps, rank)
    requires deps(a) == [b] && deps(b) == [c] && deps(c) == []
    ensures Kernel({a, b, c}, deps, rank) == {a, c}
  {
    var k := {a, c};
    assert c in deps(b) && b in deps(a);
    assert HasDepIn(deps, b, k);
    assert IsKernel({a, b, c}, deps, k);
    KernelIsUnique({a, b, c}, deps, rank, k);
  }

  // ---- The snapshot ----

  ghost predicate DistinctCodes(ws: set<Warnable>) {
    forall v, w :: v in ws && w in ws && v.code == w.code ==> v == w
  }

  /** What the clock reads when each warnable is looked at; a snapshot reads it once for each. */
  type Clock = Warnable -> int

  function Stopped(now: int): Clock {
    _ => now
  }

  ghost predicate Reported(vals: map<Warnable, WarningState>, deps: Deps, rank: Warnable -> nat, clock: Clock, w: Warnable)
    requires Ranked(deps, rank)
  {
    w in Kernel(vals.Keys, deps, rank) && IsVisible(w, vals[w], clock(w))
  }

  /** The warnings map: exactly the visible members of the kernel, by code. */
  method CurrentState(vals: map<Warnable, WarningState>, deps: Deps, ghost rank: Warnable -> nat, clock: Clock)
    returns (warnings: map<string, WarningState>)
    requires Ranked(deps, rank) && DistinctCodes(vals.Keys)
    ensures forall w :: w in vals ==>
      (w.code in warnings <==> Reported(vals, deps, rank, clock, w)) && (w.code in warnings ==> warnings[w.code] == vals[w])
    ensures forall code :: code in warnings ==> exists w :: w in vals && w.code == code
  {
    warnings := map[];
    var todo := vals.Keys;
    while todo != {}
      invariant todo <= vals.Keys
      invariant forall w :: w in vals && w !in todo ==>
        (w.code in warnings <==> Reported(vals, deps, rank, clock, w)) && (w.code in warnings ==> warnings[w.code] == vals[w])
      invariant forall w :: w in todo ==> w.code !in warnings
      invariant forall code :: code in warnings ==> exists w :: w in vals && w.code == code
      decreases |todo|
    {
      var w :| w in todo;
      todo := todo - {w};
      if !IsVisible(w, vals[w], clock(w)) {
        continue;
      }
      if EffectivelyHealthy(vals.Keys, deps, w, rank) {
        continue;
      }
      warnings := warnings[w.code := vals[w]];
    }
  }

  /** Something is reported as soon as some root is visible. */
  lemma SnapshotReportsSome(vals: map<Warnable, WarningState>, deps: Deps, rank: Warnable -> nat, clock: Clock, w: Warnable)
    requires Ranked(deps, rank) && w in Roots(vals.Keys, deps) && IsVisible(w, vals[w], clock(w))
    ensures Reported(vals, deps, rank, clock, w)
  {
    KernelIsKernel(vals.Keys, deps, rank);
    assert forall d :: d in deps(w) ==> d !in vals.Keys;
  }

  /** With transitively closed dependencies, exactly the visible roots are reported. */
  lemma ReportedIffVisibleRoot(vals: map<Warnable, WarningState>, deps: Deps, rank: Warnable -> nat, clock: Clock, w: Warnable)
    requires Ranked(deps, rank) && TransitivelyClosed(deps)
    ensures Reported(vals, deps, rank, clock, w) <==> w in Roots(vals.Keys, deps) && IsVisible(w, vals[w], clock(w))
  {
    ClosedReportsRoots(vals.Keys, deps, rank);
  }

  // ---- Every visible warning is accounted for ----

  ghost predicate Begun(vals: map<Warnable, WarningState>, clock: Clock) {
    forall w :: w in vals ==> vals[w].brokenSince <= clock(w)
  }

  /** Every visible unhealthy warnable is reported or depends directly on one that is. */
  ghost predicate Explained(vals: map<Warnable, WarningState>, deps: Deps, rank: Warnable -> nat, clock: Clock)
    requires Ranked(deps, rank)
  {
    forall w :: w in vals && IsVisible(w, vals[w], clock(w)) ==>
      Reported(vals, deps, rank, clock, w) || exists d :: d in deps(w) && Reported(vals, deps, rank, clock, d)
  }

  ghost predicate DepsVisibleAtOnce(deps: Deps) {
    forall w, d :: d in deps(w) ==> d.timeToVisible <= 0
  }

  lemma VisibleDepsExplain(vals: map<Warnable, WarningState>, deps: Deps, rank: Warnable -> nat, clock: Clock)
    requires Ranked(deps, rank) && DepsVisibleAtOnce(deps) && Begun(vals, clock)
    ensures Explained(vals, deps, rank, clock)
  {
    KernelIsKernel(vals.Keys, deps, rank);
    forall w | w in vals && IsVisible(w, vals[w], clock(w)) && !Reported(vals, deps, rank, clock, w)
      ensures exists d :: d in deps(w) && Reported(vals, deps, rank, clock, d)
    {
      var d :| d in deps(w) && d in Kernel(vals.Keys, deps, rank);
      assert Reported(vals, deps, rank, clock, d);
    }
  }

  /** A warning that has been broken for long and a dependency that has just broken. */
  function Hiding(w: Warnable, d: Warnable, args: Args, now: int): map<Warnable, WarningState> {
    map[w := WarningState(if w.timeToVisible > 0 then now - w.timeToVisible else now, args), d := WarningState(now, args)]
  }

  /** A dependency that takes time to become visible hides a warning that is visible, and nothing is reported. */
  lemma HiddenByInvisible(w: Warnable, d: Warnable, deps: Deps, rank: Warnable -> nat, now: int, args: Args)
    requires Ranked(deps, rank) && d in deps(w) && d.timeToVisible > 0
    ensures var vals := Hiding(w, d, args, now);
            && Begun(vals, Stopped(now)) && w in vals && IsVisible(w, vals[w], now)
            && (forall v :: !Reported(vals, deps, rank, Stopped(now), v))
            && !Explained(vals, deps, rank, Stopped(now))
  {
    var vals := Hiding(w, d, args, now);
    assert rank(d) < rank(w);
    assert vals.Keys == {w, d};
    assert w in deps(d) ==> rank(w) < rank(d);
    assert d in deps(d) ==> rank(d) < rank(d);
    assert HasDepIn(deps, w, {d});
    assert IsKernel({w, d}, deps, {d});
    KernelIsUnique({w, d}, deps, rank, {d});
  }

  /**
   * In every state every visible warning is explained, by being reported or by a reported
   * dependency, if and only if no warnable depends on one that takes time to become visible.
   */
  lemma ExplainedIff(deps: Deps, rank: Warnable -> nat)
    requires Ranked(deps, rank)
    ensures (forall vals, clock :: Begun(vals, clock) ==> Explained(vals, deps, rank, clock)) <==> DepsVisibleAtOnce(deps)
  {
    if DepsVisibleAtOnce(deps) {
      forall vals, clock | Begun(vals, clock)
        ensures Explained(vals, deps, rank, clock)
      {
        VisibleDepsExplain(vals, deps, rank, clock);
      }
    } else {
      var w, d :| d in deps(w) && d.timeToVisible > 0;
      HiddenByInvisible(w, d, deps, rank, 0, map[]);
    }
  }

  // ---- The dependencies the warnables declare (health/warnings.go) ----

  const SECOND: int := 1_000_000_000

  const NETWORK_STATUS: Warnable := Warnable("network-status", 5 * SECOND)
  const IPN_STATE: Warnable := Warnable("wantrunning-false", 0)
  const NO_DERP_HOME: Warnable := Warnable("no-derp-home", 10 * SECOND)
  const NO_DERP_CONNECTION: Warnable := Warnable("no-derp-connection", 10 * SECOND)
  const DERP_REGION_ERROR: Warnable := Warnable("derp-region-error", 0)

  function DependsOn(w: Warnable): seq<Warnable> {
    if w.code == "login-state" then [IPN_STATE]
    else if w.code in {"not-in-map-poll", "no-udp4-bind", "mapresponse-timeout"} then [NETWORK_STATUS, IPN_STATE]
    else if w.code in {"no-derp-home", "derp-region-error", "tls-connection-failed"} then [NETWORK_STATUS]
    else if w.code == "no-derp-connection" then [NETWORK_STATUS, NO_DERP_HOME]
    else if w.code == "derp-timed-out" then [NETWORK_STATUS, NO_DERP_CONNECTION, NO_DERP_HOME]
    else []
  }

  function DeclaredRank(w: Warnable): nat {
    |DependsOn(w)|
  }

  lemma DeclaredDependencies()
    ensures DependsOn(NETWORK_STATUS) == [] && DependsOn(IPN_STATE) == []
    ensures DependsOn(NO_DERP_HOME) == [NETWORK_STATUS]
    ensures DependsOn(NO_DERP_CONNECTION) == [NETWORK_STATUS, NO_DERP_HOME]
    ensures DependsOn(DERP_REGION_ERROR) == [NETWORK_STATUS]
  {
    assert NETWORK_STATUS.code[1] == 'e' && NETWORK_STATUS.code[0] == 'n' && NETWORK_STATUS.code[2] == 't';
    assert IPN_STATE.code[0] == 'w';
    assert NO_DERP_CONNECTION.code[8] == 'c';
  }

  /** The declared dependencies are acyclic and transitively closed, so only visible roots are reported. */
  lemma DeclaredIsClosed()
    ensures Ranked(DependsOn, DeclaredRank) && TransitivelyClosed(DependsOn)
  {
    DeclaredDependencies();
  }

  /**
   * Several of them depend on the network status, which takes five seconds to become visible: a relay
   * error that is visible at once is hidden by it, and nothing is reported.
   */
  lemma NetworkStatusHides(args: Args, now: int)
    ensures Ranked(DependsOn, DeclaredRank)
    ensures !DepsVisibleAtOnce(DependsOn)
    ensures var vals := map[DERP_REGION_ERROR := WarningState(now, args), NETWORK_STATUS := WarningState(now, args)];
            && IsVisible(DERP_REGION_ERROR, WarningState(now, args), now)
            && forall v :: !Reported(vals, DependsOn, DeclaredRank, Stopped(now), v)
  {
    DeclaredDependencies();
    DeclaredIsClosed();
    assert NETWORK_STATUS in DependsOn(DERP_REGION_ERROR);
    HiddenByInvisible(DERP_REGION_ERROR, NETWORK_STATUS, DependsOn, DeclaredRank, now, args);
  }
}
