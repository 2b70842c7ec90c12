/** Web handlers in a node's serve config (ipn/serve.go). */
module Serve {
  import opened Bytes
  import MemBuffer
  import Labels

  /** A handler object, by identity. */
  datatype Handler = Handler(id: nat)

  datatype TcpHandler = TcpHandler(https: bool, http: bool)

  /** Handlers by mount point. */
  type Handlers = map<string, Handler>

  datatype Config = Config(tcp: map<Uint16, TcpHandler>, web: map<string, Handlers>, funnel: map<string, bool>)

  // ---- Host and port in one string ----

  function JoinHostPort(host: string, port: Uint16): string {
    (if ':' in host then "[" + host + "]" else host) + ":" + MemBuffer.Decimal(port)
  }

  /** Text that ends in a colon and digits splits at that colon. */
  lemma SplitAtColon(a: string, d: string, b: string, e: string)
    requires ':' !in d && ':' !in e && a + ":" + d == b + ":" + e
    ensures a == b && d == e
  {
    var l, r := a + ":" + d, b + ":" + e;
    assert l[|a|] == ':' && r[|b|] == ':';
    assert forall i :: |a| < i < |l| ==> l[i] == d[i - |a| - 1];
    assert forall i :: |b| < i < |r| ==> r[i] == e[i - |b| - 1];
    assert |a| == |b|;
    assert l[..|a|] == a && r[..|b|] == b && l[|a| + 1..] == d && r[|b| + 1..] == e;
  }

  lemma DigitsHaveNoColon(n: nat)
    ensures ':' !in MemBuffer.Decimal(n)
  {
    Labels.DecimalDigits(n);
  }

  lemma BracketsInjective(h: string, g: string)
    requires (if ':' in h then "[" + h + "]" else h) == (if ':' in g then "[" + g + "]" else g)
    ensures h == g
  {
    var x, y := "[" + h + "]", "[" + g + "]";
    assert x[1..|x| - 1] == h && y[1..|y| - 1] == g;
    assert ':' in h ==> ':' in x;
    assert ':' in g ==> ':' in y;
  }

  /** No two pairs of host and port share a key. */
  lemma JoinInjective(h: string, p: Uint16, g: string, q: Uint16)
    requires JoinHostPort(h, p) == JoinHostPort(g, q)
    ensures h == g && p == q
  {
    DigitsHaveNoColon(p);
    DigitsHaveNoColon(q);
    SplitAtColon(if ':' in h then "[" + h + "]" else h, MemBuffer.Decimal(p),
                 if ':' in g then "[" + g + "]" else g, MemBuffer.Decimal(q));
    BracketsInjective(h, g);
    MemBuffer.DecimalInjective(p, q);
  }

  // ---- Mount points ----

  predicate EndsInSlash(m: string) {
    m != [] && m[|m| - 1] == '/'
  }

  function TrimSlash(m: string): string {
    if EndsInSlash(m) then m[..|m| - 1] else m
  }

  function AfterSet(hs: Handlers, mount: string, h: Handler): Handlers {
    var all := hs[mount := h];
    map k | k in all && (all[k] == h || TrimSlash(k) != TrimSlash(mount)) :: all[k]
  }

  /** No two mounts are the same up to one trailing slash taken off each. */
  ghost predicate ClashFree(hs: Handlers) {
    forall k, l :: k in hs && l in hs && k != l ==> TrimSlash(k) != TrimSlash(l)
  }

  /** The handler already serves the other spelling of the mount. */
  ghost predicate Reused(hs: Handlers, mount: string, h: Handler) {
    exists k :: k in hs && k != mount && hs[k] == h && TrimSlash(k) == TrimSlash(mount)
  }

  /** Setting a handler takes over its mount, drops the other spelling, and leaves the rest alone. */
  lemma SetReplacesSpelling(hs: Handlers, mount: string, h: Handler, k: string)
    ensures mount in AfterSet(hs, mount, h) && AfterSet(hs, mount, h)[mount] == h
    ensures TrimSlash(k) != TrimSlash(mount) ==>
              (k in AfterSet(hs, mount, h) <==> k in hs) && (k in hs ==> AfterSet(hs, mount, h)[k] == hs[k])
    ensures TrimSlash(k) == TrimSlash(mount) && k != mount ==>
              (k in AfterSet(hs, mount, h) <==> k in hs && hs[k] == h)
  {
  }

  /** Two spellings of one mount can coexist exactly if one handler object is set under both. */
  lemma SetKeepsClashFreeIff(hs: Handlers, mount: string, h: Handler)
    requires ClashFree(hs)
    ensures ClashFree(AfterSet(hs, mount, h)) <==> !Reused(hs, mount, h)
  {
    var after := AfterSet(hs, mount, h);
    SetReplacesSpelling(hs, mount, h, mount);
    if Reused(hs, mount, h) {
      var k :| k in hs && k != mount && hs[k] == h && TrimSlash(k) == TrimSlash(mount);
      SetReplacesSpelling(hs, mount, h, k);
    } else {
      forall k, l | k in after && l in after && k != l
        ensures TrimSlash(k) != TrimSlash(l)
      {
        SetReplacesSpelling(hs, mount, h, k);
        SetReplacesSpelling(hs, mount, h, l);
      }
    }
  }

  lemma SharedHandlerClashes(h: Handler)
    ensures var hs := AfterSet(AfterSet(map[], "/foo", h), "/foo/", h);
            "/foo" in hs && "/foo/" in hs && !ClashFree(hs)
  {
    var one := AfterSet(map[], "/foo", h);
    SetReplacesSpelling(map[], "/foo", h, "/foo");
    assert EndsInSlash("/foo/") && "/foo/"[..4] == "/foo" && !EndsInSlash("/foo");
    assert TrimSlash("/foo/") == TrimSlash("/foo");
    SetReplacesSpelling(one, "/foo/", h, "/foo");
    assert |"/foo"| != |"/foo/"|;
  }

  /** A mount and the same mount with one more slash clash exactly when the mount has no slash at its end. */
  lemma SlashPairIff(m: string)
    ensures TrimSlash(m) == TrimSlash(m + "/") <==> !EndsInSlash(m)
  {
    assert (m + "/")[..|m|] == m;
    assert EndsInSlash(m + "/");
  }

  // ---- The whole config ----

  function Get(web: map<string, Handlers>, hp: string): Handlers {
    if hp in web then web[hp] else map[]
  }

  function SetHandler(c: Config, h: Handler, host: string, port: Uint16, mount: string, useTLS: bool): Config {
    var hp := JoinHostPort(host, port);
    c.(tcp := c.tcp[port := TcpHandler(useTLS, !useTLS)], web := c.web[hp := AfterSet(Get(c.web, hp), mount, h)])
  }

  function Remaining(hs: Handlers, mounts: seq<string>): Handlers {
    map k | k in hs && k !in mounts :: hs[k]
  }

  function RemoveHandlers(c: Config, host: string, port: Uint16, mounts: seq<string>, cleanupFunnel: bool): Config
    requires JoinHostPort(host, port) in c.web
  {
    var hp := JoinHostPort(host, port);
    var left := Remaining(c.web[hp], mounts);
    if left != map[] then c.(web := c.web[hp := left])
    else Config(c.tcp - {port}, c.web - {hp}, if cleanupFunnel then c.funnel - {hp} else c.funnel)
  }

  // ---- Runs of calls ----

  datatype Op =
    | Set(h: Handler, host: string, port: Uint16, mount: string, useTLS: bool)
    | Remove(host: string, port: Uint16, mounts: seq<string>, cleanupFunnel: bool)

  /** Removing needs a web server to remove from. */
  predicate Enabled(c: Config, op: Op) {
    op.Remove? ==> JoinHostPort(op.host, op.port) in c.web
  }

  function Apply(c: Config, op: Op): Config
    requires Enabled(c, op)
  {
    match op
    case Set(h, host, port, mount, useTLS) => SetHandler(c, h, host, port, mount, useTLS)
    case Remove(host, port, mounts, cleanup) => RemoveHandlers(c, host, port, mounts, cleanup)
  }

  ghost predicate ValidRun(c: Config, ops: seq<Op>)
    decreases |ops|, 0
  {
    ops == [] || (ValidRun(c, ops[..|ops| - 1]) && Enabled(Exec(c, ops[..|ops| - 1]), ops[|ops| - 1]))
  }

  ghost function Exec(c: Config, ops: seq<Op>): Config
    requires ValidRun(c, ops)
    decreases |ops|, 1
  {
    if ops == [] then c else Apply(Exec(c, ops[..|ops| - 1]), ops[|ops| - 1])
  }

  /** No host and port serves two spellings of one mount. */
  ghost predicate AllClashFree(c: Config) {
    forall hp :: hp in c.web ==> ClashFree(c.web[hp])
  }

  ghost predicate Serves(c: Config, h: Handler) {
    exists hp, k :: hp in c.web && k in c.web[hp] && c.web[hp][k] == h
  }

  /** Every call that sets a handler brings an object of its own, which the config did not serve either. */
  ghost predicate Fresh(c: Config, ops: seq<Op>) {
    && (forall i, j :: 0 <= i < j < |ops| && ops[i].Set? && ops[j].Set? ==> ops[i].h != ops[j].h)
    && (forall i :: 0 <= i < |ops| && ops[i].Set? ==> !Serves(c, ops[i].h))
  }

  /** A step adds no handler but the one it sets. */
  lemma StepServes(c: Config, op: Op, h: Handler)
    requires Enabled(c, op) && Serves(Apply(c, op), h)
    ensures Serves(c, h) || (op.Set? && op.h == h)
  {
    var c' := Apply(c, op);
    var hp, k :| hp in c'.web && k in c'.web[hp] && c'.web[hp][k] == h;
    if op.Set? {
      var at := JoinHostPort(op.host, op.port);
      if hp == at {
        SetReplacesSpelling(Get(c.web, at), op.mount, op.h, k);
      }
    }
  }

  lemma {:induction false} HandlersComeFromCalls(c: Config, ops: seq<Op>, h: Handler)
    requires ValidRun(c, ops) && Serves(Exec(c, ops), h)
    ensures Serves(c, h) || exists i :: 0 <= i < |ops| && ops[i].Set? && ops[i].h == h
  {
    if ops != [] {
      var past, op := ops[..|ops| - 1], ops[|ops| - 1];
      StepServes(Exec(c, past), op, h);
      if Serves(Exec(c, past), h) {
        HandlersComeFromCalls(c, past, h);
        if !Serves(c, h) {
          var i :| 0 <= i < |past| && past[i].Set? && past[i].h == h;
          assert ops[i] == past[i];
        }
      } else {
        assert ops[|ops| - 1].Set? && ops[|ops| - 1].h == h;
      }
    }
  }

  lemma StepKeepsClashFree(c: Config, op: Op)
    requires Enabled(c, op) && AllClashFree(c) && (op.Set? ==> !Serves(c, op.h))
    ensures AllClashFree(Apply(c, op))
  {
    var c' := Apply(c, op);
    var at := JoinHostPort(op.host, op.port);
    forall hp | hp in c'.web
      ensures ClashFree(c'.web[hp])
    {
      if op.Set? && hp == at {
        var hs := Get(c.web, at);
        assert forall k :: k in hs ==> at in c.web && hs[k] != op.h;
        SetKeepsClashFreeIff(hs, op.mount, op.h);
      } else {
        assert hp in c.web && ClashFree(c.web[hp]);
      }
    }
  }

  /**
   * Over every run of setting and removing on any hosts and ports, from any config without clashing
   * spellings, no host and port ever serves two spellings of a mount, if handler objects are not reused.
   */
  lemma {:induction false} FreshCallsNeverClash(c: Config, ops: seq<Op>)
    requires AllClashFree(c) && ValidRun(c, ops) && Fresh(c, ops)
    ensures AllClashFree(Exec(c, ops))
  {
    if ops != [] {
      var past, op := ops[..|ops| - 1], ops[|ops| - 1];
      FreshCallsNeverClash(c, past);
      if op.Set? && Serves(Exec(c, past), op.h) {
        HandlersComeFromCalls(c, past, op.h);
      }
      StepKeepsClashFree(Exec(c, past), op);
    }
  }

  /** So a mount and the mount plus a slash are never both served, unless the mount itself ends in a slash. */
  lemma NoSlashPair(c: Config, ops: seq<Op>, hp: string, m: string)
    requires AllClashFree(c) && ValidRun(c, ops) && Fresh(c, ops) && !EndsInSlash(m)
    ensures !(m in Get(Exec(c, ops).web, hp) && m + "/" in Get(Exec(c, ops).web, hp))
  {
    FreshCallsNeverClash(c, ops);
    SlashPairIff(m);
    assert |m| != |m + "/"|;
  }

  /** For a mount that ends in a slash they are both served whenever the two are set in a row. */
  lemma SlashPairCoexists(hs: Handlers, m: string, h: Handler, g: Handler)
    requires EndsInSlash(m)
    ensures var after := AfterSet(AfterSet(hs, m, h), m + "/", g);
            m in after && m + "/" in after
  {
    SetReplacesSpelling(hs, m, h, m);
    SlashPairIff(m);
    SetReplacesSpelling(AfterSet(hs, m, h), m + "/", g, m);
  }

  // ---- Undoing, and ports ----

  /** What setting finds in the way of undoing it: nothing, on an unused host and port or on a used one. */
  ghost predicate Undoable(c: Config, h: Handler, host: string, port: Uint16, mount: string, useTLS: bool, cleanup: bool) {
    var hp := JoinHostPort(host, port);
    if hp !in c.web then port !in c.tcp && !(cleanup && hp in c.funnel)
    else
      && c.web[hp] != map[] && mount !in c.web[hp]
      && (forall k :: k in c.web[hp] && TrimSlash(k) == TrimSlash(mount) ==> c.web[hp][k] == h)
      && port in c.tcp && c.tcp[port] == TcpHandler(useTLS, !useTLS)
  }

  /**
   * Removing undoes setting exactly if, on an unused host and port, the port and the funnel entry were unused too;
   * and on a used one, the mount was new, no other spelling of it was dropped, other handlers remain and the port was
   * served the same way.
   */
  lemma RemoveUndoesSetIff(c: Config, h: Handler, host: string, port: Uint16, mount: string, useTLS: bool, cleanup: bool)
    ensures var done := SetHandler(c, h, host, port, mount, useTLS);
            && JoinHostPort(host, port) in done.web
            && (RemoveHandlers(done, host, port, [mount], cleanup) == c
                <==> Undoable(c, h, host, port, mount, useTLS, cleanup))
  {
    var hp := JoinHostPort(host, port);
    if hp !in c.web {
      UndoOnUnused(c, h, host, port, mount, useTLS, cleanup);
    } else {
      UndoOnUsed(c, h, host, port, mount, useTLS, cleanup);
    }
  }

  lemma UndoOnUnused(c: Config, h: Handler, host: string, port: Uint16, mount: string, useTLS: bool, cleanup: bool)
    requires JoinHostPort(host, port) !in c.web
    ensures RemoveHandlers(SetHandler(c, h, host, port, mount, useTLS), host, port, [mount], cleanup) == c
            <==> port !in c.tcp && !(cleanup && JoinHostPort(host, port) in c.funnel)
  {
    var hp := JoinHostPort(host, port);
    var done := SetHandler(c, h, host, port, mount, useTLS);
    OnlyMount(mount, h);
    assert Remaining(done.web[hp], [mount]) == map[];
    var r := RemoveHandlers(done, host, port, [mount], cleanup);
    assert r.web == c.web;
    assert r.tcp == c.tcp - {port};
    assert port !in c.tcp ==> r.tcp == c.tcp;
    assert port !in r.tcp;
    assert r.funnel == if cleanup then c.funnel - {hp} else c.funnel;
    assert hp !in c.funnel ==> c.funnel - {hp} == c.funnel;
    assert hp !in c.funnel - {hp};
  }

  /** Setting a mount and removing it gives the handlers back exactly if it was new and dropped no spelling. */
  lemma MountUndoneIff(hs: Handlers, mount: string, h: Handler)
    ensures Remaining(AfterSet(hs, mount, h), [mount]) == hs
            <==> mount !in hs && forall k :: k in hs && TrimSlash(k) == TrimSlash(mount) ==> hs[k] == h
  {
    var left := Remaining(AfterSet(hs, mount, h), [mount]);
    assert mount !in left;
    if mount !in hs {
      assert forall k :: k in left <==> k in hs && (hs[k] == h || TrimSlash(k) != TrimSlash(mount));
    }
  }

  lemma UndoOnUsed(c: Config, h: Handler, host: string, port: Uint16, mount: string, useTLS: bool, cleanup: bool)
    requires JoinHostPort(host, port) in c.web
    ensures RemoveHandlers(SetHandler(c, h, host, port, mount, useTLS), host, port, [mount], cleanup) == c
            <==> Undoable(c, h, host, port, mount, useTLS, cleanup)
  {
    var hp := JoinHostPort(host, port);
    var hs := c.web[hp];
    var left := Remaining(AfterSet(hs, mount, h), [mount]);
    var r := RemoveHandlers(SetHandler(c, h, host, port, mount, useTLS), host, port, [mount], cleanup);
    MountUndoneIff(hs, mount, h);
    if left == map[] {
      assert hp !in r.web;
    } else {
      assert r.web == c.web[hp := left] && r.tcp == c.tcp[port := TcpHandler(useTLS, !useTLS)] && r.funnel == c.funnel;
      assert r.web[hp] == left && r.tcp[port] == TcpHandler(useTLS, !useTLS);
      assert left == hs ==> r.web == c.web;
      assert port in c.tcp && c.tcp[port] == TcpHandler(useTLS, !useTLS) ==> r.tcp == c.tcp;
    }
  }

  lemma OnlyMount(mount: string, h: Handler)
    ensures AfterSet(map[], mount, h) == map[mount := h]
  {
  }

  /** Every web server listens: its port is a configured TCP port. */
  ghost predicate Backed(c: Config) {
    forall host, port: Uint16 :: JoinHostPort(host, port) in c.web ==> port in c.tcp
  }

  lemma SetKeepsBacked(c: Config, h: Handler, host: string, port: Uint16, mount: string, useTLS: bool)
    requires Backed(c)
    ensures Backed(SetHandler(c, h, host, port, mount, useTLS))
  {
    var c' := SetHandler(c, h, host, port, mount, useTLS);
    forall g, q: Uint16 | JoinHostPort(g, q) in c'.web
      ensures q in c'.tcp
    {
      if JoinHostPort(g, q) == JoinHostPort(host, port) {
        JoinInjective(g, q, host, port);
      }
    }
  }

  /** Another host serves the web on the same port. */
  ghost predicate PortShared(c: Config, host: string, port: Uint16) {
    exists other :: other != host && JoinHostPort(other, port) in c.web
  }

  lemma SharedStays(c: Config, host: string, port: Uint16, other: string)
    requires other != host && JoinHostPort(other, port) in c.web
    ensures JoinHostPort(other, port) != JoinHostPort(host, port)
  {
    if JoinHostPort(other, port) == JoinHostPort(host, port) {
      JoinInjective(other, port, host, port);
    }
  }

  /**
   * Removing a host's last handler takes the port away from every host: the config stays backed
   * exactly if handlers remain or no other host serves on that port.
   */
  lemma RemoveKeepsBackedIff(c: Config, host: string, port: Uint16, mounts: seq<string>, cleanup: bool)
    requires Backed(c) && JoinHostPort(host, port) in c.web
    ensures Backed(RemoveHandlers(c, host, port, mounts, cleanup))
            <==> Remaining(c.web[JoinHostPort(host, port)], mounts) != map[] || !PortShared(c, host, port)
  {
    var hp := JoinHostPort(host, port);
    var c' := RemoveHandlers(c, host, port, mounts, cleanup);
    if Remaining(c.web[hp], mounts) == map[] {
      if PortShared(c, host, port) {
        var other :| other != host && JoinHostPort(other, port) in c.web;
        SharedStays(c, host, port, other);
        assert JoinHostPort(other, port) in c'.web && port !in c'.tcp;
      } else {
        forall g, q: Uint16 | JoinHostPort(g, q) in c'.web
          ensures q in c'.tcp
        {
          assert JoinHostPort(g, q) in c.web;
          assert q == port ==> g == host;
        }
      }
    }
  }

  lemma SharedPortIsDropped(h: Handler, g: Handler)
    ensures var c := SetHandler(SetHandler(Config(map[], map[], map[]), h, "a", 443, "/", true), g, "b", 443, "/", true);
            JoinHostPort("a", 443) in c.web && !Backed(RemoveHandlers(c, "a", 443, ["/"], false))
  {
    var c0 := Config(map[], map[], map[]);
    var c1 := SetHandler(c0, h, "a", 443, "/", true);
    var c := SetHandler(c1, g, "b", 443, "/", true);
    SetKeepsBacked(c0, h, "a", 443, "/", true);
    SetKeepsBacked(c1, g, "b", 443, "/", true);
    assert "b"[0] != "a"[0];
    SharedStays(c, "a", 443, "b");
    OnlyMount("/", h);
    assert PortShared(c, "a", 443);
    RemoveKeepsBackedIff(c, "a", 443, ["/"], false);
  }

  class ServeConfig {
    var tcp: map<Uint16, TcpHandler>
    var web: map<string, Handlers>
    var funnel: map<string, bool>

    ghost function Abstract(): Config
      reads this
    {
      Config(tcp, web, funnel)
    }

    constructor ()
      ensures Abstract() == Config(map[], map[], map[])
    {
      tcp, web, funnel := map[], map[], map[];
    }

    method SetWebHandler(handler: Handler, host: string, port: Uint16, mount: string, useTLS: bool)
      modifies this
      ensures Abstract() == SetHandler(old(Abstract()), handler, host, port, mount, useTLS)
    {
      tcp := tcp[port := TcpHandler(useTLS, !useTLS)];
      var hp := JoinHostPort(host, port);
      var handlers := DropSpellings(Get(web, hp)[mount := handler], mount, handler);
      web := web[hp := handlers];
    }

    /** The caller names a host and port that has a web server. */
    method RemoveWebHandler(host: string, port: Uint16, mounts: seq<string>, cleanupFunnel: bool)
      requires JoinHostPort(host, port) in web
      modifies this
      ensures Abstract() == RemoveHandlers(old(Abstract()), host, port, mounts, cleanupFunnel)
    {
      var hp := JoinHostPort(host, port);
      assert Remaining(web[hp], mounts[..0]) == web[hp];
      for n := 0 to |mounts|
        invariant tcp == old(tcp) && funnel == old(funnel) && hp in web
        invariant web == old(web)[hp := Remaining(old(web)[hp], mounts[..n])]
      {
        assert mounts[..n + 1] == mounts[..n] + [mounts[n]];
        assert Remaining(old(web)[hp], mounts[..n + 1]) == Remaining(old(web)[hp], mounts[..n]) - {mounts[n]};
        web := web[hp := web[hp] - {mounts[n]}];
      }
      assert mounts[..|mounts|] == mounts;
      if |web[hp]| == 0 {
        assert web - {hp} == old(web) - {hp};
        web := web - {hp};
        tcp := tcp - {port};
        if cleanupFunnel {
          funnel := funnel - {hp};
        }
      }
    }
  }

  /** Deletes the other spellings of `mount`, in whatever order the map yields its keys. */
  method DropSpellings(all: Handlers, mount: string, h: Handler) returns (hs: Handlers)
    requires mount in all && all[mount] == h
    ensures hs == map k | k in all && (all[k] == h || TrimSlash(k) != TrimSlash(mount)) :: all[k]
  {
    hs := all;
    var todo := all.Keys;
    while todo != {}
      invariant todo <= all.Keys
      invariant hs == map k | k in all && (k in todo || all[k] == h || TrimSlash(k) != TrimSlash(mount)) :: all[k]
      decreases |todo|
    {
      var k :| k in todo;
      if hs[k] != h && TrimSlash(mount) == TrimSlash(k) {
        hs := hs - {k};
      }
      todo := todo - {k};
    }
  }
}
