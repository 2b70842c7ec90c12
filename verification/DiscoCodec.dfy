/** Parse-then-print for disco messages, and the buffer-filling code itself (disco/disco.go). */
module DiscoCodec {
  import Seqs
  import opened Bytes
  import opened Net
  import opened Disco

  // ---- Parse, then print ----

  lemma Reprint16(s: seq<byte>) requires |s| == 2 ensures Put16(Get16(s)) == s { GetThenPut(s); }
  lemma Reprint32(s: seq<byte>) requires |s| == 4 ensures Put32(Get32(s)) == s { GetThenPut(s); }
  lemma Reprint64(s: seq<byte>) requires |s| == 8 ensures Put64(Get64(s)) == s { GetThenPut(s); }

  lemma DurationReprint(s: seq<byte>)
    requires |s| == 8
    ensures Put64(ToU64(FromU64(Get64(s)))) == s
  {
    Reprint64(s);
  }

  lemma AddrPortReprint(p: seq<byte>)
    requires |p| == EP_LEN
    ensures WireAddrPort(ReadAddrPort(p)) == p
  {
    WireRoundTrip(p[..16]);
    Reprint16(p[16..]);
    assert p == p[..16] + p[16..];
  }

  lemma {:induction false} AddrPortsReprint(p: seq<byte>)
    requires |p| % EP_LEN == 0
    ensures WireAddrPorts(ReadAddrPorts(p)) == p
    ensures EP_LEN * |ReadAddrPorts(p)| == |p|
  {
    if |p| > 0 {
      AddrPortReprint(p[..EP_LEN]);
      AddrPortsReprint(p[EP_LEN..]);
      assert p == p[..EP_LEN] + p[EP_LEN..];
      assert ReadAddrPorts(p)[1..] == ReadAddrPorts(p[EP_LEN..]);
    }
  }

  lemma EndpointReprint(b: seq<byte>)
    requires EndpointFits(b)
    ensures WireEndpoint(ParseEndpoint(b)) == b
  {
    var b1 := b[32..];
    var b2 := b1[32..];
    var b3 := b2[32..];
    var b4 := b3[8..];
    var b5 := b4[4..];
    var b6 := b5[8..];
    var b7 := b6[8..];
    AddrPortsReprint(b7);
    DurationReprint(b6[..8]);
    DurationReprint(b5[..8]);
    Reprint32(b4[..4]);
    Reprint64(b3[..8]);
    Join(b6, 8);
    Join(b5, 8);
    Join(b4, 4);
    Join(b3, 8);
    Join(b2, 32);
    Join(b1, 32);
    Join(b, 32);
  }

  lemma Join(s: seq<byte>, n: nat)
    requires n <= |s|
    ensures s[..n] + s[n..] == s
  {
  }

  lemma CommonReprint(b: seq<byte>)
    requires |b| >= COMMON_LEN
    ensures WireCommon(ParseCommon(b)) == b[..COMMON_LEN]
  {
    var b1 := b[4..];
    var b2 := b1[4..];
    var b3 := b2[32..];
    Reprint32(b[..4]);
    Reprint32(b1[..4]);
    assert b2[..64] == b2[..32] + b3[..32];
    assert b1[..68] == b1[..4] + b2[..64];
    assert b[..COMMON_LEN] == b[..4] + b1[..68];
  }

  /** The tail of a probe is its key, if there is room for one, and then zero bytes. */
  predicate ProbeCanonical(p: seq<byte>)
    requires |p| >= 12
  {
    if |p| >= 44 then p[12..44] != NO_KEY && p[44..] == Zeros(|p| - 44) else p[12..] == Zeros(|p| - 12)
  }

  lemma ProbeReprint(p: seq<byte>)
    requires |p| >= 12
    ensures WireProbe(ParseProbe(p)) == p <==> ProbeCanonical(p)
  {
    var q := ParseProbe(p);
    var w := WireProbe(q);
    Join(p, 12);
    assert w[..12] == p[..12];
    assert w == p <==> w[12..] == p[12..] by { assert w == w[..12] + w[12..]; }
    if |p| >= 44 {
      assert p[12..][..32] == p[12..44];
      assert p[12..] == p[12..44] + p[44..];
      if q.nodeKey == NO_KEY {
        assert |w| < |p|;
      } else {
        assert w[12..] == p[12..44] + Zeros(|p| - 44);
        assert w[12..] == p[12..] <==> p[44..] == Zeros(|p| - 44) by {
          assert w[12..][32..] == Zeros(|p| - 44) && p[12..][32..] == p[44..];
        }
      }
    } else {
      assert w[12..] == Zeros(|p| - 12);
    }
  }

  predicate BodyCanonical(t: byte, p: seq<byte>) {
    if t == TYPE_PING || t == TYPE_SOURCE_PATH_PROBE then |p| >= 12 && ProbeCanonical(p)
    else if t == TYPE_PONG then |p| == PONG_LEN
    else if t == TYPE_CALL_ME_MAYBE then |p| % EP_LEN == 0
    else if t == TYPE_BIND || t == TYPE_CHALLENGE || t == TYPE_ANSWER then |p| == COMMON_LEN
    else if t == TYPE_ALLOCATE_REQUEST then |p| == REQUEST_LEN
    else t == TYPE_CALL_ME_MAYBE_VIA || t == TYPE_ALLOCATE_RESPONSE
  }

  ghost predicate Reprints(t: byte, p: seq<byte>) {
    ParseBody(t, 0, p).Ok? && Body(ParseBody(t, 0, p).message) == p
  }

  lemma PongReprints(p: seq<byte>)
    requires |p| >= PONG_LEN
    ensures Reprints(TYPE_PONG, p) <==> |p| == PONG_LEN
  {
    AddrPortReprint(p[12..][..EP_LEN]);
    var m := ParseBody(TYPE_PONG, 0, p).message;
    assert Body(m) == p[..12] + p[12..][..EP_LEN];
    if |p| == PONG_LEN {
      assert p[12..][..EP_LEN] == p[12..];
      Join(p, 12);
    }
  }

  lemma CommonReprints(t: byte, p: seq<byte>)
    requires |p| >= COMMON_LEN && (t == TYPE_BIND || t == TYPE_CHALLENGE || t == TYPE_ANSWER)
    ensures Reprints(t, p) <==> |p| == COMMON_LEN
  {
    CommonReprint(p);
    assert Body(ParseBody(t, 0, p).message) == WireCommon(ParseCommon(p));
    assert |p| == COMMON_LEN ==> p[..COMMON_LEN] == p;
  }

  lemma RequestReprints(p: seq<byte>)
    requires |p| >= REQUEST_LEN
    ensures Reprints(TYPE_ALLOCATE_REQUEST, p) <==> |p| == REQUEST_LEN
  {
    Reprint32(p[64..][..4]);
    if |p| == REQUEST_LEN {
      assert p[64..][..4] == p[32..][32..];
      Join(p[32..], 32);
      Join(p, 32);
    }
  }

  lemma Reprinted(t: byte, p: seq<byte>, m: Message)
    requires ParseBody(t, 0, p) == Ok(m) && Body(m) == p
    ensures Reprints(t, p)
  {
  }

  lemma ResponseReprints(p: seq<byte>)
    requires |p| >= 4 && EndpointFits(p[4..])
    ensures Reprints(TYPE_ALLOCATE_RESPONSE, p)
  {
    var e := ParseEndpoint(p[4..]);
    Reprint32(p[..4]);
    EndpointReprint(p[4..]);
    Join(p, 4);
    ResponseBody(p);
    Reprinted(TYPE_ALLOCATE_RESPONSE, p, AllocateUDPRelayEndpointResponse(Get32(p[..4]), e));
  }

  lemma ViaReprints(p: seq<byte>)
    requires EndpointFits(p)
    ensures Reprints(TYPE_CALL_ME_MAYBE_VIA, p)
  {
    var e := ParseEndpoint(p);
    EndpointReprint(p);
    ViaBody(p);
    Reprinted(TYPE_CALL_ME_MAYBE_VIA, p, CallMeMaybeVia(e));
  }

  lemma CallReprints(p: seq<byte>)
    ensures Reprints(TYPE_CALL_ME_MAYBE, p) <==> |p| % EP_LEN == 0
  {
    if |p| % EP_LEN == 0 {
      AddrPortsReprint(p);
    }
  }

  lemma BodyReprint(t: byte, p: seq<byte>)
    requires ParseBody(t, 0, p).Ok?
    ensures Reprints(t, p) <==> BodyCanonical(t, p)
  {
    if t == TYPE_PING || t == TYPE_SOURCE_PATH_PROBE {
      ProbeReprint(p);
      assert Body(ParseBody(t, 0, p).message) == WireProbe(ParseProbe(p));
    } else if t == TYPE_PONG {
      PongReprints(p);
    } else if t == TYPE_CALL_ME_MAYBE {
      CallReprints(p);
    } else if t == TYPE_BIND || t == TYPE_CHALLENGE || t == TYPE_ANSWER {
      CommonReprints(t, p);
    } else if t == TYPE_ALLOCATE_REQUEST {
      RequestReprints(p);
    } else if t == TYPE_ALLOCATE_RESPONSE {
      ResponseReprints(p);
    } else {
      ViaReprints(p);
    }
  }

  lemma KindOfParsed(t: byte, ver: byte, p: seq<byte>)
    requires ParseBody(t, ver, p).Ok?
    ensures Kind(ParseBody(t, ver, p).message) == t
  {
  }

  /** Parsing then printing gives the bytes back for exactly the canonical version-0 encodings. */
  lemma ParseThenPrint(p: seq<byte>)
    requires Parsed(p).Ok?
    ensures Wire(Parsed(p).message) == p <==> p[1] == 0 && BodyCanonical(p[0], p[2..])
  {
    var t, ver, body := p[0], p[1], p[2..];
    var m := Parsed(p).message;
    KindOfParsed(t, ver, body);
    assert p == [t, ver] + body;
    assert Wire(m) == p <==> ver == 0 && Body(m) == body by {
      assert Wire(m)[1] == 0 && Wire(m)[2..] == Body(m) && p[2..] == body;
    }
    if ver == 0 {
      BodyReprint(t, body);
    }
  }

  // ---- Filling buffers ----

  /** Room for a message after b: type, version, and dataLen zero bytes to fill in. */
  method AppendMsgHeader(b: seq<byte>, t: byte, ver: byte, dataLen: nat) returns (all: array<byte>, at: nat)
    ensures fresh(all) && all.Length == |b| + 2 + dataLen && at == |b| + 2
    ensures all[..] == b + [t, ver] + Zeros(dataLen)
  {
    all := new byte[|b| + 2 + dataLen](i requires 0 <= i => if i < |b| then b[i] else 0);
    all[|b|] := t;
    all[|b| + 1] := ver;
    at := |b| + 2;
    assert all[..] == b + [t, ver] + Zeros(dataLen);
  }

  /** Copies s over the zeros at position `at` and moves on; `done` is what is final so far. */
  method Put(all: array<byte>, at: nat, s: seq<byte>, ghost done: seq<byte>) returns (next: nat)
    requires at + |s| <= all.Length && |done| == at
    requires all[..] == done + Zeros(all.Length - at)
    modifies all
    ensures next == at + |s|
    ensures all[..] == (done + s) + Zeros(all.Length - next)
  {
    forall i | 0 <= i < |s| {
      all[at + i] := s[i];
    }
    next := at + |s|;
    var a := all[..];
    assert forall i :: 0 <= i < at ==> a[i] == done[i];
    assert forall i :: 0 <= i < |s| ==> a[at + i] == s[i];
    assert a == (done + s) + Zeros(all.Length - next);
  }

  method PutAddrPorts(all: array<byte>, at: nat, aps: seq<AddrPort>, ghost done: seq<byte>) returns (next: nat)
    requires at + EP_LEN * |aps| <= all.Length && |done| == at
    requires all[..] == done + Zeros(all.Length - at)
    modifies all
    ensures next == at + EP_LEN * |aps|
    ensures all[..] == (done + WireAddrPorts(aps)) + Zeros(all.Length - next)
  {
    next := at;
    assert done + WireAddrPorts([]) == done;
    for i := 0 to |aps|
      invariant next == at + EP_LEN * i
      invariant all[..] == (done + WireAddrPorts(aps[..i])) + Zeros(all.Length - next)
    {
      ghost var sofar := done + WireAddrPorts(aps[..i]);
      assert aps[..i + 1] == aps[..i] + [aps[i]];
      AddrPortsSnoc(aps[..i], aps[i]);
      next := Put(all, next, As16(aps[i].addr), sofar);
      next := Put(all, next, Put16(aps[i].port), sofar + As16(aps[i].addr));
      assert sofar + As16(aps[i].addr) + Put16(aps[i].port) == done + WireAddrPorts(aps[..i + 1]);
    }
    assert aps[..|aps|] == aps;
  }

  lemma {:induction false} AddrPortsSnoc(aps: seq<AddrPort>, a: AddrPort)
    ensures WireAddrPorts(aps + [a]) == WireAddrPorts(aps) + WireAddrPort(a)
  {
    if aps == [] {
      assert aps + [a] == [a] && [a][1..] == [];
    } else {
      assert (aps + [a])[1..] == aps[1..] + [a];
      AddrPortsSnoc(aps[1..], a);
    }
  }

  method PutEndpoint(all: array<byte>, at: nat, e: Endpoint, ghost done: seq<byte>) returns (next: nat)
    requires at + ENDPOINT_FIXED + EP_LEN * |e.addrPorts| <= all.Length && |done| == at
    requires all[..] == done + Zeros(all.Length - at)
    modifies all
    ensures next == at + ENDPOINT_FIXED + EP_LEN * |e.addrPorts|
    ensures all[..] == (done + WireEndpoint(e)) + Zeros(all.Length - next)
  {
    ghost var d1 := done + e.serverDisco;
    ghost var d2 := d1 + e.client0;
    ghost var d3 := d2 + e.client1;
    ghost var d4 := d3 + Put64(e.lamportID);
    ghost var d5 := d4 + Put32(e.vni);
    ghost var d6 := d5 + Put64(ToU64(e.bindLifetime));
    ghost var d7 := d6 + Put64(ToU64(e.steadyStateLifetime));
    next := Put(all, at, e.serverDisco, done);
    next := Put(all, next, e.client0, d1);
    next := Put(all, next, e.client1, d2);
    next := Put(all, next, Put64(e.lamportID), d3);
    next := Put(all, next, Put32(e.vni), d4);
    next := Put(all, next, Put64(ToU64(e.bindLifetime)), d5);
    next := Put(all, next, Put64(ToU64(e.steadyStateLifetime)), d6);
    next := PutAddrPorts(all, next, e.addrPorts, d7);
    EndpointAssoc(done, e);
  }

  lemma EndpointAssoc(done: seq<byte>, e: Endpoint)
    ensures done + e.serverDisco + e.client0 + e.client1 + Put64(e.lamportID) + Put32(e.vni)
            + Put64(ToU64(e.bindLifetime)) + Put64(ToU64(e.steadyStateLifetime)) + WireAddrPorts(e.addrPorts)
         == done + WireEndpoint(e)
  {
    var t7 := WireAddrPorts(e.addrPorts);
    var t6 := Put64(ToU64(e.steadyStateLifetime)) + t7;
    var t5 := Put64(ToU64(e.bindLifetime)) + t6;
    var t4 := Put32(e.vni) + t5;
    var t3 := Put64(e.lamportID) + t4;
    var t2 := e.client1 + t3;
    var t1 := e.client0 + t2;
    var d1 := done + e.serverDisco;
    var d2 := d1 + e.client0;
    var d3 := d2 + e.client1;
    var d4 := d3 + Put64(e.lamportID);
    var d5 := d4 + Put32(e.vni);
    var d6 := d5 + Put64(ToU64(e.bindLifetime));
    Seqs.Assoc(done, e.serverDisco, t1);
    Seqs.Assoc(d1, e.client0, t2);
    Seqs.Assoc(d2, e.client1, t3);
    Seqs.Assoc(d3, Put64(e.lamportID), t4);
    Seqs.Assoc(d4, Put32(e.vni), t5);
    Seqs.Assoc(d5, Put64(ToU64(e.bindLifetime)), t6);
    Seqs.Assoc(d6, Put64(ToU64(e.steadyStateLifetime)), t7);
  }

  method PutCommon(all: array<byte>, at: nat, c: Common, ghost done: seq<byte>) returns (next: nat)
    requires at + COMMON_LEN <= all.Length && |done| == at
    requires all[..] == done + Zeros(all.Length - at)
    modifies all
    ensures next == at + COMMON_LEN
    ensures all[..] == (done + WireCommon(c)) + Zeros(all.Length - next)
  {
    ghost var d1 := done + Put32(c.vni);
    ghost var d2 := d1 + Put32(c.generation);
    next := Put(all, at, Put32(c.vni), done);
    next := Put(all, next, Put32(c.generation), d1);
    next := Put(all, next, c.remoteKey, d2);
    next := Put(all, next, c.challenge, d2 + c.remoteKey);
    Seqs.Assoc(done, Put32(c.vni), Put32(c.generation) + (c.remoteKey + c.challenge));
    Seqs.Assoc(d1, Put32(c.generation), c.remoteKey + c.challenge);
    Seqs.Assoc(d2, c.remoteKey, c.challenge);
  }

  /** The probe body; the padding is what stays zero. */
  method PutProbe(all: array<byte>, at: nat, p: Probe, ghost done: seq<byte>)
    requires |done| == at && all.Length == at + |WireProbe(p)|
    requires all[..] == done + Zeros(all.Length - at)
    modifies all
    ensures all[..] == done + WireProbe(p)
  {
    var next := Put(all, at, p.txID, done);
    if p.nodeKey != NO_KEY {
      next := Put(all, next, p.nodeKey, done + p.txID);
      Seqs.Assoc(done + p.txID, p.nodeKey, Zeros(p.padding));
      Seqs.Assoc(done, p.txID, p.nodeKey + Zeros(p.padding));
    } else {
      assert [] + Zeros(p.padding) == Zeros(p.padding);
      Seqs.Assoc(done, p.txID, Zeros(p.padding));
    }
  }

  lemma NothingLeft(done: seq<byte>)
    ensures done + Zeros(0) == done
  {
  }

  function BodyLen(m: Message): (n: nat)
    ensures n == |Body(m)|
  {
    match m
    case Ping(p) => (if p.nodeKey == NO_KEY then 12 else 44) + p.padding
    case SourcePathProbe(p) => (if p.nodeKey == NO_KEY then 12 else 44) + p.padding
    case Pong(_, _) => PONG_LEN
    case CallMeMaybe(aps) => EP_LEN * |aps|
    case BindUDPRelayEndpoint(_) => COMMON_LEN
    case BindUDPRelayEndpointChallenge(_) => COMMON_LEN
    case BindUDPRelayEndpointAnswer(_) => COMMON_LEN
    case CallMeMaybeVia(e) => ENDPOINT_FIXED + EP_LEN * |e.addrPorts|
    case AllocateUDPRelayEndpointRequest(_, _, _) => REQUEST_LEN
    case AllocateUDPRelayEndpointResponse(_, e) => 4 + ENDPOINT_FIXED + EP_LEN * |e.addrPorts|
  }

  /** Fills in everything after the header. */
  method PutBody(all: array<byte>, at: nat, m: Message, ghost done: seq<byte>)
    requires |done| == at && all.Length == at + BodyLen(m)
    requires all[..] == done + Zeros(all.Length - at)
    modifies all
    ensures all[..] == done + Body(m)
  {
    NothingLeft(done + Body(m));
    var next;
    match m {
      case Ping(p) => PutProbe(all, at, p, done);
      case SourcePathProbe(p) => PutProbe(all, at, p, done);
      case Pong(tx, src) =>
        next := Put(all, at, tx, done);
        next := Put(all, next, As16(src.addr), done + tx);
        next := Put(all, next, Put16(src.port), done + tx + As16(src.addr));
        Seqs.Assoc(done + tx, As16(src.addr), Put16(src.port));
        Seqs.Assoc(done, tx, WireAddrPort(src));
      case CallMeMaybe(aps) => next := PutAddrPorts(all, at, aps, done);
      case BindUDPRelayEndpoint(c) => next := PutCommon(all, at, c, done);
      case BindUDPRelayEndpointChallenge(c) => next := PutCommon(all, at, c, done);
      case BindUDPRelayEndpointAnswer(c) => next := PutCommon(all, at, c, done);
      case CallMeMaybeVia(e) => next := PutEndpoint(all, at, e, done);
      case AllocateUDPRelayEndpointRequest(c0, c1, g) =>
        next := Put(all, at, c0, done);
        next := Put(all, next, c1, done + c0);
        next := Put(all, next, Put32(g), done + c0 + c1);
        Seqs.Assoc(done + c0, c1, Put32(g));
        Seqs.Assoc(done, c0, c1 + Put32(g));
      case AllocateUDPRelayEndpointResponse(g, e) =>
        next := Put(all, at, Put32(g), done);
        next := PutEndpoint(all, next, e, done + Put32(g));
        Seqs.Assoc(done, Put32(g), WireEndpoint(e));
    }
  }

  /** The prefix law: what is already in b stays, and the message's own bytes follow. */
  method AppendMarshal(m: Message, b: seq<byte>) returns (r: seq<byte>)
    ensures r == b + Wire(m)
  {
    var all, at := AppendMsgHeader(b, Kind(m), 0, BodyLen(m));
    PutBody(all, at, m, b + [Kind(m), 0]);
    r := all[..];
    Seqs.Assoc(b, [Kind(m), 0], Body(m));
  }

  // ---- Parsing in loops ----

  /** Go's make([]T, 0, capacity), which panics on a negative capacity. */
  method MakeAddrPorts(capacity: int) returns (r: seq<AddrPort>)
    requires capacity >= 0
    ensures r == []
  {
    r := [];
  }

  method ParseAddrPorts(start: seq<AddrPort>, body: seq<byte>) returns (r: seq<AddrPort>)
    requires |body| % EP_LEN == 0
    ensures r == start + ReadAddrPorts(body)
  {
    var p := body;
    r := start;
    while |p| > 0
      invariant |p| % EP_LEN == 0
      invariant r + ReadAddrPorts(p) == start + ReadAddrPorts(body)
    {
      var a := p[..16];
      r := r + [AddrPort(Unmap(From16(a)), Get16(p[16..18]))];
      assert p[..EP_LEN][..16] == a && p[..EP_LEN][16..] == p[16..18];
      p := p[EP_LEN..];
    }
  }

  method DecodeEndpoint(body: seq<byte>) returns (ok: bool, e: Endpoint)
    ensures ok <==> EndpointFits(body)
    ensures ok ==> e == ParseEndpoint(body)
  {
    e := NO_ENDPOINT;
    if |body| < ENDPOINT_FIXED + EP_LEN || (|body| - ENDPOINT_FIXED) % EP_LEN != 0 {
      return false, e;
    }
    var b := body;
    e := e.(serverDisco := b[..32]);
    b := b[32..];
    e := e.(client0 := b[..32]);
    b := b[32..];
    e := e.(client1 := b[..32]);
    b := b[32..];
    e := e.(lamportID := Get64(b[..8]));
    b := b[8..];
    e := e.(vni := Get32(b[..4]));
    b := b[4..];
    e := e.(bindLifetime := FromU64(Get64(b[..8])));
    b := b[8..];
    e := e.(steadyStateLifetime := FromU64(Get64(b[..8])));
    b := b[8..];
    // the capacity as the source computes it
    var aps := MakeAddrPorts(|b| - ENDPOINT_FIXED / EP_LEN);
    aps := ParseAddrPorts(aps, b);
    e := e.(addrPorts := aps);
    ok := true;
  }

  /** Total on every byte string: each index and slice is in range, and the result is Parsed. */
  method Parse(p: seq<byte>) returns (r: Result)
    ensures r == Parsed(p)
  {
    if |p| < 2 {
      return ErrShort;
    }
    var t, ver, body := p[0], p[1], p[2..];
    if t == TYPE_CALL_ME_MAYBE {
      if |body| % EP_LEN != 0 || ver != 0 || |body| == 0 {
        return Ok(CallMeMaybe([]));
      }
      var aps := MakeAddrPorts(|body| / EP_LEN);
      aps := ParseAddrPorts(aps, body);
      assert [] + ReadAddrPorts(body) == ReadAddrPorts(body);
      return Ok(CallMeMaybe(aps));
    } else if t == TYPE_CALL_ME_MAYBE_VIA {
      if ver != 0 {
        return Ok(CallMeMaybeVia(NO_ENDPOINT));
      }
      var ok, e := DecodeEndpoint(body);
      return if ok then Ok(CallMeMaybeVia(e)) else ErrShort;
    } else if t == TYPE_ALLOCATE_RESPONSE {
      if ver != 0 {
        return Ok(AllocateUDPRelayEndpointResponse(0, NO_ENDPOINT));
      }
      if |body| < 4 {
        return ErrShort;
      }
      var ok, e := DecodeEndpoint(body[4..]);
      return if ok then Ok(AllocateUDPRelayEndpointResponse(Get32(body[..4]), e)) else ErrShort;
    }
    // the remaining kinds are parsed without loops
    r := ParseBody(t, ver, body);
  }
}
