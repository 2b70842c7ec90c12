/** The disco wire codec (disco/disco.go): ten message kinds, printers and parsers. */
module Disco {
  import opened Bytes
  import opened Net
  import Seqs

  type Key = s: seq<byte> | |s| == 32 witness Zeros(32)
  type TxID = s: seq<byte> | |s| == 12 witness Zeros(12)
  type U32 = x: int | 0 <= x < 0x1_0000_0000
  type U64 = x: int | 0 <= x < 0x1_0000_0000_0000_0000
  type Duration = x: int | -0x8000_0000_0000_0000 <= x < 0x8000_0000_0000_0000

  const TYPE_PING: byte := 0x01
  const TYPE_PONG: byte := 0x02
  const TYPE_CALL_ME_MAYBE: byte := 0x03
  const TYPE_BIND: byte := 0x04
  const TYPE_CHALLENGE: byte := 0x05
  const TYPE_ANSWER: byte := 0x06
  const TYPE_CALL_ME_MAYBE_VIA: byte := 0x07
  const TYPE_ALLOCATE_REQUEST: byte := 0x08
  const TYPE_ALLOCATE_RESPONSE: byte := 0x09
  const TYPE_SOURCE_PATH_PROBE: byte := 0x0a

  const EP_LEN: nat := 18
  const PONG_LEN: nat := 30
  const COMMON_LEN: nat := 72
  const REQUEST_LEN: nat := 68
  const ENDPOINT_FIXED: nat := 124

  datatype Probe = Probe(txID: TxID, nodeKey: Key, padding: nat)

  datatype Common = Common(vni: U32, generation: U32, remoteKey: Key, challenge: Key)

  datatype Endpoint = Endpoint(serverDisco: Key, client0: Key, client1: Key, lamportID: U64, vni: U32,
                               bindLifetime: Duration, steadyStateLifetime: Duration, addrPorts: seq<AddrPort>)

  datatype Message =
    | Ping(probe: Probe)
    | SourcePathProbe(probe: Probe)
    | Pong(txID: TxID, src: AddrPort)
    | CallMeMaybe(myNumber: seq<AddrPort>)
    | BindUDPRelayEndpoint(common: Common)
    | BindUDPRelayEndpointChallenge(common: Common)
    | BindUDPRelayEndpointAnswer(common: Common)
    | CallMeMaybeVia(endpoint: Endpoint)
    | AllocateUDPRelayEndpointRequest(client0: Key, client1: Key, generation: U32)
    | AllocateUDPRelayEndpointResponse(generation: U32, endpoint: Endpoint)

  datatype Result = Ok(message: Message) | ErrShort | ErrUnknownType(kind: byte)

  const NO_KEY: Key := Zeros(32)
  const NO_ENDPOINT: Endpoint := Endpoint(NO_KEY, NO_KEY, NO_KEY, 0, 0, 0, 0, [])

  // ---- Conversions ----

  /** Go's conversions between a signed duration and its unsigned 64-bit pattern. */
  function ToU64(d: Duration): U64 {
    if d >= 0 then d else d + 0x1_0000_0000_0000_0000
  }

  function FromU64(u: U64): Duration {
    if u < 0x8000_0000_0000_0000 then u else u - 0x1_0000_0000_0000_0000
  }

  function Get16(s: seq<byte>): Port
    requires |s| == 2
  {
    GetBEBound(s);
    Widths();
    GetBE(s)
  }

  function Get32(s: seq<byte>): U32
    requires |s| == 4
  {
    GetBEBound(s);
    Widths();
    GetBE(s)
  }

  function Get64(s: seq<byte>): U64
    requires |s| == 8
  {
    GetBEBound(s);
    Widths();
    GetBE(s)
  }

  lemma Round16(v: Port) ensures Get16(Put16(v)) == v { Widths(); PutThenGet(v, 2); }
  lemma Round32(v: U32) ensures Get32(Put32(v)) == v { Widths(); PutThenGet(v, 4); }
  lemma Round64(v: U64) ensures Get64(Put64(v)) == v { Widths(); PutThenGet(v, 8); }

  // ---- What each message is on the wire ----

  function WireAddrPort(a: AddrPort): (s: seq<byte>)
    ensures |s| == EP_LEN
  {
    As16(a.addr) + Put16(a.port)
  }

  function WireAddrPorts(aps: seq<AddrPort>): (s: seq<byte>)
    ensures |s| == EP_LEN * |aps|
  {
    if aps == [] then [] else WireAddrPort(aps[0]) + WireAddrPorts(aps[1..])
  }

  function WireProbe(p: Probe): seq<byte> {
    p.txID + ((if p.nodeKey == NO_KEY then [] else p.nodeKey) + Zeros(p.padding))
  }

  function WireCommon(c: Common): (s: seq<byte>)
    ensures |s| == COMMON_LEN
  {
    Put32(c.vni) + (Put32(c.generation) + (c.remoteKey + c.challenge))
  }

  function WireEndpoint(e: Endpoint): (s: seq<byte>)
    ensures |s| == ENDPOINT_FIXED + EP_LEN * |e.addrPorts|
  {
    e.serverDisco + (e.client0 + (e.client1 + (Put64(e.lamportID) + (Put32(e.vni)
    + (Put64(ToU64(e.bindLifetime)) + (Put64(ToU64(e.steadyStateLifetime)) + WireAddrPorts(e.addrPorts)))))))
  }

  function Kind(m: Message): byte {
    match m
    case Ping(_) => TYPE_PING
    case SourcePathProbe(_) => TYPE_SOURCE_PATH_PROBE
    case Pong(_, _) => TYPE_PONG
    case CallMeMaybe(_) => TYPE_CALL_ME_MAYBE
    case BindUDPRelayEndpoint(_) => TYPE_BIND
    case BindUDPRelayEndpointChallenge(_) => TYPE_CHALLENGE
    case BindUDPRelayEndpointAnswer(_) => TYPE_ANSWER
    case CallMeMaybeVia(_) => TYPE_CALL_ME_MAYBE_VIA
    case AllocateUDPRelayEndpointRequest(_, _, _) => TYPE_ALLOCATE_REQUEST
    case AllocateUDPRelayEndpointResponse(_, _) => TYPE_ALLOCATE_RESPONSE
  }

  function Body(m: Message): seq<byte> {
    match m
    case Ping(p) => WireProbe(p)
    case SourcePathProbe(p) => WireProbe(p)
    case Pong(tx, src) => tx + WireAddrPort(src)
    case CallMeMaybe(aps) => WireAddrPorts(aps)
    case BindUDPRelayEndpoint(c) => WireCommon(c)
    case BindUDPRelayEndpointChallenge(c) => WireCommon(c)
    case BindUDPRelayEndpointAnswer(c) => WireCommon(c)
    case CallMeMaybeVia(e) => WireEndpoint(e)
    case AllocateUDPRelayEndpointRequest(c0, c1, g) => c0 + (c1 + Put32(g))
    case AllocateUDPRelayEndpointResponse(g, e) => Put32(g) + WireEndpoint(e)
  }

  function Wire(m: Message): seq<byte> {
    [Kind(m), 0] + Body(m)
  }

  // ---- Parsing ----

  function ReadAddrPort(p: seq<byte>): AddrPort
    requires |p| == EP_LEN
  {
    AddrPort(Unmap(From16(p[..16])), Get16(p[16..]))
  }

  function ReadAddrPorts(p: seq<byte>): seq<AddrPort>
    requires |p| % EP_LEN == 0
  {
    if |p| == 0 then [] else [ReadAddrPort(p[..EP_LEN])] + ReadAddrPorts(p[EP_LEN..])
  }

  function ParseProbe(p: seq<byte>): Probe
    requires |p| >= 12
  {
    var rest := p[12..];
    if |rest| >= 32 then Probe(p[..12], rest[..32], |p| - 12 - 32) else Probe(p[..12], NO_KEY, |p| - 12)
  }

  function ParseCommon(b: seq<byte>): Common
    requires |b| >= COMMON_LEN
  {
    var b1 := b[4..];
    var b2 := b1[4..];
    var b3 := b2[32..];
    Common(Get32(b[..4]), Get32(b1[..4]), b2[..32], b3[..32])
  }

  predicate EndpointFits(b: seq<byte>) {
    |b| >= ENDPOINT_FIXED + EP_LEN && (|b| - ENDPOINT_FIXED) % EP_LEN == 0
  }

  function ParseEndpoint(b: seq<byte>): Endpoint
    requires EndpointFits(b)
  {
    var b1 := b[32..];
    var b2 := b1[32..];
    var b3 := b2[32..];
    var b4 := b3[8..];
    var b5 := b4[4..];
    var b6 := b5[8..];
    var b7 := b6[8..];
    Endpoint(b[..32], b1[..32], b2[..32], Get64(b3[..8]), Get32(b4[..4]),
             FromU64(Get64(b5[..8])), FromU64(Get64(b6[..8])), ReadAddrPorts(b7))
  }

  function ParseBody(t: byte, ver: byte, p: seq<byte>): Result {
    if t == TYPE_PING then
      if |p| < 12 then ErrShort else Ok(Ping(ParseProbe(p)))
    else if t == TYPE_PONG then
      if |p| < PONG_LEN then ErrShort else Ok(Pong(p[..12], ReadAddrPort(p[12..][..EP_LEN])))
    else if t == TYPE_CALL_ME_MAYBE then
      Ok(CallMeMaybe(if |p| % EP_LEN != 0 || ver != 0 then [] else ReadAddrPorts(p)))
    else if t == TYPE_BIND then
      if |p| < COMMON_LEN then ErrShort else Ok(BindUDPRelayEndpoint(ParseCommon(p)))
    else if t == TYPE_CHALLENGE then
      if |p| < COMMON_LEN then ErrShort else Ok(BindUDPRelayEndpointChallenge(ParseCommon(p)))
    else if t == TYPE_ANSWER then
      if |p| < COMMON_LEN then ErrShort else Ok(BindUDPRelayEndpointAnswer(ParseCommon(p)))
    else if t == TYPE_CALL_ME_MAYBE_VIA then
      if ver != 0 then Ok(CallMeMaybeVia(NO_ENDPOINT))
      else if !EndpointFits(p) then ErrShort else Ok(CallMeMaybeVia(ParseEndpoint(p)))
    else if t == TYPE_ALLOCATE_REQUEST then
      if ver != 0 then Ok(AllocateUDPRelayEndpointRequest(NO_KEY, NO_KEY, 0))
      else if |p| < REQUEST_LEN then ErrShort
      else Ok(AllocateUDPRelayEndpointRequest(p[..32], p[32..][..32], Get32(p[64..][..4])))
    else if t == TYPE_ALLOCATE_RESPONSE then
      if ver != 0 then Ok(AllocateUDPRelayEndpointResponse(0, NO_ENDPOINT))
      else if |p| < 4 || !EndpointFits(p[4..]) then ErrShort
      else Ok(AllocateUDPRelayEndpointResponse(Get32(p[..4]), ParseEndpoint(p[4..])))
    else if t == TYPE_SOURCE_PATH_PROBE then
      if |p| < 12 then ErrShort else Ok(SourcePathProbe(ParseProbe(p)))
    else ErrUnknownType(t)
  }

  function Parsed(p: seq<byte>): Result {
    if |p| < 2 then ErrShort else ParseBody(p[0], p[1], p[2..])
  }

  // ---- Print, then parse ----

  ghost predicate AllPlain(aps: seq<AddrPort>) {
    forall i :: 0 <= i < |aps| ==> Plain(aps[i].addr)
  }

  /** The messages that survive the wire. */
  ghost predicate Representable(m: Message) {
    match m
    case Ping(p) => p.nodeKey != NO_KEY || p.padding < 32
    case SourcePathProbe(p) => p.nodeKey != NO_KEY || p.padding < 32
    case Pong(_, src) => Plain(src.addr)
    case CallMeMaybe(aps) => AllPlain(aps)
    case CallMeMaybeVia(e) => e.addrPorts != [] && AllPlain(e.addrPorts)
    case AllocateUDPRelayEndpointResponse(_, e) => e.addrPorts != [] && AllPlain(e.addrPorts)
    case _ => true
  }

  lemma AddrPortRound(a: AddrPort)
    ensures ReadAddrPort(WireAddrPort(a)) == a <==> Plain(a.addr)
  {
    var w := WireAddrPort(a);
    assert w[..16] == As16(a.addr) && w[16..] == Put16(a.port);
    Round16(a.port);
    AddrRoundTrip(a.addr);
  }

  lemma ReadCons(first: seq<byte>, rest: seq<byte>)
    requires |first| == EP_LEN && |rest| % EP_LEN == 0
    ensures ReadAddrPorts(first + rest) == [ReadAddrPort(first)] + ReadAddrPorts(rest)
  {
    Cut(first, rest);
  }

  lemma PlainCons(aps: seq<AddrPort>)
    requires aps != []
    ensures AllPlain(aps) <==> Plain(aps[0].addr) && AllPlain(aps[1..])
  {
    assert aps == [aps[0]] + aps[1..];
  }

  lemma {:induction false} AddrPortsRound(aps: seq<AddrPort>)
    ensures ReadAddrPorts(WireAddrPorts(aps)) == aps <==> AllPlain(aps)
    ensures |ReadAddrPorts(WireAddrPorts(aps))| == |aps|
  {
    if aps != [] {
      var first, rest := WireAddrPort(aps[0]), WireAddrPorts(aps[1..]);
      AddrPortRound(aps[0]);
      AddrPortsRound(aps[1..]);
      ReadCons(first, rest);
      PlainCons(aps);
      Seqs.SplitAt(aps, 0);
      Seqs.SameCons(ReadAddrPort(first), ReadAddrPorts(rest), aps[0], aps[1..]);
    }
  }

  lemma ProbeRound(p: Probe)
    ensures |WireProbe(p)| >= 12
    ensures ParseProbe(WireProbe(p)) == p <==> p.nodeKey != NO_KEY || p.padding < 32
  {
    var w := WireProbe(p);
    assert w[..12] == p.txID;
    if p.nodeKey == NO_KEY {
      assert w[12..] == Zeros(p.padding);
    } else {
      assert w[12..] == p.nodeKey + Zeros(p.padding);
      assert w[12..][..32] == p.nodeKey;
    }
  }

  lemma CommonRound(c: Common)
    ensures ParseCommon(WireCommon(c)) == c
  {
    Round32(c.vni);
    Round32(c.generation);
    var b := WireCommon(c);
    var b1 := b[4..];
    assert b1 == Put32(c.generation) + (c.remoteKey + c.challenge);
    assert b1[4..] == c.remoteKey + c.challenge;
  }

  /** Seven pieces and a rest are cut off one after the other. */
  lemma Cuts(a: seq<byte>, b: seq<byte>, c: seq<byte>, d: seq<byte>, e: seq<byte>, f: seq<byte>, g: seq<byte>, t: seq<byte>)
    ensures var w := a + (b + (c + (d + (e + (f + (g + t))))));
            var w1 := w[|a|..];
            var w2 := w1[|b|..];
            var w3 := w2[|c|..];
            var w4 := w3[|d|..];
            var w5 := w4[|e|..];
            var w6 := w5[|f|..];
            && w[..|a|] == a && w1[..|b|] == b && w2[..|c|] == c && w3[..|d|] == d
            && w4[..|e|] == e && w5[..|f|] == f && w6[..|g|] == g && w6[|g|..] == t
  {
    Cut(a, b + (c + (d + (e + (f + (g + t))))));
    Cut(b, c + (d + (e + (f + (g + t)))));
    Cut(c, d + (e + (f + (g + t))));
    Cut(d, e + (f + (g + t)));
    Cut(e, f + (g + t));
    Cut(f, g + t);
    Cut(g, t);
  }

  /** All but the addresses always survive. */
  lemma EndpointFields(e: Endpoint)
    requires e.addrPorts != []
    ensures EndpointFits(WireEndpoint(e))
    ensures ParseEndpoint(WireEndpoint(e)) == e.(addrPorts := ReadAddrPorts(WireAddrPorts(e.addrPorts)))
  {
    Cuts(e.serverDisco, e.client0, e.client1, Put64(e.lamportID), Put32(e.vni), Put64(ToU64(e.bindLifetime)),
         Put64(ToU64(e.steadyStateLifetime)), WireAddrPorts(e.addrPorts));
    Round64(e.lamportID);
    Round32(e.vni);
    Round64(ToU64(e.bindLifetime));
    Round64(ToU64(e.steadyStateLifetime));
  }

  lemma EndpointRound(e: Endpoint)
    ensures EndpointFits(WireEndpoint(e)) <==> e.addrPorts != []
    ensures e.addrPorts != [] ==> (ParseEndpoint(WireEndpoint(e)) == e <==> AllPlain(e.addrPorts))
  {
    if e.addrPorts != [] {
      EndpointFields(e);
      AddrPortsRound(e.addrPorts);
    }
  }

  lemma Cut(a: seq<byte>, b: seq<byte>)
    ensures (a + b)[..|a|] == a && (a + b)[|a|..] == b
  {
  }

  lemma WireParts(m: Message)
    ensures Parsed(Wire(m)) == ParseBody(Kind(m), 0, Body(m))
  {
    Cut([Kind(m), 0], Body(m));
  }

  ghost predicate Survives(m: Message) {
    ParseBody(Kind(m), 0, Body(m)) == Ok(m)
  }

  lemma PongSurvives(tx: TxID, src: AddrPort)
    ensures Survives(Pong(tx, src)) <==> Plain(src.addr)
  {
    var w := WireAddrPort(src);
    Cut(tx, w);
    assert w[..EP_LEN] == w;
    AddrPortRound(src);
    assert Body(Pong(tx, src)) == tx + w;
  }

  lemma ViaBody(p: seq<byte>)
    ensures ParseBody(TYPE_CALL_ME_MAYBE_VIA, 0, p)
         == if !EndpointFits(p) then ErrShort else Ok(CallMeMaybeVia(ParseEndpoint(p)))
  {
  }

  lemma ViaSurvives(e: Endpoint)
    ensures Survives(CallMeMaybeVia(e)) <==> e.addrPorts != [] && AllPlain(e.addrPorts)
  {
    EndpointRound(e);
    ViaBody(WireEndpoint(e));
  }

  lemma ResponseSurvives(g: U32, e: Endpoint)
    ensures Survives(AllocateUDPRelayEndpointResponse(g, e)) <==> e.addrPorts != [] && AllPlain(e.addrPorts)
  {
    var w := WireEndpoint(e);
    Cut(Put32(g), w);
    Round32(g);
    EndpointRound(e);
    ResponseParts(g, e, w, Put32(g) + w);
  }

  lemma ResponseBody(p: seq<byte>)
    ensures ParseBody(TYPE_ALLOCATE_RESPONSE, 0, p)
         == if |p| < 4 || !EndpointFits(p[4..]) then ErrShort
            else Ok(AllocateUDPRelayEndpointResponse(Get32(p[..4]), ParseEndpoint(p[4..])))
  {
  }

  lemma ResponseParts(g: U32, e: Endpoint, w: seq<byte>, p: seq<byte>)
    requires |p| >= 4 && Get32(p[..4]) == g && p[4..] == w && Body(AllocateUDPRelayEndpointResponse(g, e)) == p
    ensures Survives(AllocateUDPRelayEndpointResponse(g, e)) <==> EndpointFits(w) && ParseEndpoint(w) == e
  {
    ResponseBody(p);
  }

  lemma RequestSurvives(c0: Key, c1: Key, g: U32)
    ensures Survives(AllocateUDPRelayEndpointRequest(c0, c1, g))
  {
    RequestRound(c0, c1, g);
  }

  lemma ProbeSurvives(p: Probe)
    ensures Survives(Ping(p)) <==> Representable(Ping(p))
    ensures Survives(SourcePathProbe(p)) <==> Representable(SourcePathProbe(p))
  {
    ProbeRound(p);
  }

  lemma MaybeSurvives(aps: seq<AddrPort>)
    ensures Survives(CallMeMaybe(aps)) <==> AllPlain(aps)
  {
    AddrPortsRound(aps);
  }

  lemma CommonSurvives(c: Common)
    ensures Survives(BindUDPRelayEndpoint(c)) && Survives(BindUDPRelayEndpointChallenge(c))
    ensures Survives(BindUDPRelayEndpointAnswer(c))
  {
    CommonRound(c);
  }

  /** Printing then parsing gives the message back for exactly the representable ones. */
  lemma PrintThenParse(m: Message)
    ensures Parsed(Wire(m)) == Ok(m) <==> Representable(m)
  {
    WireParts(m);
    SurvivesIff(m);
  }

  lemma SurvivesIff(m: Message)
    ensures Survives(m) <==> Representable(m)
  {
    match m
    case Ping(p) => ProbeSurvives(p);
    case SourcePathProbe(p) => ProbeSurvives(p);
    case Pong(tx, src) => PongSurvives(tx, src);
    case CallMeMaybe(aps) => MaybeSurvives(aps);
    case BindUDPRelayEndpoint(c) => CommonSurvives(c);
    case BindUDPRelayEndpointChallenge(c) => CommonSurvives(c);
    case BindUDPRelayEndpointAnswer(c) => CommonSurvives(c);
    case CallMeMaybeVia(e) => ViaSurvives(e);
    case AllocateUDPRelayEndpointRequest(c0, c1, g) => RequestSurvives(c0, c1, g);
    case AllocateUDPRelayEndpointResponse(g, e) => ResponseSurvives(g, e);
  }

  lemma RequestRound(c0: Key, c1: Key, g: U32)
    ensures var p := c0 + (c1 + Put32(g)); p[..32] == c0 && p[32..][..32] == c1 && Get32(p[64..][..4]) == g
  {
    Cut(c0, c1 + Put32(g));
    Cut(c1, Put32(g));
    Round32(g);
    var p := c0 + (c1 + Put32(g));
    assert p[64..] == p[32..][32..] == Put32(g);
    assert Put32(g)[..4] == Put32(g);
  }
}
