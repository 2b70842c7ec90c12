/** The DERP client's receive loop (derp/derp_client.go) against a plain list of frames. */
module DerpClient {
  import opened Options
  import Seqs
  import opened Bytes
  import opened Net
  import opened DerpFrame

  const KEY_LEN: nat := 32
  const NONCE_LEN: nat := 24
  const MAX_INFO_LEN: nat := 1048576
  const IP_PORT_LEN: nat := 18
  const MAX_FRAME: nat := 1048576
  const MIN_BUFFER: nat := 16
  const MILLISECOND: nat := 1000000

  const SERVER_INFO: byte := 0x03
  const RECV_PACKET: byte := 0x05
  const KEEP_ALIVE: byte := 0x06
  const PEER_GONE: byte := 0x08
  const PEER_PRESENT: byte := 0x09
  const PING: byte := 0x12
  const PONG: byte := 0x13
  const HEALTH: byte := 0x14
  const RESTARTING: byte := 0x15

  datatype Message =
    | ServerInfo(bytesPerSecond: int, bytesBurst: int)
    | KeepAlive
    | PeerGone(peer: seq<byte>, reason: byte)
    | PeerPresent(key: seq<byte>, ipPort: AddrPort, flags: byte)
    | Packet(source: seq<byte>, data: seq<byte>)
    | Ping(payload: seq<byte>)
    | Pong(payload: seq<byte>)
    | Health(problem: seq<byte>)
    | Restarting(reconnectIn: nat, tryFor: nat)

  datatype RecvErr = Read(cause: ReadErr) | FrameTooLarge(length: nat) | BadServerInfo

  datatype Decoding = Skip | Deliver(message: Message) | Refuse(err: RecvErr)

  /** Opening and unmarshalling a server-info box is done by other packages. */
  type Opener = seq<byte> -> Option<(int, int)>

  function CutLeading(b: seq<byte>, n: nat): Option<(seq<byte>, seq<byte>)> {
    if |b| >= n then Some((b[..n], b[n..])) else None
  }

  function DecodePeerPresent(b: seq<byte>): Decoding {
    match CutLeading(b, KEY_LEN)
    case None => Skip
    case Some((key, r1)) =>
      match CutLeading(r1, IP_PORT_LEN)
      case None => Deliver(PeerPresent(key, AddrPort(NoAddr, 0), 0))
      case Some((ip, r2)) =>
        GetBEBound(ip[16..]);
        Widths();
        var ipPort := AddrPort(Unmap(From16(ip[..16])), GetBE(ip[16..]));
        match CutLeading(r2, 1)
        case None => Deliver(PeerPresent(key, ipPort, 0))
        case Some((flag, _)) => Deliver(PeerPresent(key, ipPort, flag[0]))
  }

  /** What one frame means to the client. */
  function Decode(open: Opener, f: Frame): Decoding {
    var b := f.body;
    if f.kind == SERVER_INFO then
      if |b| < NONCE_LEN || |b| > NONCE_LEN + MAX_INFO_LEN then Refuse(BadServerInfo)
      else
        match open(b)
        case None => Refuse(BadServerInfo)
        case Some((rate, burst)) => Deliver(ServerInfo(rate, burst))
    else if f.kind == KEEP_ALIVE then Deliver(KeepAlive)
    else if f.kind == PEER_GONE then
      if |b| < KEY_LEN then Skip
      else Deliver(PeerGone(b[..KEY_LEN], if |b| > KEY_LEN then b[KEY_LEN] else 0))
    else if f.kind == PEER_PRESENT then DecodePeerPresent(b)
    else if f.kind == RECV_PACKET then
      if |b| < KEY_LEN then Skip else Deliver(Packet(b[..KEY_LEN], b[KEY_LEN..]))
    else if f.kind == PING then
      if |b| < 8 then Skip else Deliver(Ping(b[..8]))
    else if f.kind == PONG then
      if |b| < 8 then Skip else Deliver(Pong(b[..8]))
    else if f.kind == HEALTH then Deliver(Health(b))
    else if f.kind == RESTARTING then
      if |b| < 8 then Skip
      else Deliver(Restarting(GetBE(b[..4]) * MILLISECOND, GetBE(b[4..8]) * MILLISECOND))
    else Skip
  }

  type Decoder = Frame -> Decoding

  /** The decoder of a client whose server-info boxes are opened by `open`. */
  function ClientDecoder(open: Opener): Decoder {
    f => Decode(open, f)
  }

  // ---- One Recv over raw bytes ----

  datatype Outcome = Got(message: Message, rest: seq<byte>) | Broken(err: RecvErr)

  /** The cause of a body that is cut short: large bodies are read, small ones only peeked at. */
  function BodyErr(size: nat, end: ReadErr, length: nat, had: nat): ReadErr {
    if length <= size then end else ShortRead(end, had)
  }

  function RecvFrom(decode: Decoder, size: nat, end: ReadErr, s: seq<byte>): (o: Outcome)
    ensures o.Got? ==> |o.rest| < |s|
    decreases |s|
  {
    if |s| < HEADER_LEN then Broken(Read(end))
    else
      var n := LengthField(s);
      if n > MAX_FRAME then Broken(FrameTooLarge(n))
      else if |s| < HEADER_LEN + n then Broken(Read(BodyErr(size, end, n, |s| - HEADER_LEN)))
      else
        var rest := s[HEADER_LEN + n..];
        match decode(Frame(s[0], s[HEADER_LEN..HEADER_LEN + n]))
        case Skip => RecvFrom(decode, size, end, rest)
        case Deliver(m) => Got(m, rest)
        case Refuse(e) => Broken(e)
  }

  /** Calling Recv until it fails: the messages, and the error the client is left with. */
  function RecvAll(decode: Decoder, size: nat, end: ReadErr, s: seq<byte>): (seq<Message>, RecvErr)
    decreases |s|
  {
    match RecvFrom(decode, size, end, s)
    case Broken(e) => ([], e)
    case Got(m, rest) => var (ms, e) := RecvAll(decode, size, end, rest); ([m] + ms, e)
  }

  // ---- The reference: a list of frames ----

  /** What a client must report for a list of frames, and what comes after it: no bytes, no buffers. */
  function Report(decode: Decoder, last: RecvErr, fs: seq<Frame>): (seq<Message>, RecvErr) {
    if fs == [] then ([], last)
    else if |fs[0].body| > MAX_FRAME then ([], FrameTooLarge(|fs[0].body|))
    else
      match decode(fs[0])
      case Skip => Report(decode, last, fs[1..])
      case Refuse(e) => ([], e)
      case Deliver(m) => var (ms, e) := Report(decode, last, fs[1..]); ([m] + ms, e)
  }

  lemma FrontFrame(f: Frame, more: seq<byte>)
    requires |f.body| < UINT32
    ensures var s := FrameBytes(f) + more;
            && |s| >= HEADER_LEN + |f.body| && LengthField(s) == |f.body|
            && f == Frame(s[0], s[HEADER_LEN..HEADER_LEN + |f.body|])
            && s[HEADER_LEN + |f.body|..] == more
  {
    SplitEncoded(f, more);
  }

  lemma {:induction false} RecvRefinesThen(decode: Decoder, size: nat, end: ReadErr, fs: seq<Frame>, tail: seq<byte>, last: RecvErr)
    requires forall i :: 0 <= i < |fs| ==> |fs[i].body| < UINT32
    requires RecvFrom(decode, size, end, tail) == Broken(last)
    ensures RecvAll(decode, size, end, Encode(fs) + tail) == Report(decode, last, fs)
  {
    if fs == [] {
      assert Encode(fs) + tail == tail;
    } else {
      var more := Encode(fs[1..]) + tail;
      assert Encode(fs) + tail == FrameBytes(fs[0]) + more by {
        Seqs.Assoc(FrameBytes(fs[0]), Encode(fs[1..]), tail);
      }
      FrontFrame(fs[0], more);
      RecvRefinesThen(decode, size, end, fs[1..], tail, last);
      if |fs[0].body| <= MAX_FRAME && decode(fs[0]).Skip? {
        assert RecvFrom(decode, size, end, FrameBytes(fs[0]) + more) == RecvFrom(decode, size, end, more);
      }
    }
  }

  /**
   * The receive loop refines the frame list: over any concatenation of frames and any buffer size,
   * successive Recv calls report exactly what the list means. Skipped frames leave no trace.
   */
  lemma RecvRefinesFrames(decode: Decoder, size: nat, end: ReadErr, fs: seq<Frame>)
    requires forall i :: 0 <= i < |fs| ==> |fs[i].body| < UINT32
    ensures RecvAll(decode, size, end, Encode(fs)) == Report(decode, Read(end), fs)
  {
    RecvRefinesThen(decode, size, end, fs, [], Read(end));
    assert Encode(fs) + [] == Encode(fs);
  }

  /** The error for a stream that ends after n bytes of a frame. */
  function CutError(size: nat, end: ReadErr, f: Frame, n: nat): RecvErr {
    if n < HEADER_LEN then Read(end)
    else if |f.body| > MAX_FRAME then FrameTooLarge(|f.body|)
    else Read(BodyErr(size, end, |f.body|, n - HEADER_LEN))
  }

  lemma CutFrameFails(decode: Decoder, size: nat, end: ReadErr, f: Frame, n: nat)
    requires |f.body| < UINT32 && n < |FrameBytes(f)|
    ensures RecvFrom(decode, size, end, FrameBytes(f)[..n]) == Broken(CutError(size, end, f, n))
  {
    var s := FrameBytes(f)[..n];
    if n >= HEADER_LEN {
      FrontFrame(f, []);
      assert FrameBytes(f) + [] == FrameBytes(f);
      assert s[1..HEADER_LEN] == FrameBytes(f)[1..HEADER_LEN];
    }
  }

  /** A stream cut inside a frame reports the messages before it, then the error of the cut. */
  lemma CutStream(decode: Decoder, size: nat, end: ReadErr, fs: seq<Frame>, f: Frame, n: nat)
    requires |f.body| < UINT32 && (forall i :: 0 <= i < |fs| ==> |fs[i].body| < UINT32) && n < |FrameBytes(f)|
    ensures RecvAll(decode, size, end, Encode(fs) + FrameBytes(f)[..n]) == Report(decode, CutError(size, end, f, n), fs)
  {
    CutFrameFails(decode, size, end, f, n);
    RecvRefinesThen(decode, size, end, fs, FrameBytes(f)[..n], CutError(size, end, f, n));
  }

  /** What a successful Recv leaves unread starts at a frame boundary. */
  lemma {:induction false} RecvStopsAtBoundary(decode: Decoder, size: nat, end: ReadErr, fs: seq<Frame>) returns (k: nat)
    requires forall i :: 0 <= i < |fs| ==> |fs[i].body| < UINT32
    requires RecvFrom(decode, size, end, Encode(fs)).Got?
    ensures 0 < k <= |fs|
    ensures decode(fs[k - 1]).Deliver? && forall i :: 0 <= i < k - 1 ==> decode(fs[i]).Skip?
    ensures RecvFrom(decode, size, end, Encode(fs)) == Got(decode(fs[k - 1]).message, Encode(fs[k..]))
  {
    var more := Encode(fs[1..]);
    FrontFrame(fs[0], more);
    if decode(fs[0]).Skip? {
      k := RecvStopsAtBoundary(decode, size, end, fs[1..]);
      assert fs[1..][k - 1] == fs[k] && fs[1..][k..] == fs[k + 1..];
      k := k + 1;
    } else {
      k := 1;
    }
  }

  // ---- The client ----

  /** The send limit a server-info message asks for; zero means none. */
  function RateOf(m: Message): Option<(int, int)>
    requires m.ServerInfo?
  {
    if m.bytesPerSecond == 0 then None else Some((m.bytesPerSecond, m.bytesBurst))
  }

  datatype Result = Ok(message: Message) | Error(err: RecvErr)

  /** The bytes are a whole frame of allowed length and a rest. */
  predicate Whole(s: seq<byte>, f: Frame, rest: seq<byte>) {
    && |s| >= HEADER_LEN && LengthField(s) <= MAX_FRAME && |s| >= HEADER_LEN + LengthField(s)
    && f == Frame(s[0], s[HEADER_LEN..HEADER_LEN + LengthField(s)])
    && rest == s[HEADER_LEN + LengthField(s)..]
  }

  class Client {
    const decode: Decoder
    const br: Reader
    var peeked: nat
    var readErr: Option<RecvErr>
    var rate: Option<(int, int)>

    /** While the client works, the bytes to be skipped are there. */
    ghost predicate Valid()
      reads this, br
    {
      br.size >= MIN_BUFFER && (readErr.None? ==> peeked <= |br.rest|)
    }

    /** What the next Recv will look at. */
    function Unread(): seq<byte>
      requires peeked <= |br.rest|
      reads this, br
    {
      br.rest[peeked..]
    }

    constructor (open: Opener, br: Reader)
      requires br.size >= MIN_BUFFER
      ensures Valid() && this.br == br && decode == ClientDecoder(open)
      ensures readErr.None? && Unread() == br.rest
    {
      decode, this.br, peeked, readErr, rate := ClientDecoder(open), br, 0, None, None;
    }

    /** The body of one frame: peeked at when it fits the buffer, read into fresh memory otherwise. */
    method ReadBody(n: nat) returns (b: seq<byte>, err: Option<ReadErr>)
      requires n <= MAX_FRAME && br.size >= MIN_BUFFER && peeked == 0
      modifies this`peeked, br
      ensures err.None? <==> n <= |old(br.rest)|
      ensures err.None? ==> b == old(br.rest)[..n] && peeked <= |br.rest| && br.rest[peeked..] == old(br.rest)[n..]
      ensures err.Some? ==> err.value == BodyErr(br.size, br.end, n, |old(br.rest)|)
    {
      err := None;
      if n <= br.size {
        var ok;
        b, ok := br.Peek(n);
        peeked := n;
        if !ok {
          err := Some(br.end);
        }
      } else {
        var ok, e;
        b, ok, e := br.ReadFull(n);
        if !ok {
          err := Some(e);
        }
      }
    }

    /** Skips what was peeked at, then takes one frame off the stream, or fails as RecvFrom says. */
    method NextFrame() returns (f: Frame, err: Option<RecvErr>)
      requires br.size >= MIN_BUFFER && peeked <= |br.rest|
      modifies this`peeked, br
      ensures err.Some? ==> RecvFrom(decode, br.size, br.end, old(Unread())) == Broken(err.value)
      ensures err.None? ==> peeked <= |br.rest| && Whole(old(Unread()), f, br.rest[peeked..])
    {
      ghost var s := Unread();
      err := None;
      if peeked != 0 {
        var n, ok := br.Discard(peeked);
        assert ok && n == peeked;
        peeked := 0;
      }
      assert br.rest == s;
      var kind, n, ok := br.ReadFrameHeader();
      f := Frame(kind, []);
      if !ok {
        err := Some(Read(br.end));
        return;
      }
      if n > MAX_FRAME {
        err := Some(FrameTooLarge(n));
        return;
      }
      var b, bodyErr := ReadBody(n);
      if bodyErr.Some? {
        err := Some(Read(bodyErr.value));
        return;
      }
      assert b == s[HEADER_LEN..HEADER_LEN + n];
      assert br.rest[peeked..] == s[HEADER_LEN + n..];
      f := Frame(kind, b);
    }

    /**
     * One Recv. The result and what is left unread are those of RecvFrom on the unread bytes; an
     * error is remembered, and from then on every Recv returns it and touches nothing.
     */
    method Recv() returns (r: Result)
      requires Valid()
      modifies this, br
      ensures Valid()
      ensures old(readErr).Some? ==>
        && r == Error(old(readErr).value)
        && readErr == old(readErr) && br.rest == old(br.rest) && peeked == old(peeked) && rate == old(rate)
      ensures old(readErr).None? ==>
        match RecvFrom(decode, br.size, br.end, old(Unread()))
        case Got(m, rest) => r == Ok(m) && readErr.None? && Unread() == rest
        case Broken(e) => r == Error(e) && readErr == Some(e)
      ensures rate == if r.Ok? && r.message.ServerInfo? then RateOf(r.message) else old(rate)
    {
      if readErr.Some? {
        return Error(readErr.value);
      }
      ghost var goal := RecvFrom(decode, br.size, br.end, Unread());
      while true
        invariant readErr.None? && br.size >= MIN_BUFFER && peeked <= |br.rest|
        invariant RecvFrom(decode, br.size, br.end, br.rest[peeked..]) == goal
        invariant rate == old(rate)
        decreases |br.rest| - peeked
      {
        var f, err := NextFrame();
        if err.Some? {
          readErr := err;
          return Error(err.value);
        }
        match decode(f) {
          case Skip =>
          case Refuse(e) =>
            readErr := Some(e);
            return Error(e);
          case Deliver(m) =>
            if m.ServerInfo? {
              rate := RateOf(m);
            }
            return Ok(m);
        }
      }
    }
  }

  /** Sends a ping or pong: header and payload separately, which together are one frame. */
  method SendPingOrPong(w: Writer, kind: byte, data: seq<byte>) returns (ok: bool)
    requires w.Valid() && |data| == 8
    modifies w
    ensures w.Valid() && (ok <==> !w.failed)
    ensures ok ==> w.sent == old(w.Content()) + FrameBytes(Frame(kind, data)) && w.buf == []
    ensures old(w.Content()) <= w.Content() <= old(w.Content()) + FrameBytes(Frame(kind, data))
  {
    ghost var start := w.Content();
    ok := w.WriteFrameHeader(kind, 8);
    assert start + Header(kind, 8) <= start + FrameBytes(Frame(kind, data));
    if !ok {
      return;
    }
    ok := w.Write(data);
    assert start + Header(kind, 8) + data == start + FrameBytes(Frame(kind, data));
    if !ok {
      return;
    }
    ok := w.Flush();
  }

  /** A ping sent after any frames reaches a receiving client as that ping, after those frames' report. */
  lemma PingArrives(open: Opener, size: nat, end: ReadErr, fs: seq<Frame>, data: seq<byte>)
    requires forall i :: 0 <= i < |fs| ==> |fs[i].body| <= MAX_FRAME && !ClientDecoder(open)(fs[i]).Refuse?
    requires |data| == 8
    ensures var decode := ClientDecoder(open);
            var before := RecvAll(decode, size, end, Encode(fs));
            RecvAll(decode, size, end, Encode(fs) + FrameBytes(Frame(PING, data))) == (before.0 + [Ping(data)], Read(end))
  {
    var decode, f := ClientDecoder(open), Frame(PING, data);
    EncodeSnoc(fs, f);
    RecvRefinesFrames(decode, size, end, fs);
    assert forall i :: 0 <= i < |fs + [f]| ==> |(fs + [f])[i].body| < UINT32;
    RecvRefinesFrames(decode, size, end, fs + [f]);
    PingDecodes(open, data);
    ReportSnoc(decode, end, fs, f);
  }

  lemma PingDecodes(open: Opener, data: seq<byte>)
    requires |data| == 8
    ensures ClientDecoder(open)(Frame(PING, data)) == Deliver(Ping(data))
  {
    assert data[..8] == data;
  }

  lemma {:induction false} ReportSnoc(decode: Decoder, end: ReadErr, fs: seq<Frame>, f: Frame)
    requires forall i :: 0 <= i < |fs| ==> |fs[i].body| <= MAX_FRAME && !decode(fs[i]).Refuse?
    requires |f.body| <= MAX_FRAME && decode(f).Deliver?
    ensures Report(decode, Read(end), fs + [f]) == (Report(decode, Read(end), fs).0 + [decode(f).message], Read(end))
  {
    if fs == [] {
      assert fs + [f] == [f] && [f][1..] == [];
      assert Report(decode, Read(end), [f][1..]) == ([], Read(end));
      var m := decode(f).message;
      assert [m] + [] == [] + [m];
    } else {
      assert (fs + [f])[1..] == fs[1..] + [f] && (fs + [f])[0] == fs[0];
      assert !decode(fs[0]).Refuse?;
      ReportSnoc(decode, end, fs[1..], f);
      if decode(fs[0]).Deliver? {
        var m, ms, last := decode(fs[0]).message, Report(decode, Read(end), fs[1..]).0, decode(f).message;
        assert [m] + (ms + [last]) == [m] + ms + [last];
      }
    }
  }
}
