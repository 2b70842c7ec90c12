/** DERP frames over buffered streams (derp/derp.go): type byte, big-endian length, body. */
module DerpFrame {
  import opened Bytes
  import Seqs

  const HEADER_LEN: nat := 5
  const MAX_WRITE: nat := 10485760

  datatype Frame = Frame(kind: byte, body: seq<byte>)

  function Header(kind: byte, length: nat): (h: seq<byte>)
    ensures |h| == HEADER_LEN
  {
    [kind] + Put32(length)
  }

  function FrameBytes(f: Frame): seq<byte> {
    Header(f.kind, |f.body|) + f.body
  }

  function Encode(fs: seq<Frame>): seq<byte> {
    if fs == [] then [] else FrameBytes(fs[0]) + Encode(fs[1..])
  }

  // ---- Splitting a stream back into frames ----

  datatype Split = Short | One(frame: Frame, rest: seq<byte>)

  function LengthField(s: seq<byte>): nat
    requires |s| >= HEADER_LEN
  {
    GetBE(s[1..HEADER_LEN])
  }

  function SplitFrame(s: seq<byte>): Split {
    if |s| < HEADER_LEN || |s| < HEADER_LEN + LengthField(s) then Short
    else
      var end := HEADER_LEN + LengthField(s);
      One(Frame(s[0], s[HEADER_LEN..end]), s[end..])
  }

  function SplitAll(s: seq<byte>): (r: (seq<Frame>, seq<byte>))
    decreases |s|
  {
    match SplitFrame(s)
    case Short => ([], s)
    case One(f, rest) => var (fs, left) := SplitAll(rest); ([f] + fs, left)
  }

  lemma HeaderFields(kind: byte, length: nat, tail: seq<byte>)
    requires length < UINT32
    ensures var s := Header(kind, length) + tail;
            s[0] == kind && LengthField(s) == length && s[HEADER_LEN..] == tail
  {
    Widths();
    PutThenGet(length, 4);
    var s := Header(kind, length) + tail;
    assert s[1..HEADER_LEN] == Put32(length);
  }

  lemma SplitEncoded(f: Frame, rest: seq<byte>)
    requires |f.body| < UINT32
    ensures SplitFrame(FrameBytes(f) + rest) == One(f, rest)
  {
    HeaderFields(f.kind, |f.body|, f.body + rest);
    assert FrameBytes(f) + rest == Header(f.kind, |f.body|) + (f.body + rest);
    var s := FrameBytes(f) + rest;
    var end := HEADER_LEN + |f.body|;
    assert s[HEADER_LEN..end] == s[HEADER_LEN..][..|f.body|] == f.body;
    assert s[end..] == rest;
  }

  /** A concatenation of frames splits back into exactly those frames, with nothing left. */
  lemma {:induction false} SplitAllEncoded(fs: seq<Frame>)
    requires forall i :: 0 <= i < |fs| ==> |fs[i].body| < UINT32
    ensures SplitAll(Encode(fs)) == (fs, [])
  {
    if fs != [] {
      SplitEncoded(fs[0], Encode(fs[1..]));
      SplitAllEncoded(fs[1..]);
      Seqs.SplitAt(fs, 0);
    }
  }

  lemma {:induction false} EncodeSnoc(fs: seq<Frame>, f: Frame)
    ensures Encode(fs + [f]) == Encode(fs) + FrameBytes(f)
  {
    if fs == [] {
      assert fs + [f] == [f] && [f][1..] == [];
    } else {
      assert (fs + [f])[1..] == fs[1..] + [f];
      EncodeSnoc(fs[1..], f);
    }
  }

  // ---- Buffered writer ----

  lemma NextPart(c: seq<byte>, p: seq<byte>, done: nat, n: nat)
    requires done + n <= |p|
    ensures c + p[..done] + p[done..][..n] == c + p[..done + n]
  {
    assert p[..done] + p[done..][..n] == p[..done + n];
  }

  lemma PartIsPrefix(c: seq<byte>, p: seq<byte>, done: nat)
    requires done <= |p|
    ensures c <= c + p[..done] <= c + p
  {
  }

  /**
   * A bufio.Writer over a connection that takes `budget` more bytes and then fails. Everything the
   * writer has accepted is `sent + buf`, also after a failure, which is sticky.
   */
  class Writer {
    const size: nat
    var buf: seq<byte>
    var sent: seq<byte>
    var failed: bool
    var budget: nat

    ghost predicate Valid()
      reads this
    {
      1 <= size && |buf| <= size
    }

    function Content(): seq<byte>
      reads this
    {
      sent + buf
    }

    constructor (size: nat, budget: nat)
      requires size >= 1
      ensures Valid() && Content() == [] && !failed && this.size == size
    {
      this.size, this.budget := size, budget;
      buf, sent, failed := [], [], false;
    }

    function Available(): int
      reads this
    {
      size - |buf|
    }

    /** One write to the connection: how many bytes it took, and the sticky failure when not all. */
    method ConnWrite(p: seq<byte>) returns (n: nat)
      modifies `sent, `budget, `failed
      ensures n <= |p| && sent == old(sent) + p[..n]
      ensures failed <==> old(failed) || n < |p|
    {
      n := if |p| <= budget then |p| else budget;
      sent := sent + p[..n];
      budget := budget - n;
      failed := failed || n < |p|;
    }

    method Flush() returns (ok: bool)
      requires Valid()
      modifies this
      ensures Valid() && Content() == old(Content())
      ensures ok <==> !failed
      ensures old(failed) ==> failed
      ensures ok ==> buf == [] && sent == old(Content())
    {
      if failed {
        return false;
      }
      if buf == [] {
        return true;
      }
      var n := ConnWrite(buf);
      buf := buf[n..];
      ok := !failed;
    }

    method WriteByte(c: byte) returns (ok: bool)
      requires Valid()
      modifies this
      ensures Valid() && (ok <==> !failed)
      ensures old(failed) ==> failed
      ensures Content() == if ok then old(Content()) + [c] else old(Content())
    {
      if failed {
        return false;
      }
      if Available() <= 0 {
        ok := Flush();
        if !ok {
          return;
        }
      }
      buf := buf + [c];
      ok := true;
    }

    /** One round of a write that does not fit: straight to the connection, or through a full buffer. */
    method WriteSome(p: seq<byte>) returns (n: nat)
      requires Valid() && !failed && |p| > Available()
      modifies this
      ensures Valid() && n <= |p| && Content() == old(Content()) + p[..n]
      ensures !failed ==> n > 0 || |buf| < |old(buf)|
    {
      if |buf| == 0 {
        n := ConnWrite(p);
      } else {
        n := Available();
        buf := buf + p[..n];
        var _ := Flush();
      }
    }

    method Write(p: seq<byte>) returns (ok: bool)
      requires Valid()
      modifies this
      ensures Valid() && (ok <==> !failed)
      ensures old(failed) ==> failed
      ensures old(Content()) <= Content() <= old(Content()) + p
      ensures ok ==> Content() == old(Content()) + p
    {
      var done: nat := 0;
      while |p| - done > Available() && !failed
        invariant Valid() && done <= |p|
        invariant old(failed) ==> failed
        invariant Content() == old(Content()) + p[..done]
        decreases !failed, |p| - done, |buf|
      {
        var n := WriteSome(p[done..]);
        NextPart(old(Content()), p, done, n);
        done := done + n;
      }
      PartIsPrefix(old(Content()), p, done);
      if failed {
        return false;
      }
      buf := buf + p[done..];
      NextPart(old(Content()), p, done, |p| - done);
      assert p[..|p|] == p && p[done..][..|p| - done] == p[done..];
      ok := true;
    }

    method WriteUint32(v: nat) returns (ok: bool)
      requires Valid()
      modifies this
      ensures Valid() && (ok <==> !failed)
      ensures old(failed) ==> failed
      ensures old(Content()) <= Content() <= old(Content()) + Put32(v)
      ensures ok ==> Content() == old(Content()) + Put32(v)
    {
      var b := Put32(v);
      ok := !failed;
      for i := 0 to 4
        invariant Valid() && (ok <==> !failed)
        invariant old(failed) ==> failed
        invariant i > 0 ==> ok
        invariant Content() == old(Content()) + b[..i]
      {
        assert b[..i + 1] == b[..i] + [b[i]];
        ok := WriteByte(b[i]);
        if !ok {
          return;
        }
      }
      assert b[..4] == b;
      ok := !failed;
    }

    /** Both paths emit the same five bytes, whatever the buffer's fill level. */
    method WriteFrameHeader(kind: byte, length: nat) returns (ok: bool)
      requires Valid() && length < UINT32
      modifies this
      ensures Valid() && (ok <==> !failed)
      ensures old(failed) ==> failed
      ensures old(Content()) <= Content() <= old(Content()) + Header(kind, length)
      ensures ok ==> Content() == old(Content()) + Header(kind, length)
    {
      if Available() >= HEADER_LEN {
        var b := [kind];
        b := b + Put32(length);
        ok := Write(b);
        return;
      }
      ok := WriteByte(kind);
      if !ok {
        return;
      }
      ok := WriteUint32(length);
      assert [kind] + Put32(length) == Header(kind, length);
    }

    /** A whole frame, flushed. On failure the connection holds a prefix of it. */
    method WriteFrame(kind: byte, b: seq<byte>) returns (ok: bool)
      requires Valid()
      modifies this
      ensures Valid()
      ensures |b| > MAX_WRITE ==> !ok && Content() == old(Content()) && failed == old(failed)
      ensures |b| <= MAX_WRITE ==> (ok <==> !failed)
      ensures ok ==> sent == old(Content()) + FrameBytes(Frame(kind, b)) && buf == []
      ensures old(Content()) <= Content() <= old(Content()) + FrameBytes(Frame(kind, b))
    {
      if |b| > MAX_WRITE {
        return false;
      }
      ghost var start := Content();
      ok := WriteFrameHeader(kind, |b|);
      assert start + Header(kind, |b|) <= start + FrameBytes(Frame(kind, b));
      if !ok {
        return;
      }
      ok := Write(b);
      assert start + Header(kind, |b|) + b == start + FrameBytes(Frame(kind, b));
      if !ok {
        return;
      }
      ok := Flush();
    }
  }

  // ---- Buffered reader ----

  datatype ReadErr = Eof | UnexpectedEof | Fault(code: int)

  /** A bufio.Reader: the bytes not yet consumed, then `end`. At most `size` bytes can be peeked. */
  class Reader {
    const size: nat
    const end: ReadErr
    var rest: seq<byte>

    constructor (size: nat, end: ReadErr, stream: seq<byte>)
      ensures this.size == size && this.end == end && rest == stream
    {
      this.size, this.end, rest := size, end, stream;
    }

    /** Looks at n bytes without consuming any. */
    method Peek(n: nat) returns (b: seq<byte>, ok: bool)
      requires n <= size
      ensures ok <==> n <= |rest|
      ensures b == if ok then rest[..n] else rest
    {
      ok := n <= |rest|;
      b := if ok then rest[..n] else rest;
    }

    method Discard(n: nat) returns (discarded: nat, ok: bool)
      modifies this
      ensures ok <==> n <= |old(rest)|
      ensures discarded == if ok then n else |old(rest)|
      ensures rest == old(rest)[discarded..]
    {
      ok := n <= |rest|;
      discarded := if ok then n else |rest|;
      rest := rest[discarded..];
    }

    /** io.ReadFull: n bytes, or an error after consuming what there was. */
    method ReadFull(n: nat) returns (b: seq<byte>, ok: bool, err: ReadErr)
      modifies this
      ensures ok <==> n <= |old(rest)|
      ensures ok ==> b == old(rest)[..n] && rest == old(rest)[n..]
      ensures !ok ==> rest == [] && err == ShortRead(end, |old(rest)|)
    {
      ok := n <= |rest|;
      err := ShortRead(end, |rest|);
      var k := if ok then n else |rest|;
      b := rest[..k];
      rest := rest[k..];
    }

    method ReadFrameHeader() returns (kind: byte, length: nat, ok: bool)
      requires size >= HEADER_LEN
      modifies this
      ensures ok <==> |old(rest)| >= HEADER_LEN
      ensures ok ==> kind == old(rest)[0] && length == LengthField(old(rest)) && rest == old(rest)[HEADER_LEN..]
      ensures length < UINT32
      ensures !ok ==> rest == old(rest)
    {
      var hdr;
      hdr, ok := Peek(HEADER_LEN);
      if !ok {
        return 0, 0, false;
      }
      kind, length := hdr[0], GetBE(hdr[1..HEADER_LEN]);
      GetBEBound(hdr[1..HEADER_LEN]);
      Widths();
      assert hdr[1..HEADER_LEN] == rest[1..HEADER_LEN];
      var _, _ := Discard(HEADER_LEN);
    }

    /**
     * Reads one frame into dst. A frame longer than dst is still consumed whole. A frame over the
     * limit costs only its header.
     */
    method ReadFrame(maxSize: nat, dst: array<byte>) returns (kind: byte, length: nat, r: FrameResult)
      requires size >= HEADER_LEN && maxSize < UINT32
      modifies this, dst
      ensures var s := old(rest);
              match r
              case HeaderShort => |s| < HEADER_LEN && rest == s
              case TooLong => |s| >= HEADER_LEN && LengthField(s) > maxSize && rest == s[HEADER_LEN..]
              case BodyShort => |s| >= HEADER_LEN && LengthField(s) <= maxSize && SplitFrame(s).Short? && rest == []
              case Filled =>
                && length <= maxSize && length <= dst.Length % UINT32 <= dst.Length
                && SplitFrame(s) == One(Frame(kind, dst[..length]), rest)
              case Truncated =>
                && SplitFrame(s).One? && SplitFrame(s).rest == rest && SplitFrame(s).frame.kind == kind
                && dst.Length % UINT32 < length == |SplitFrame(s).frame.body| <= maxSize
                && dst[..dst.Length % UINT32] == SplitFrame(s).frame.body[..dst.Length % UINT32]
      ensures r.Filled? || r.Truncated? ==> |old(rest)| == HEADER_LEN + length + |rest|
    {
      ghost var s := rest;
      var ok;
      kind, length, ok := ReadFrameHeader();
      if !ok {
        return 0, 0, HeaderShort;
      }
      if length > maxSize {
        return 0, 0, TooLong;
      }
      var room := dst.Length % UINT32;
      var want := if length < room then length else room;
      var body, got, _ := ReadFull(want);
      if !got {
        return 0, 0, BodyShort;
      }
      assert body == s[HEADER_LEN..HEADER_LEN + want];
      forall i | 0 <= i < want {
        dst[i] := body[i];
      }
      assert dst[..want] == body;
      var remain := length - want;
      if remain > 0 {
        var _, enough := Discard(remain);
        if !enough {
          return 0, 0, BodyShort;
        }
        assert rest == s[HEADER_LEN + length..];
        return kind, length, Truncated;
      }
      r := Filled;
    }
  }

  datatype FrameResult = HeaderShort | TooLong | BodyShort | Filled | Truncated

  /** The error of a read that ran dry: a bare end of file only when nothing at all was read. */
  function ShortRead(end: ReadErr, had: nat): ReadErr {
    if end.Eof? && had > 0 then UnexpectedEof else end
  }

  /**
   * Writer and reader are inverse over any number of frames: when every WriteFrame succeeded the
   * connection's bytes split back into exactly those frames, and when one failed they still split
   * into leading frames of the list, never into something else.
   */
  method WriteAll(w: Writer, fs: seq<Frame>) returns (ok: bool)
    requires w.Valid() && w.Content() == [] && !w.failed
    requires forall i :: 0 <= i < |fs| ==> |fs[i].body| <= MAX_WRITE
    modifies w
    ensures ok ==> SplitAll(w.sent) == (fs, [])
    ensures SplitAll(w.sent).0 <= fs
  {
    ok := true;
    for i := 0 to |fs|
      invariant w.Valid() && !w.failed && w.buf == [] && w.sent == Encode(fs[..i])
    {
      assert w.Content() == w.sent;
      ok := w.WriteFrame(fs[i].kind, fs[i].body);
      StepEncode(fs, i);
      if !ok {
        CutSplits(fs, i + 1, w.sent, w.buf);
        return;
      }
    }
    assert fs[..|fs|] == fs;
    SplitAllEncoded(fs);
  }

  lemma StepEncode(fs: seq<Frame>, i: nat)
    requires i < |fs|
    ensures Encode(fs[..i + 1]) == Encode(fs[..i]) + FrameBytes(Frame(fs[i].kind, fs[i].body))
  {
    assert fs[..i + 1] == fs[..i] + [fs[i]];
    EncodeSnoc(fs[..i], fs[i]);
  }

  lemma CutSplits(fs: seq<Frame>, n: nat, sent: seq<byte>, buf: seq<byte>)
    requires n <= |fs| && sent + buf <= Encode(fs[..n])
    requires forall i :: 0 <= i < |fs| ==> |fs[i].body| < UINT32
    ensures SplitAll(sent).0 <= fs
  {
    EncodePrefix(fs, n);
    assert sent <= sent + buf;
    PrefixSplits(fs, sent);
  }

  lemma {:induction false} EncodePrefix(fs: seq<Frame>, n: nat)
    requires n <= |fs|
    ensures Encode(fs[..n]) <= Encode(fs)
  {
    if n > 0 {
      EncodePrefix(fs[1..], n - 1);
      assert fs[..n][1..] == fs[1..][..n - 1];
    }
  }

  /** A stream cut anywhere splits into leading frames of the original list. */
  lemma {:induction false} PrefixSplits(fs: seq<Frame>, p: seq<byte>)
    requires p <= Encode(fs)
    requires forall i :: 0 <= i < |fs| ==> |fs[i].body| < UINT32
    ensures SplitAll(p).0 <= fs
  {
    if fs != [] {
      var first, more := FrameBytes(fs[0]), Encode(fs[1..]);
      if |p| >= |first| {
        var tail := p[|first|..];
        assert p == first + tail && tail <= more;
        SplitEncoded(fs[0], tail);
        PrefixSplits(fs[1..], tail);
        assert fs == [fs[0]] + fs[1..];
      } else {
        assert p <= first;
        ShortPrefix(fs[0], p);
      }
    }
  }

  lemma ShortPrefix(f: Frame, p: seq<byte>)
    requires |f.body| < UINT32 && p <= FrameBytes(f) && |p| < |FrameBytes(f)|
    ensures SplitFrame(p).Short?
  {
    if |p| >= HEADER_LEN {
      HeaderFields(f.kind, |f.body|, f.body);
      assert p[1..HEADER_LEN] == FrameBytes(f)[1..HEADER_LEN];
    }
  }
}
