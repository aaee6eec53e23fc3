/**
  The bus framing: a 4-byte big-endian length, then that many bytes. Written to a stream, read back
  from a stream that may deliver any number of bytes at a time.
  */
module Framing {
  import opened Wrappers

  newtype byte = x: int | 0 <= x < 256

  const MAX_FRAME_BYTES := 1024 * 1024

  // ---------------------------------------------------------------- the length prefix

  function BigEndian(n: nat): seq<byte>
    requires n < 0x1_0000_0000
  {
    [(n / 0x100_0000) as byte, (n / 0x1_0000 % 0x100) as byte, (n / 0x100 % 0x100) as byte, (n % 0x100) as byte]
  }

  function FromBigEndian(b: seq<byte>): (n: nat)
    requires |b| == 4
    ensures n < 0x1_0000_0000
  {
    b[0] as int * 0x100_0000 + b[1] as int * 0x1_0000 + b[2] as int * 0x100 + b[3] as int
  }

  /** The number that bytes write in base 256, the most significant first. */
  function Base256(b: seq<byte>): nat {
    if b == [] then 0 else 256 * Base256(b[..|b| - 1]) + b[|b| - 1] as nat
  }

  lemma FourBytes(b: seq<byte>)
    requires |b| == 4
    ensures FromBigEndian(b) == Base256(b)
  {
    var b3, b2, b1 := b[..3], b[..2], b[..1];
    assert b3[..2] == b2 && b2[..1] == b1 && b1[..0] == [];
    assert Base256(b1) == b[0] as nat;
    assert Base256(b2) == 256 * Base256(b1) + b[1] as nat;
    assert Base256(b3) == 256 * Base256(b2) + b[2] as nat;
  }

  /** The prefix is the length in base 256, the most significant byte first, and is read back as that length. */
  lemma PrefixRoundTrip(n: nat)
    requires n < 0x1_0000_0000
    ensures FromBigEndian(BigEndian(n)) == n && |BigEndian(n)| == 4 && Base256(BigEndian(n)) == n
    ensures forall b: seq<byte> :: |b| == 4 ==> FromBigEndian(b) == Base256(b)
  {
    forall b: seq<byte> | |b| == 4 ensures FromBigEndian(b) == Base256(b) {
      FourBytes(b);
    }
    assert n == n / 0x100 * 0x100 + n % 0x100;
    assert n / 0x100 == n / 0x1_0000 * 0x100 + n / 0x100 % 0x100;
    assert n / 0x1_0000 == n / 0x100_0000 * 0x100 + n / 0x1_0000 % 0x100;
  }

  // ---------------------------------------------------------------- frames on a stream

  predicate Fits(body: seq<byte>) {
    1 <= |body| <= MAX_FRAME_BYTES
  }

  function Encode(body: seq<byte>): seq<byte>
    requires |body| <= MAX_FRAME_BYTES
  {
    BigEndian(|body|) + body
  }

  ghost predicate AllFit(bodies: seq<seq<byte>>) {
    forall i :: 0 <= i < |bodies| ==> Fits(bodies[i])
  }

  ghost function EncodeAll(bodies: seq<seq<byte>>): seq<byte>
    requires AllFit(bodies)
  {
    if bodies == [] then [] else Encode(bodies[0]) + EncodeAll(bodies[1..])
  }

  datatype FrameError = TruncatedPrefix | LengthOutOfRange | TruncatedBody

  /** One ReadFrame: the end of the stream, a body, or a refusal. */
  datatype Read = Eof | Body(bytes: seq<byte>) | Bad(error: FrameError)

  /** What reading the next frame of `data` gives, and how many bytes that takes. */
  function ReadOne(data: seq<byte>): (r: (Read, nat))
    ensures r.1 <= |data|
    ensures r.0.Body? ==> Fits(r.0.bytes) && r.1 == 4 + |r.0.bytes|
  {
    if |data| == 0 then (Eof, 0)
    else if |data| < 4 then (Bad(TruncatedPrefix), |data|)
    else
      var length := FromBigEndian(data[..4]);
      if length == 0 || length > MAX_FRAME_BYTES then (Bad(LengthOutOfRange), 4)
      else if |data| < 4 + length then (Bad(TruncatedBody), |data|)
      else (Body(data[4..4 + length]), 4 + length)
  }

  /** Frames until the end of the stream or the first refusal. */
  ghost function ReadAll(data: seq<byte>): (seq<seq<byte>>, Read)
    decreases |data|
  {
    var (read, used) := ReadOne(data);
    if read.Body? then
      var (more, ending) := ReadAll(data[used..]);
      ([read.bytes] + more, ending)
    else ([], read)
  }

  lemma ReadOneFrame(body: seq<byte>, rest: seq<byte>)
    requires Fits(body)
    ensures ReadOne(Encode(body) + rest) == (Body(body), 4 + |body|)
    ensures (Encode(body) + rest)[4 + |body|..] == rest
  {
    var data := Encode(body) + rest;
    PrefixRoundTrip(|body|);
    assert data[..4] == BigEndian(|body|);
    assert data[4..4 + |body|] == body;
  }

  lemma ReadAllCons(body: seq<byte>, rest: seq<byte>)
    requires Fits(body)
    ensures ReadAll(Encode(body) + rest) == ([body] + ReadAll(rest).0, ReadAll(rest).1)
  {
    ReadOneFrame(body, rest);
  }

  lemma EncodeAllCons(bodies: seq<seq<byte>>, rest: seq<byte>)
    requires AllFit(bodies) && bodies != []
    ensures EncodeAll(bodies) + rest == Encode(bodies[0]) + (EncodeAll(bodies[1..]) + rest)
  {
    Associate(Encode(bodies[0]), EncodeAll(bodies[1..]), rest);
  }

  lemma {:induction false} ReadAllAppend(bodies: seq<seq<byte>>, rest: seq<byte>)
    requires AllFit(bodies)
    ensures ReadAll(EncodeAll(bodies) + rest).0 == bodies + ReadAll(rest).0
    ensures ReadAll(EncodeAll(bodies) + rest).1 == ReadAll(rest).1
  {
    if bodies == [] {
      assert [] + rest == rest && bodies + ReadAll(rest).0 == ReadAll(rest).0;
    } else {
      ReadAllAppend(bodies[1..], rest);
      EncodeAllCons(bodies, rest);
      ReadAllCons(bodies[0], EncodeAll(bodies[1..]) + rest);
      Associate([bodies[0]], bodies[1..], ReadAll(rest).0);
      assert [bodies[0]] + bodies[1..] == bodies;
    }
  }

  /** Everything written comes back, in order, and then a clean end of stream. */
  lemma ReadBack(bodies: seq<seq<byte>>)
    requires AllFit(bodies)
    ensures ReadAll(EncodeAll(bodies)) == (bodies, Eof)
  {
    ReadAllAppend(bodies, []);
    assert EncodeAll(bodies) + [] == EncodeAll(bodies) && bodies + [] == bodies;
  }

  /** Where the first `n` frames end. */
  ghost function Boundary(bodies: seq<seq<byte>>, n: nat): nat
    requires AllFit(bodies) && n <= |bodies|
  {
    |EncodeAll(bodies[..n])|
  }

  lemma {:induction false} EncodeAllSplit(bodies: seq<seq<byte>>, n: nat)
    requires AllFit(bodies) && n <= |bodies|
    ensures EncodeAll(bodies) == EncodeAll(bodies[..n]) + EncodeAll(bodies[n..])
  {
    if n == 0 {
    } else {
      EncodeAllSplit(bodies[1..], n - 1);
      assert bodies[1..][..n - 1] == bodies[..n][1..] && bodies[1..][n - 1..] == bodies[n..];
      Associate(Encode(bodies[0]), EncodeAll(bodies[..n][1..]), EncodeAll(bodies[n..]));
    }
  }

  lemma EncodeAllSnoc(bodies: seq<seq<byte>>, n: nat)
    requires AllFit(bodies) && n < |bodies|
    ensures EncodeAll(bodies[..n + 1]) == EncodeAll(bodies[..n]) + Encode(bodies[n])
  {
    EncodeAllSplit(bodies[..n + 1], n);
    assert bodies[..n + 1][..n] == bodies[..n] && bodies[..n + 1][n..] == [bodies[n]];
    assert EncodeAll([bodies[n]]) == Encode(bodies[n]) + [];
  }

  lemma WholeBefore(bodies: seq<seq<byte>>, cut: nat) returns (whole: nat)
    requires AllFit(bodies) && cut <= |EncodeAll(bodies)|
    ensures whole <= |bodies| && Boundary(bodies, whole) <= cut
    ensures whole < |bodies| ==> cut < Boundary(bodies, whole + 1)
    ensures whole == |bodies| ==> cut == Boundary(bodies, whole)
  {
    whole := 0;
    assert bodies[..|bodies|] == bodies;
    while whole < |bodies| && Boundary(bodies, whole + 1) <= cut
      invariant whole <= |bodies| && Boundary(bodies, whole) <= cut
    {
      whole := whole + 1;
    }
  }

  /** How reading ends if the stream ends `size` bytes into a frame. */
  function EndingAt(size: nat): Read {
    if size == 0 then Eof else if size < 4 then Bad(TruncatedPrefix) else Bad(TruncatedBody)
  }

  lemma CutInside(body: seq<byte>, rest: seq<byte>, tail: seq<byte>)
    requires Fits(body) && 0 < |tail| < 4 + |body| && tail <= Encode(body) + rest
    ensures ReadOne(tail).0 == EndingAt(|tail|) && ReadAll(tail) == ([], EndingAt(|tail|))
  {
    if |tail| >= 4 {
      PrefixRoundTrip(|body|);
      assert tail[..4] == (Encode(body) + rest)[..4] == BigEndian(|body|);
    }
  }

  lemma CutInFirst(bodies: seq<seq<byte>>, size: nat)
    requires AllFit(bodies) && size <= |EncodeAll(bodies)|
    requires bodies != [] ==> size < 4 + |bodies[0]|
    ensures var (read, ending) := ReadAll(EncodeAll(bodies)[..size]);
            read == [] && ending == EndingAt(size)
  {
    if size > 0 {
      CutInside(bodies[0], EncodeAll(bodies[1..]), EncodeAll(bodies)[..size]);
    }
  }

  lemma CutAfter(a: seq<byte>, b: seq<byte>, cut: nat)
    requires |a| <= cut <= |a| + |b|
    ensures (a + b)[..cut] == a + b[..cut - |a|]
  {
  }

  lemma CutBetween(bodies: seq<seq<byte>>, rest: seq<seq<byte>>, size: nat)
    requires AllFit(bodies) && AllFit(rest) && size <= |EncodeAll(rest)| && (rest != [] ==> size < 4 + |rest[0]|)
    ensures ReadAll(EncodeAll(bodies) + EncodeAll(rest)[..size]) == (bodies, EndingAt(size))
  {
    ReadAllAppend(bodies, EncodeAll(rest)[..size]);
    CutInFirst(rest, size);
    assert bodies + [] == bodies;
  }

  lemma CutAt(bodies: seq<seq<byte>>, whole: nat, cut: nat)
    requires AllFit(bodies) && cut <= |EncodeAll(bodies)| && whole <= |bodies| && Boundary(bodies, whole) <= cut
    requires whole < |bodies| ==> cut < Boundary(bodies, whole + 1)
    ensures ReadAll(EncodeAll(bodies)[..cut]) == (bodies[..whole], EndingAt(cut - Boundary(bodies, whole)))
  {
    EncodeAllSplit(bodies, whole);
    CutAfter(EncodeAll(bodies[..whole]), EncodeAll(bodies[whole..]), cut);
    if whole < |bodies| {
      EncodeAllSnoc(bodies, whole);
    }
    CutBetween(bodies[..whole], bodies[whole..], cut - Boundary(bodies, whole));
  }

  /** A stream cut anywhere gives exactly the frames that are whole before the cut, then the end of
      the stream if the cut is where a frame ends, and otherwise an error that says whether it fell into a
      prefix or a body. */
  lemma ReadCut(bodies: seq<seq<byte>>, cut: nat) returns (whole: nat)
    requires AllFit(bodies) && cut <= |EncodeAll(bodies)|
    ensures whole <= |bodies| && Boundary(bodies, whole) <= cut
    ensures whole < |bodies| ==> cut < Boundary(bodies, whole + 1)
    ensures ReadAll(EncodeAll(bodies)[..cut]).0 == bodies[..whole]
    ensures var ending := ReadAll(EncodeAll(bodies)[..cut]).1;
            && (cut == Boundary(bodies, whole) ==> ending == Eof)
            && (Boundary(bodies, whole) < cut < Boundary(bodies, whole) + 4 ==> ending == Bad(TruncatedPrefix))
            && (Boundary(bodies, whole) + 4 <= cut ==> ending == Bad(TruncatedBody))
  {
    whole := WholeBefore(bodies, cut);
    CutAt(bodies, whole, cut);
  }

  /** A length prefix is accepted exactly when it is in 1..1048576, whatever follows it. */
  lemma LengthGuard(length: nat, rest: seq<byte>)
    requires length < 0x1_0000_0000
    ensures ReadOne(BigEndian(length) + rest).0 == Bad(LengthOutOfRange) <==> length == 0 || length > 1048576
  {
    PrefixRoundTrip(length);
    assert (BigEndian(length) + rest)[..4] == BigEndian(length);
  }

  // ---------------------------------------------------------------- the streams

  /** The receiving end of a connection. */
  class Source {
    const data: seq<byte>
    var pos: nat

    constructor (data: seq<byte>)
      ensures this.data == data && pos == 0
    {
      this.data := data;
      pos := 0;
    }

    ghost predicate Valid()
      reads this
    {
      pos <= |data|
    }

    ghost function Rest(): seq<byte>
      reads this
      requires Valid()
    {
      data[pos..]
    }

    /** At least one and at most `count` of the remaining bytes; none only at the end of the stream. */
    method Read(buf: array<byte>, offset: nat, count: nat) returns (n: nat)
      requires Valid() && count > 0 && offset + count <= buf.Length
      modifies this`pos, buf
      ensures Valid() && n <= count && (n == 0 <==> old(Rest()) == [])
      ensures n <= |old(Rest())| && Rest() == old(Rest())[n..]
      ensures buf[offset..offset + n] == old(Rest())[..n]
      ensures buf[..offset] == old(buf[..offset])
    {
      n := 0;
      if pos < |data| {
        n :| 1 <= n <= count && n <= |data| - pos;
        forall i | offset <= i < offset + n {
          buf[i] := data[pos + (i - offset)];
        }
        assert forall i :: 0 <= i < n ==> buf[offset..offset + n][i] == data[pos..][..n][i];
        pos := pos + n;
      }
    }
  }

  /** Fills `buf` from the stream through as many short reads as it takes. */
  method ReadExact(s: Source, buf: array<byte>, count: nat) returns (total: nat)
    requires s.Valid() && count <= buf.Length
    modifies s`pos, buf
    ensures s.Valid() && total == (if |old(s.Rest())| < count then |old(s.Rest())| else count)
    ensures buf[..total] == old(s.Rest())[..total] && s.Rest() == old(s.Rest())[total..]
  {
    ghost var rest := s.Rest();
    total := 0;
    while total < count
      invariant s.Valid() && total <= count && total <= |rest|
      invariant buf[..total] == rest[..total] && s.Rest() == rest[total..]
      decreases count - total
    {
      ghost var was := buf[..total];
      var n := s.Read(buf, total, count - total);
      assert buf[..total] == was;
      assert buf[..total + n] == buf[..total] + buf[total..total + n];
      assert rest[..total + n] == rest[..total] + rest[total..][..n];
      if n == 0 {
        break;
      }
      total := total + n;
    }
  }

  method ReadFrame(s: Source) returns (r: Read)
    requires s.Valid()
    modifies s`pos
    ensures s.Valid()
    ensures var (read, used) := ReadOne(old(s.Rest())); r == read && s.Rest() == old(s.Rest())[used..]
  {
    ghost var rest := s.Rest();
    var lenBuf := new byte[4];
    var got := ReadExact(s, lenBuf, 4);
    if got == 0 {
      return Eof;
    }
    if got < 4 {
      return Bad(TruncatedPrefix);
    }
    assert lenBuf[..] == lenBuf[..4] == rest[..4];
    var length := FromBigEndian(lenBuf[..]);
    if length == 0 || length > MAX_FRAME_BYTES {
      return Bad(LengthOutOfRange);
    }
    var payload := new byte[length];
    var n := ReadExact(s, payload, length);
    if n != length {
      return Bad(TruncatedBody);
    }
    assert payload[..] == payload[..length] == rest[4..4 + length];
    return Body(payload[..]);
  }

  /** The sending end of a connection. */
  class Sink {
    var written: seq<byte>

    constructor ()
      ensures written == []
    {
      written := [];
    }

    method Write(bytes: seq<byte>)
      modifies this
      ensures written == old(written) + bytes
    {
      written := written + bytes;
    }
  }

  /** Refuses a body over the limit before writing anything. */
  method WriteFrame(out: Sink, body: seq<byte>) returns (r: Result<(), string>)
    modifies out
    ensures r.Success? <==> |body| <= 1048576
    ensures r.Success? ==> out.written == old(out.written) + Encode(body)
    ensures r.Failure? ==> out.written == old(out.written)
  {
    if |body| > MAX_FRAME_BYTES {
      return Failure("bus frame exceeds max");
    }
    out.Write(BigEndian(|body|));
    out.Write(body);
    assert out.written == old(out.written) + Encode(body);
    return Success(());
  }

  /** The receive loop of one connection, to the end of the stream or the first refusal. */
  method ReadFrames(s: Source) returns (bodies: seq<seq<byte>>, ending: Read)
    requires s.Valid()
    modifies s`pos
    ensures (bodies, ending) == ReadAll(old(s.Rest()))
  {
    bodies := [];
    ghost var all := ReadAll(s.Rest());
    assert bodies + all.0 == all.0;
    while true
      invariant s.Valid() && (bodies + ReadAll(s.Rest()).0, ReadAll(s.Rest()).1) == all
      decreases |s.Rest()|
    {
      ghost var before := s.Rest();
      var r := ReadFrame(s);
      if !r.Body? {
        assert bodies + [] == bodies;
        return bodies, r;
      }
      assert bodies + ReadAll(before).0 == bodies + [r.bytes] + ReadAll(s.Rest()).0;
      bodies := bodies + [r.bytes];
    }
  }
}
