/**
  The streaming send: one connection, a run of numbered frames, and an optional closing DONE.
  Frame numbers are computed in 32-bit integers and so may wrap.
  */
module StreamSend {
  import opened Wrappers
  import opened Framing
  import opened LineFormat
  import opened ClosedLoop

  const MAX_INT32 := 0x7FFF_FFFF

  type int32 = n: int | -0x8000_0000 <= n <= MAX_INT32

  /** Unchecked conversion to 32 bits. */
  function Wrap(n: int): int32 {
    (n + 0x8000_0000) % 0x1_0000_0000 - 0x8000_0000
  }

  /** What the caller asks to stream; `clock` gives the timestamp of the i-th frame written. */
  datatype Order = Order(
    session: string,
    sender: string,
    kind: string,
    task: Option<string>,
    payload: Option<string>,
    first: int32,
    count: int32,
    done: bool,
    clock: nat -> string)

  function NthFrame(o: Order, i: nat): Envelope {
    Envelope(o.session, o.sender, Wrap(o.first + i), o.clock(i), o.kind, o.task, o.payload, None)
  }

  function LastFrame(o: Order): Envelope
    requires o.count > 0
  {
    var last := Wrap(o.first + o.count - 1);
    Envelope(o.session, o.sender, last, o.clock(o.count), "DONE", o.task, Some("final=" + Decimal(o.count)), None)
  }

  ghost function Streamed(o: Order): (es: seq<Envelope>)
    requires o.count > 0
    ensures |es| == o.count + (if o.done then 1 else 0)
  {
    seq(o.count, i requires 0 <= i => NthFrame(o, i)) + (if o.done then [LastFrame(o)] else [])
  }

  datatype Outcome = Sent | NotConnected | TooLarge

  predicate Small(e: Envelope, codec: Codec) {
    |codec.enc(e)| <= MAX_FRAME_BYTES
  }

  /** Envelopes that all go on the wire: their encodings are never empty. */
  ghost predicate Sendable(es: seq<Envelope>, codec: Codec) {
    && codec.Sound()
    && (forall e :: codec.enc(e) != [])
    && forall i :: 0 <= i < |es| ==> Small(es[i], codec)
  }

  lemma SendableFits(es: seq<Envelope>, codec: Codec)
    requires Sendable(es, codec)
    ensures AllFit(Bodies(es, codec))
  {
  }

  lemma SendableReadsBack(es: seq<Envelope>, codec: Codec)
    requires Sendable(es, codec)
    ensures AllFit(Bodies(es, codec))
    ensures Heard(ReadAll(EncodeAll(Bodies(es, codec))).0, codec) == es
    ensures ReadAll(EncodeAll(Bodies(es, codec))).1 == Eof
  {
    SendableFits(es, codec);
    ReadBack(Bodies(es, codec));
    HeardBack(es, codec);
  }

  /** Writes one more frame after those of `es`. */
  method SendNext(out: Sink, ghost es: seq<Envelope>, e: Envelope, codec: Codec) returns (ok: bool)
    requires Sendable(es, codec) && AllFit(Bodies(es, codec)) && out.written == EncodeAll(Bodies(es, codec))
    modifies out
    ensures ok <==> Small(e, codec)
    ensures ok ==>
              && Sendable(es + [e], codec) && AllFit(Bodies(es + [e], codec))
              && out.written == EncodeAll(Bodies(es + [e], codec))
    ensures !ok ==> out.written == old(out.written)
  {
    var r := WriteFrame(out, codec.enc(e));
    if r.Failure? {
      return false;
    }
    ghost var all := Bodies(es + [e], codec);
    SendableFits(es + [e], codec);
    EncodeAllSnoc(all, |es|);
    assert all[..|es|] == Bodies(es, codec) && all[..|es| + 1] == all;
    return true;
  }

  /** Writes the frames of an order, up to the first that is too large to frame. */
  method SendFrames(out: Sink, o: Order, codec: Codec) returns (ok: bool, ghost wrote: nat)
    requires o.count > 0 && out.written == [] && Sendable([], codec)
    modifies out
    ensures wrote <= |Streamed(o)| && (ok <==> wrote == |Streamed(o)|)
    ensures !ok ==> !Small(Streamed(o)[wrote], codec)
    ensures var es := Streamed(o)[..wrote];
            Sendable(es, codec) && AllFit(Bodies(es, codec)) && out.written == EncodeAll(Bodies(es, codec))
  {
    ghost var all := Streamed(o);
    wrote := 0;
    assert all[..0] == [] && Bodies([], codec) == [];
    for i := 0 to o.count
      invariant wrote == i && Sendable(all[..i], codec)
      invariant AllFit(Bodies(all[..i], codec)) && out.written == EncodeAll(Bodies(all[..i], codec))
    {
      ok := SendNext(out, all[..i], NthFrame(o, i), codec);
      assert all[..i] + [NthFrame(o, i)] == all[..i + 1];
      if !ok {
        return;
      }
      wrote := i + 1;
    }
    ok := true;
    if o.done {
      ok := SendNext(out, all[..o.count], LastFrame(o), codec);
      assert all[..o.count] + [LastFrame(o)] == all[..o.count + 1];
      if ok {
        wrote := o.count + 1;
      }
    }
  }

  /** Connects, after `refusals` refused attempts, and streams. What arrives is the whole order if it was sent,
      and otherwise the frames before the first one that is too large to frame. */
  method StreamOne(out: Sink, o: Order, retries: int32, refusals: nat, codec: Codec)
    returns (r: Outcome, ghost wrote: nat)
    requires o.count > 0 && out.written == [] && codec.Sound() && forall e :: codec.enc(e) != []
    modifies out
    ensures wrote <= |Streamed(o)| && Heard(ReadAll(out.written).0, codec) == Streamed(o)[..wrote]
    ensures ReadAll(out.written).1 == Eof
    ensures r.NotConnected? <==> retries <= refusals
    ensures r.NotConnected? ==> wrote == 0
    ensures r.Sent? ==> wrote == |Streamed(o)|
    ensures r.TooLarge? ==> wrote < |Streamed(o)| && !Small(Streamed(o)[wrote], codec)
    ensures forall i :: 0 <= i < wrote ==> Small(Streamed(o)[i], codec)
  {
    ghost var all := Streamed(o);
    wrote := 0;
    SendableReadsBack([], codec);
    assert all[..0] == [] && Bodies([], codec) == [];
    var attempt := 1;
    while attempt <= retries && attempt <= refusals
      invariant 1 <= attempt
      invariant attempt - 1 <= refusals && (attempt == 1 || attempt - 1 <= retries)
    {
      attempt := attempt + 1;
    }
    if attempt > retries {
      return NotConnected, 0;
    }
    var ok;
    ok, wrote := SendFrames(out, o, codec);
    SendableReadsBack(all[..wrote], codec);
    r := if ok then Sent else TooLarge;
  }

  lemma WrapIs(n: int)
    ensures (Wrap(n) - n) % 0x1_0000_0000 == 0
    ensures Wrap(n) == n <==> -0x8000_0000 <= n <= 0x7FFF_FFFF
  {
    var m := n + 0x8000_0000;
    assert m == m / 0x1_0000_0000 * 0x1_0000_0000 + m % 0x1_0000_0000;
    assert Wrap(n) - n == -(m / 0x1_0000_0000) * 0x1_0000_0000;
  }

  lemma FrameIs(o: Order, i: nat)
    requires o.count > 0 && i < o.count
    ensures Streamed(o)[i] == NthFrame(o, i)
    ensures var n := Streamed(o)[i].seqNo;
            && -0x8000_0000 <= n <= 0x7FFF_FFFF && (n - (o.first + i)) % 0x1_0000_0000 == 0
            && (n == o.first + i <==> o.first + i <= 0x7FFF_FFFF)
  {
    WrapIs(o.first + i);
  }

  /** The frames carry what was ordered and are numbered modulo 2^32, so one after the other from the first number
      exactly when the last number fits in 32 bits; the DONE carries the number of the last and reads how many
      there were. */
  lemma StreamNumbers(o: Order)
    requires o.count > 0
    ensures (forall i :: 0 <= i < o.count ==> Streamed(o)[i].seqNo == o.first + i)
            <==> o.first + o.count - 1 <= 0x7FFF_FFFF
    ensures forall i :: 0 <= i < o.count ==>
              var n := Streamed(o)[i].seqNo;
              -0x8000_0000 <= n <= 0x7FFF_FFFF && (n - (o.first + i)) % 0x1_0000_0000 == 0
    ensures forall i :: 0 <= i < o.count ==>
              var e := Streamed(o)[i];
              && e.session == o.session && e.sender == o.sender && e.kind == o.kind && e.task == o.task
              && e.payload == o.payload && e.ackOf == None
    ensures o.done ==>
              var e := Streamed(o)[o.count];
              && e.session == o.session && e.sender == o.sender && e.kind == "DONE" && e.task == o.task
              && e.payload.Some? && "final=" <= e.payload.value && NumberOf(e.payload.value[6..]) == o.count
              && e.ackOf == None && e.seqNo == Streamed(o)[o.count - 1].seqNo
  {
    DecimalReads(o.count);
    assert ("final=" + Decimal(o.count))[6..] == Decimal(o.count);
    forall i | 0 <= i < o.count
      ensures var n := Streamed(o)[i].seqNo;
              && Streamed(o)[i] == NthFrame(o, i)
              && -0x8000_0000 <= n <= 0x7FFF_FFFF && (n - (o.first + i)) % 0x1_0000_0000 == 0
              && (n == o.first + i <==> o.first + i <= 0x7FFF_FFFF)
    {
      FrameIs(o, i);
    }
    assert Streamed(o)[o.count - 1].seqNo == LastFrame(o).seqNo;
  }
}
