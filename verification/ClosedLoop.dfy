/**
  The closed loop: an actor's messages are framed onto a connection, the host's listener prints a line
  for each, the awaiter splits and parses those lines and picks the correlated reply, and the stage
  recorder turns that reply into a staged candidate.
  */
module ClosedLoop {
  import opened Wrappers
  import opened Framing
  import opened Lines
  import opened LineFormat
  import opened BlankPayload
  import opened Candidates

  // ---------------------------------------------------------------- the listener's side of a connection

  /** What deserializing a frame body gives: the JSON text `null` is a value too. */
  datatype Decoded = NullEnvelope | Got(e: Envelope) | Malformed

  /** The JSON serializer of envelopes. */
  datatype Codec = Codec(enc: Envelope -> seq<byte>, dec: seq<byte> -> Decoded) {
    ghost predicate Sound() {
      forall e :: dec(enc(e)) == Got(e)
    }
  }

  /** The envelopes of `bodies` up to the first body that is no envelope. */
  function Heard(bodies: seq<seq<byte>>, codec: Codec): seq<Envelope> {
    if bodies == [] || !codec.dec(bodies[0]).Got? then []
    else [codec.dec(bodies[0]).e] + Heard(bodies[1..], codec)
  }

  /** The line Console.WriteLine prints ends in `cr` (empty or a carriage return) and a newline. */
  function PrintedLines(remote: string, es: seq<Envelope>, cr: string): seq<string> {
    Mapped(e => ListenerLine("TCP", remote, e) + cr, es)
  }

  function Printed(remote: string, es: seq<Envelope>, cr: string): string {
    Join(PrintedLines(remote, es, cr))
  }

  lemma {:induction false} JoinSnoc(lines: seq<string>, line: string)
    ensures Join(lines + [line]) == Join(lines) + line + "\n"
  {
    if lines == [] {
      assert [] + [line] == [line];
    } else {
      assert (lines + [line])[1..] == lines[1..] + [line];
      JoinSnoc(lines[1..], line);
    }
  }

  lemma PrintedSnoc(remote: string, es: seq<Envelope>, e: Envelope, cr: string)
    ensures Printed(remote, es + [e], cr) == Printed(remote, es, cr) + (ListenerLine("TCP", remote, e) + cr) + "\n"
  {
    JoinSnoc(PrintedLines(remote, es, cr), ListenerLine("TCP", remote, e) + cr);
    MappedSnoc(x => ListenerLine("TCP", remote, x) + cr, es, e);
  }

  lemma HeardCons(body: seq<byte>, later: seq<seq<byte>>, codec: Codec)
    ensures Heard([body] + later, codec) ==
            if codec.dec(body).Got? then [codec.dec(body).e] + Heard(later, codec) else []
  {
    assert ([body] + later)[1..] == later;
  }

  /** The stop signal was not set at any of the first `n` looks. */
  ghost predicate Unstopped(stop: nat -> bool, n: nat) {
    forall k :: 0 <= k < n ==> !stop(k)
  }

  /** How many of `n` messages are heard, from the k-th look on, before the stop signal is found set. */
  function Heeded(stop: nat -> bool, k: nat, n: nat): (heard: nat)
    requires k <= n
    ensures k <= heard <= n
    decreases n - k
  {
    if k == n || stop(k) then k else Heeded(stop, k + 1, n)
  }

  lemma {:induction false} HeededIs(stop: nat -> bool, k: nat, n: nat, heard: nat)
    requires k <= heard <= n && Unstopped(stop, heard) && (heard < n ==> stop(heard))
    ensures Heeded(stop, k, n) == heard
    decreases heard - k
  {
    if k == heard {
    } else {
      HeededIs(stop, k + 1, n, heard);
    }
  }

  lemma UnstoppedNext(stop: nat -> bool, n: nat)
    requires Unstopped(stop, n) && !stop(n)
    ensures Unstopped(stop, n + 1)
  {
  }

  /** The listening host: its name, whether it echoes ACKs, and for the k-th message of a connection the number
      that the counter gave it and the time of its ACK. */
  datatype Host = Host(self: string, echo: bool, ticket: nat -> int, clock: nat -> string)

  function AckOf(host: Host, e: Envelope, k: nat): Envelope {
    var text := "received " + e.kind + " from " + e.sender;
    Envelope(e.session, host.self, host.ticket(k), host.clock(k), "ACK", e.task, Some(text), Some(e.seqNo))
  }

  function Acks(host: Host, es: seq<Envelope>): (acks: seq<Envelope>)
    ensures |acks| == |es|
  {
    if es == [] then [] else Acks(host, es[..|es| - 1]) + [AckOf(host, es[|es| - 1], |es| - 1)]
  }

  /** The bytes of a frame, if it is not too large to be sent. */
  function Framed(e: Envelope, codec: Codec): seq<byte> {
    if |codec.enc(e)| <= MAX_FRAME_BYTES then Encode(codec.enc(e)) else []
  }

  /** What is written back to the sender of `es`. */
  function Echoed(host: Host, es: seq<Envelope>, codec: Codec): seq<byte> {
    if es == [] || !host.echo then []
    else Echoed(host, es[..|es| - 1], codec) + Framed(AckOf(host, es[|es| - 1], |es| - 1), codec)
  }

  lemma EchoedSnoc(host: Host, es: seq<Envelope>, e: Envelope, codec: Codec)
    ensures Echoed(host, es + [e], codec) ==
            Echoed(host, es, codec) + (if host.echo then Framed(AckOf(host, e, |es|), codec) else [])
  {
    assert (es + [e])[..|es|] == es;
    if !host.echo {
      assert Echoed(host, es, codec) + [] == Echoed(host, es, codec);
    }
  }

  /** How far the loop below has come: `es` are printed and answered, `more` are still to be heard. */
  ghost predicate Listened(printed: string, written: seq<byte>, es: seq<Envelope>, more: seq<Envelope>,
        all: seq<Envelope>, host: Host, codec: Codec, remote: string, cr: string) {
    es + more == all && printed == Printed(remote, es, cr) && written == Echoed(host, es, codec)
  }

  lemma ListenedEnd(printed: string, written: seq<byte>, es: seq<Envelope>, more: seq<Envelope>,
        all: seq<Envelope>, host: Host, codec: Codec, remote: string, cr: string)
    requires Listened(printed, written, es, more, all, host, codec, remote, cr)
    ensures es <= all && (more == [] ==> es == all)
    ensures printed == Printed(remote, es, cr) && written == Echoed(host, es, codec)
  {
  }

  lemma ListenedNext(printed: string, written: seq<byte>, es: seq<Envelope>, e: Envelope, later: seq<Envelope>,
        all: seq<Envelope>, host: Host, codec: Codec, remote: string, cr: string)
    requires Listened(printed, written, es, [e] + later, all, host, codec, remote, cr)
    ensures Listened(printed + (ListenerLine("TCP", remote, e) + cr) + "\n",
                     written + (if host.echo then Framed(AckOf(host, e, |es|), codec) else []),
                     es + [e], later, all, host, codec, remote, cr)
  {
    Associate(es, [e], later);
    PrintedSnoc(remote, es, e, cr);
    EchoedSnoc(host, es, e, codec);
  }

  /** Writes the ACK of the k-th message; one that is too large is dropped without a word. */
  method Echo(out: Sink, codec: Codec, host: Host, e: Envelope, k: nat)
    modifies out
    ensures out.written == old(out.written) + (if host.echo then Framed(AckOf(host, e, k), codec) else [])
  {
    if host.echo {
      var r := WriteFrame(out, codec.enc(AckOf(host, e, k)));
    }
  }

  /** Reads frames off the connection, prints each and echoes its ACK, until the stream ends, a frame is refused,
      or the stop signal is set when the loop looks at it: `stop(k)` is what it finds there after `k` messages,
      whoever set it, this connection's own count among others. */
  method HandleTcpClient(s: Source, out: Sink, codec: Codec, host: Host, remote: string, cr: string,
        stop: nat -> bool)
    returns (printed: string, ghost es: seq<Envelope>)
    requires s.Valid() && out.written == []
    modifies s`pos, out
    ensures es <= Heard(ReadAll(old(s.Rest())).0, codec)
    ensures Unstopped(stop, |es|) && (es != Heard(ReadAll(old(s.Rest())).0, codec) ==> stop(|es|))
    ensures printed == Printed(remote, es, cr) && out.written == Echoed(host, es, codec)
  {
    printed, es := "", [];
    ghost var all := Heard(ReadAll(s.Rest()).0, codec);
    assert es + all == all;
    var looked: nat := 0;
    while !stop(looked)
      invariant s.Valid() && looked == |es| && Unstopped(stop, looked)
      invariant Listened(printed, out.written, es, Heard(ReadAll(s.Rest()).0, codec), all, host, codec, remote, cr)
      decreases |s.Rest()|
    {
      UnstoppedNext(stop, looked);
      ghost var more := Heard(ReadAll(s.Rest()).0, codec);
      var r := ReadFrame(s);
      if !r.Body? {
        ListenedEnd(printed, out.written, es, more, all, host, codec, remote, cr);
        return;
      }
      HeardCons(r.bytes, ReadAll(s.Rest()).0, codec);
      var d := codec.dec(r.bytes);
      if !d.Got? {
        ListenedEnd(printed, out.written, es, more, all, host, codec, remote, cr);
        return;
      }
      ListenedNext(printed, out.written, es, d.e, Heard(ReadAll(s.Rest()).0, codec), all, host, codec, remote, cr);
      printed := printed + (ListenerLine("TCP", remote, d.e) + cr) + "\n";
      Echo(out, codec, host, d.e, looked);
      es := es + [d.e];
      looked := looked + 1;
    }
    ListenedEnd(printed, out.written, es, Heard(ReadAll(s.Rest()).0, codec), all, host, codec, remote, cr);
  }

  // ---------------------------------------------------------------- the awaiter

  predicate Matches(f: Reply, kind: string, task: string) {
    f.kind == kind && f.task == Some(task)
  }

  function FirstMatch(frames: seq<Reply>, kind: string, task: string): Option<Reply> {
    if frames == [] then None
    else if Matches(frames[0], kind, task) then Some(frames[0])
    else FirstMatch(frames[1..], kind, task)
  }

  /** The lines that parse, in order. */
  function Replies(lines: seq<string>): seq<Reply> {
    if lines == [] then []
    else
      match ParseLine(lines[0])
      case None => Replies(lines[1..])
      case Some(f) => [f] + Replies(lines[1..])
  }

  lemma {:induction false} RepliesSnoc(lines: seq<string>, line: string)
    ensures Replies(lines + [line]) == Replies(lines) + (match ParseLine(line) case None => [] case Some(f) => [f])
  {
    if lines == [] {
      assert [] + [line] == [line];
    } else {
      assert (lines + [line])[1..] == lines[1..] + [line];
      RepliesSnoc(lines[1..], line);
    }
  }

  lemma {:induction false} RepliesAppend(lines: seq<string>, more: seq<string>)
    ensures Replies(lines + more) == Replies(lines) + Replies(more)
  {
    if lines == [] {
      assert lines + more == more;
    } else {
      assert (lines + more)[1..] == lines[1..] + more;
      RepliesAppend(lines[1..], more);
    }
  }

  /** A match, once made, is kept: what comes later does not change it. */
  lemma {:induction false} FirstMatchAppend(frames: seq<Reply>, more: seq<Reply>, kind: string, task: string)
    ensures FirstMatch(frames + more, kind, task) ==
            if FirstMatch(frames, kind, task).Some? then FirstMatch(frames, kind, task)
            else FirstMatch(more, kind, task)
  {
    if frames == [] {
      assert [] + more == more;
    } else {
      assert (frames + more)[1..] == frames[1..] + more;
      FirstMatchAppend(frames[1..], more, kind, task);
    }
  }

  class Awaiter {
    const kind: string
    const task: string
    var buf: string
    var frames: seq<Reply>
    var matched: Option<Reply>
    ghost var received: string

    constructor (kind: string, task: string)
      ensures Valid() && received == "" && this.kind == kind && this.task == task
    {
      this.kind := kind;
      this.task := task;
      buf, frames, matched, received := "", [], None, "";
    }

    /** Of all that arrived so far: the parsed lines, the unfinished line, and the first correlated reply. */
    ghost predicate Valid()
      reads this
    {
      && frames == Replies(Split(received)) && buf == Tail(received)
      && matched == FirstMatch(frames, kind, task)
    }

    /** One line: kept if it parses, and the match if it is the first correlated one. */
    method OnLine(line: string, ghost done: seq<string>)
      requires frames == Replies(done) && matched == FirstMatch(frames, kind, task)
      modifies this`frames, this`matched
      ensures frames == Replies(done + [line]) && matched == FirstMatch(frames, kind, task)
      ensures old(matched).Some? ==> matched == old(matched)
    {
      RepliesSnoc(done, line);
      var f := ParseLine(line);
      if f.None? {
        assert frames + [] == frames;
        return;
      }
      FirstMatchAppend(frames, [f.value], kind, task);
      frames := frames + [f.value];
      if matched.None? && Matches(f.value, kind, task) {
        matched := f;
      }
    }

    method OnData(chunk: string)
      requires Valid()
      modifies this
      ensures Valid() && received == old(received) + chunk
      ensures old(matched).Some? ==> matched == old(matched)
    {
      SplitAppend(received, chunk);
      buf := buf + chunk;
      ghost var whole := buf;
      ghost var done := Split(received);
      while FirstBreak(buf) < |buf|
        invariant done + Split(buf) == Split(received + chunk) && Tail(buf) == Tail(whole)
        invariant frames == Replies(done) && matched == FirstMatch(frames, kind, task)
        invariant received == old(received) && (old(matched).Some? ==> matched == old(matched))
        decreases |buf|
      {
        var nl := FirstBreak(buf);
        var line := buf[..nl];
        SplitCons(done, buf, nl);
        buf := buf[nl + 1..];
        OnLine(line, done);
        done := done + [line];
      }
      assert done + [] == done;
      received := received + chunk;
    }
  }

  // ---------------------------------------------------------------- the stage recorder

  datatype Readback = Readback(matched: bool, kind: string, task: string, reply: Option<Reply>)

  datatype StageError = NotCorrelated | NotAStage | NotBound

  function FrameOf(reply: Reply): Frame {
    Frame(reply.senderId, reply.kind, reply.task, reply.payload)
  }

  function BuildReleaseStage(candidate: Value, readback: Readback, drive: Value, vm: Value,
        parse: string -> Option<Json>)
    : Result<Staged, StageError>
  {
    if !readback.matched || readback.kind != "DONE" || readback.task == "" || readback.reply.None?
       || readback.reply.value.kind != "DONE" || readback.reply.value.task != Some(readback.task)
    then Failure(NotCorrelated)
    else
      var payload := readback.reply.value.payload;
      // an absent payload reads as the text null, which names no candidate
      var named := ParseStagedCandidate(if payload.Some? then payload.value else "null", parse);
      if named.None? then Failure(NotAStage)
      else
        var staged := Staged(drive, vm, true, named.value, Some(FrameOf(readback.reply.value)));
        if StagedOk(staged, candidate, parse) then Success(staged) else Failure(NotBound)
  }

  /** What is staged of any readback: it must be matched, expect a DONE of a named task and hold a reply that is one,
      from WIN, with a payload that names the requested candidate. */
  lemma StageExactly(candidate: Value, readback: Readback, drive: Value, vm: Value, parse: string -> Option<Json>)
    ensures var staged := BuildReleaseStage(candidate, readback, drive, vm, parse);
            if readback.matched && readback.kind == "DONE" && readback.task != ""
               && readback.reply.Some? && readback.reply.value.kind == "DONE"
               && readback.reply.value.task == Some(readback.task)
            then
              var payload := readback.reply.value.payload;
              var named := ParseStagedCandidate(if payload.Some? then payload.value else "null", parse);
              && (staged == Failure(NotAStage) <==> named.None?)
              && (staged.Success? <==>
                    && readback.reply.value.senderId == "WIN" && payload.Some? && payload.value != ""
                    && named.Some? && CandidatesMatch(named.value, OrEmpty(candidate)))
              && staged != Failure(NotCorrelated)
            else staged == Failure(NotCorrelated)
  {
  }

  // ---------------------------------------------------------------- end to end

  /** A message that prints on one line. */
  predicate WellFormed(e: Envelope) {
    HeadPrintable(e) && '\n' !in e.wall && (e.payload.Some? ==> '\n' !in e.payload.value)
  }

  predicate AllWellFormed(es: seq<Envelope>) {
    forall i :: 0 <= i < |es| ==> WellFormed(es[i])
  }

  predicate Wanted(e: Envelope, kind: string, task: string) {
    e.kind == kind && e.task == Some(task)
  }

  /** The messages whose lines the awaiter recognizes: all but those whose payload shows as blank. */
  function Recognized(es: seq<Envelope>): seq<Envelope> {
    if es == [] then [] else (if ShowsBlank(es[0]) then [] else [es[0]]) + Recognized(es[1..])
  }

  lemma {:induction false} AllRecognized(es: seq<Envelope>)
    ensures Recognized(es) == es <==> forall i :: 0 <= i < |es| ==> !ShowsBlank(es[i])
    ensures |Recognized(es)| <= |es|
  {
    if es == [] {
    } else {
      AllRecognized(es[1..]);
      assert es == [es[0]] + es[1..];
    }
  }

  function FirstWanted(es: seq<Envelope>, kind: string, task: string): Option<Envelope> {
    if es == [] then None
    else if Wanted(es[0], kind, task) then Some(es[0])
    else FirstWanted(es[1..], kind, task)
  }

  ghost function Bodies(es: seq<Envelope>, codec: Codec): seq<seq<byte>> {
    seq(|es|, i requires 0 <= i < |es| => codec.enc(es[i]))
  }

  lemma {:induction false} HeardBack(es: seq<Envelope>, codec: Codec)
    requires codec.Sound()
    ensures Heard(Bodies(es, codec), codec) == es
  {
    if es == [] {
    } else {
      assert Bodies(es, codec)[1..] == Bodies(es[1..], codec);
      assert codec.dec(codec.enc(es[0])) == Got(es[0]);
      HeardBack(es[1..], codec);
    }
  }

  lemma BodiesSnoc(es: seq<Envelope>, e: Envelope, codec: Codec)
    ensures Bodies(es + [e], codec) == Bodies(es, codec) + [codec.enc(e)]
  {
  }

  lemma {:induction false} EchoedFrames(host: Host, es: seq<Envelope>, codec: Codec)
    requires host.echo && AllFit(Bodies(Acks(host, es), codec))
    ensures Echoed(host, es, codec) == EncodeAll(Bodies(Acks(host, es), codec))
    decreases |es|
  {
    if es == [] {
    } else {
      var before, last := es[..|es| - 1], AckOf(host, es[|es| - 1], |es| - 1);
      var bodies := Bodies(Acks(host, es), codec);
      BodiesSnoc(Acks(host, before), last, codec);
      assert forall i :: 0 <= i < |before| ==> bodies[i] == Bodies(Acks(host, before), codec)[i];
      assert bodies[|before|] == codec.enc(last);
      EchoedFrames(host, before, codec);
      EncodeAllSnoc(bodies, |before|);
      assert bodies[..|before|] == Bodies(Acks(host, before), codec) && bodies[..|es|] == bodies;
    }
  }

  lemma {:induction false} AcksAre(host: Host, es: seq<Envelope>)
    ensures forall k :: 0 <= k < |es| ==> Acks(host, es)[k] == AckOf(host, es[k], k)
    decreases |es|
  {
    if es == [] {
    } else {
      AcksAre(host, es[..|es| - 1]);
    }
  }

  /** The sender reads back one ACK for each message heard, in order: it carries the number that the counter gave
      the message, and answers the number that the message came with. */
  lemma AcksReadBack(host: Host, es: seq<Envelope>, codec: Codec)
    requires host.echo && codec.Sound() && AllFit(Bodies(Acks(host, es), codec))
    ensures var back := Heard(ReadAll(Echoed(host, es, codec)).0, codec);
            && |back| == |es|
            && forall k :: 0 <= k < |es| ==>
                 && back[k].kind == "ACK" && back[k].sender == host.self && back[k].session == es[k].session
                 && back[k].seqNo == host.ticket(k) && back[k].ackOf == Some(es[k].seqNo)
                 && back[k].wall == host.clock(k) && back[k].task == es[k].task
                 && back[k].payload == Some("received " + es[k].kind + " from " + es[k].sender)
    ensures ReadAll(Echoed(host, es, codec)).1 == Eof
  {
    EchoedFrames(host, es, codec);
    ReadBack(Bodies(Acks(host, es), codec));
    HeardBack(Acks(host, es), codec);
    AcksAre(host, es);
  }

  lemma TokenOneLine(s: string)
    requires NonSpace.HasAll(s)
    ensures '\n' !in s
  {
  }

  lemma OneLineFive(a: string, b: string, c: string, d: string, e: string)
    requires '\n' !in a && '\n' !in b && '\n' !in c && '\n' !in d && '\n' !in e
    ensures '\n' !in a + b + c + d + e
  {
  }

  lemma PartsOneLine(e: Envelope)
    requires WellFormed(e)
    ensures '\n' !in Decimal(e.seqNo) && '\n' !in TaskText(e) && '\n' !in AckText(e) && '\n' !in BodyText(e)
  {
    if e.task.Some? { TokenOneLine(e.task.value); }
    DecimalToken(e.seqNo);
    TokenOneLine(Decimal(e.seqNo));
    if e.ackOf.Some? {
      DecimalToken(e.ackOf.value);
      TokenOneLine(Decimal(e.ackOf.value));
    }
  }

  lemma RenderOneLine(e: Envelope)
    requires WellFormed(e)
    ensures '\n' !in Render(e)
  {
    PartsOneLine(e);
    TokenOneLine(e.sender);
    TokenOneLine(e.kind);
    OneLineFive("[", e.wall, "] ", e.sender, " #");
    OneLineFive("[" + e.wall + "] " + e.sender + " #", Decimal(e.seqNo), " ", e.kind, TaskText(e));
    OneLineFive(RenderHead(e), BodyText(e), "", "", "");
    assert Render(e) == RenderHead(e) + BodyText(e) + "" + "" + "";
  }

  lemma LineOneLine(remote: string, e: Envelope, cr: string)
    requires Token(remote) && WellFormed(e) && (cr == "" || cr == "\r")
    ensures '\n' !in ListenerLine("TCP", remote, e) + cr
  {
    TokenOneLine(remote);
    RenderOneLine(e);
    OneLineFive("TCP", " ", remote, "  ", Render(e));
    OneLineFive("TCP" + " " + remote + "  " + Render(e), cr, "", "", "");
    assert ListenerLine("TCP", remote, e) + cr == "TCP" + " " + remote + "  " + Render(e) + cr + "" + "" + "";
  }

  /** What the awaiter should see of messages. */
  function Reports(remote: string, es: seq<Envelope>): seq<Reply> {
    Mapped(e => Seen("TCP", remote, e), es)
  }

  lemma PrintedCons(remote: string, e: Envelope, later: seq<Envelope>, cr: string)
    ensures PrintedLines(remote, [e] + later, cr) == [ListenerLine("TCP", remote, e) + cr]
            + PrintedLines(remote, later, cr)
  {
    MappedCons(x => ListenerLine("TCP", remote, x) + cr, e, later);
  }

  lemma RepliesCons(line: string, later: seq<string>)
    ensures Replies([line] + later) == (match ParseLine(line) case None => [] case Some(f) => [f]) + Replies(later)
  {
    assert ([line] + later)[1..] == later;
    assert [] + Replies(later) == Replies(later);
  }

  lemma ReportsCons(remote: string, e: Envelope, later: seq<Envelope>)
    ensures Reports(remote, [e] + later) == [Seen("TCP", remote, e)] + Reports(remote, later)
  {
    MappedCons(x => Seen("TCP", remote, x), e, later);
  }

  lemma RecognizedCons(es: seq<Envelope>)
    requires es != []
    ensures Recognized(es) == if ShowsBlank(es[0]) then Recognized(es[1..]) else [es[0]] + Recognized(es[1..])
  {
    if ShowsBlank(es[0]) {
      assert [] + Recognized(es[1..]) == Recognized(es[1..]);
    }
  }

  lemma RepliesStep(remote: string, e: Envelope, later: seq<Envelope>, cr: string)
    requires Token(remote) && WellFormed(e) && (cr == "" || cr == "\r")
    requires Replies(PrintedLines(remote, later, cr)) == Reports(remote, Recognized(later))
    ensures Replies(PrintedLines(remote, [e] + later, cr)) ==
            if ShowsBlank(e) then Reports(remote, Recognized(later)) else Reports(remote, [e] + Recognized(later))
  {
    var line, lines := ListenerLine("TCP", remote, e) + cr, PrintedLines(remote, later, cr);
    PrintedCons(remote, e, later, cr);
    RepliesCons(line, lines);
    RecognizedExactly("TCP", remote, e, cr);
    ReportsCons(remote, e, Recognized(later));
    assert [] + Replies(lines) == Replies(lines);
  }

  /** The awaiter parses back every message it can recognize, in order. */
  lemma {:induction false} RepliesOfPrinted(remote: string, es: seq<Envelope>, cr: string)
    requires Token(remote) && AllWellFormed(es) && (cr == "" || cr == "\r")
    ensures Replies(PrintedLines(remote, es, cr)) == Reports(remote, Recognized(es))
  {
    if es == [] {
    } else {
      assert [es[0]] + es[1..] == es;
      RepliesOfPrinted(remote, es[1..], cr);
      RepliesStep(remote, es[0], es[1..], cr);
      RecognizedCons(es);
    }
  }

  lemma {:induction false} FirstOfReports(remote: string, es: seq<Envelope>, kind: string, task: string)
    ensures FirstMatch(Reports(remote, es), kind, task) ==
            match FirstWanted(es, kind, task) case None => None case Some(e) => Some(Seen("TCP", remote, e))
  {
    if es == [] {
    } else {
      ReportsCons(remote, es[0], es[1..]);
      assert [es[0]] + es[1..] == es;
      assert Reports(remote, es)[1..] == Reports(remote, es[1..]);
      FirstOfReports(remote, es[1..], kind, task);
    }
  }

  /** What the awaiter makes of the whole printed text. */
  lemma AwaiterSees(remote: string, es: seq<Envelope>, cr: string)
    requires Token(remote) && AllWellFormed(es) && (cr == "" || cr == "\r")
    ensures Tail(Printed(remote, es, cr)) == ""
            && Replies(Split(Printed(remote, es, cr))) == Reports(remote, Recognized(es))
  {
    var lines := PrintedLines(remote, es, cr);
    forall i | 0 <= i < |lines| ensures '\n' !in lines[i] {
      LineOneLine(remote, es[i], cr);
    }
    SplitUnique(lines, "");
    assert Join(lines) + "" == Join(lines);
    RepliesOfPrinted(remote, es, cr);
  }

  method Send(es: seq<Envelope>, codec: Codec) returns (out: Sink)
    requires AllFit(Bodies(es, codec))
    ensures fresh(out) && out.written == EncodeAll(Bodies(es, codec))
  {
    out := new Sink();
    ghost var bodies := Bodies(es, codec);
    for i := 0 to |es|
      invariant out.written == EncodeAll(bodies[..i]) && fresh(out)
    {
      var r := WriteFrame(out, codec.enc(es[i]));
      assert bodies[i] == codec.enc(es[i]);
      EncodeAllSnoc(bodies, i);
    }
    assert bodies[..|es|] == bodies;
  }

  /** Delivers `text` to the awaiter in chunks of the given sizes, then the rest. At the match the awaiter kills
      the listener: `late` chunks that were already on their way may still arrive, and the rest is lost. */
  method Deliver(awaiter: Awaiter, text: string, sizes: seq<nat>, late: nat) returns (ghost lost: string)
    requires awaiter.Valid() && awaiter.received == ""
    modifies awaiter
    ensures awaiter.Valid() && awaiter.received + lost == text
    ensures awaiter.matched.None? ==> lost == ""
  {
    var rest, left := text, late;
    for i := 0 to |sizes|
      invariant awaiter.Valid() && awaiter.received + rest == text
    {
      if awaiter.matched.Some? {
        if left == 0 {
          return rest;
        }
        left := left - 1;
      }
      var n := if sizes[i] <= |rest| then sizes[i] else |rest|;
      assert awaiter.received + rest == (awaiter.received + rest[..n]) + rest[n..];
      awaiter.OnData(rest[..n]);
      rest := rest[n..];
    }
    if awaiter.matched.Some? && left == 0 {
      return rest;
    }
    awaiter.OnData(rest);
    assert awaiter.received + "" == awaiter.received;
    lost := "";
  }

  /** What was received before the listener was killed parses to the first of all replies. */
  lemma RepliesOfReceived(received: string, lost: string)
    ensures Replies(Split(received)) <= Replies(Split(received + lost))
  {
    SplitAppend(received, lost);
    RepliesAppend(Split(received), Split(Tail(received) + lost));
  }

  /** The first match of a prefix that has one is that of the whole. */
  lemma FirstMatchOfPrefix(frames: seq<Reply>, all: seq<Reply>, kind: string, task: string)
    requires frames <= all && (FirstMatch(frames, kind, task).Some? || frames == all)
    ensures FirstMatch(frames, kind, task) == FirstMatch(all, kind, task)
  {
    FirstMatchAppend(frames, all[|frames|..], kind, task);
    assert frames + all[|frames|..] == all;
  }

  /** The messages heard: those sent before the stop signal is found set. */
  function HeardOf(es: seq<Envelope>, stop: nat -> bool): seq<Envelope> {
    es[..Heeded(stop, 0, |es|)]
  }

  /** The first wanted one of the messages the awaiter can recognize. */
  function Correlated(es: seq<Envelope>, kind: string, task: string): Option<Envelope> {
    FirstWanted(Recognized(es), kind, task)
  }

  /** The host's side: messages framed onto a connection and read with any short reads are printed as far as they
      are heard, and answered. */
  method Listen(es: seq<Envelope>, codec: Codec, host: Host, remote: string, cr: string, stop: nat -> bool)
    returns (printed: string, echoed: seq<byte>)
    requires codec.Sound() && AllFit(Bodies(es, codec))
    ensures printed == Printed(remote, HeardOf(es, stop), cr) && echoed == Echoed(host, HeardOf(es, stop), codec)
  {
    var out := Send(es, codec);
    ReadBack(Bodies(es, codec));
    HeardBack(es, codec);
    var source := new Source(out.written);
    assert source.Rest() == out.written;
    var back := new Sink();
    ghost var got;
    printed, got := HandleTcpClient(source, back, codec, host, remote, cr, stop);
    HeededIs(stop, 0, |es|, |got|);
    assert got == HeardOf(es, stop);
    echoed := back.written;
  }

  /** The awaiter's side: of the text of messages, in any chunks, it sees what it can recognize, in order, at least
      up to the first that is wanted. */
  method Watch(ghost got: seq<Envelope>, printed: string, remote: string, cr: string, kind: string, task: string,
               sizes: seq<nat>, late: nat)
    returns (matched: Option<Reply>, frames: seq<Reply>)
    requires AllWellFormed(got) && Token(remote) && (cr == "" || cr == "\r") && printed == Printed(remote, got, cr)
    ensures frames <= Reports(remote, Recognized(got)) && matched == FirstMatch(frames, kind, task)
    ensures matched == FirstMatch(Reports(remote, Recognized(got)), kind, task)
    ensures matched.None? ==> frames == Reports(remote, Recognized(got))
  {
    var awaiter := new Awaiter(kind, task);
    ghost var lost := Deliver(awaiter, printed, sizes, late);
    AwaiterSees(remote, got, cr);
    RepliesOfReceived(awaiter.received, lost);
    assert lost == "" ==> awaiter.received + lost == awaiter.received;
    FirstMatchOfPrefix(awaiter.frames, Reports(remote, Recognized(got)), kind, task);
    return awaiter.matched, awaiter.frames;
  }

  /** The whole way: messages framed onto a connection, read with any short reads, printed, cut into any
      chunks, split, parsed and correlated. The awaiter's match is the first wanted one of the messages heard
      that it can recognize, or nothing; its frames are those messages in order, at least up to the match. The
      sender is answered for each message heard. */
  method Await(es: seq<Envelope>, codec: Codec, host: Host, remote: string, cr: string, kind: string, task: string,
               stop: nat -> bool, sizes: seq<nat>, late: nat)
    returns (matched: Option<Reply>, frames: seq<Reply>, echoed: seq<byte>)
    requires codec.Sound() && AllFit(Bodies(es, codec)) && AllWellFormed(es) && Token(remote)
             && (cr == "" || cr == "\r")
    ensures matched ==
            match Correlated(HeardOf(es, stop), kind, task)
            case None => None
            case Some(e) => Some(Seen("TCP", remote, e))
    ensures frames <= Reports(remote, Recognized(HeardOf(es, stop))) && matched == FirstMatch(frames, kind, task)
    ensures echoed == Echoed(host, HeardOf(es, stop), codec)
    ensures matched.None? ==> frames == Reports(remote, Recognized(HeardOf(es, stop)))
  {
    var printed;
    printed, echoed := Listen(es, codec, host, remote, cr, stop);
    matched, frames := Watch(HeardOf(es, stop), printed, remote, cr, kind, task, sizes, late);
    FirstOfReports(remote, Recognized(HeardOf(es, stop)), kind, task);
  }

  /** The stage payload that the awaiter saw of `e` names the requested candidate. */
  predicate Names(e: Envelope, candidate: Value, parse: string -> Option<Json>) {
    e.payload.Some? &&
    var named := ParseStagedCandidate(Trim(Shown(e.payload.value)), parse);
    named.Some? && CandidatesMatch(named.value, OrEmpty(candidate))
  }

  /** The first message of those heard that has the wanted type and task and does not show as blank; none if there
      is no such message. */
  lemma {:induction false} CorrelatedIs(es: seq<Envelope>, kind: string, task: string) returns (at: nat)
    ensures at <= |es|
    ensures forall j :: 0 <= j < at ==> es[j].kind != kind || es[j].task != Some(task) || ShowsBlank(es[j])
    ensures at < |es| ==> es[at].kind == kind && es[at].task == Some(task) && !ShowsBlank(es[at])
    ensures Correlated(es, kind, task) == if at < |es| then Some(es[at]) else None
  {
    if es == [] {
      at := 0;
    } else {
      RecognizedCons(es);
      if !ShowsBlank(es[0]) {
        assert ([es[0]] + Recognized(es[1..]))[1..] == Recognized(es[1..]);
      }
      if !ShowsBlank(es[0]) && Wanted(es[0], kind, task) {
        at := 0;
      } else {
        var later := CorrelatedIs(es[1..], kind, task);
        at := later + 1;
        assert forall j :: 1 <= j < at ==> es[j] == es[1..][j - 1];
      }
    }
  }

  /** The readback that the awaiter's receipt records. */
  function ReadbackOf(matched: Option<Reply>, task: string): Readback {
    Readback(matched.Some?, "DONE", task, matched)
  }

  lemma StageOfReport(e: Envelope, task: string, remote: string, candidate: Value, drive: Value, vm: Value,
                      parse: string -> Option<Json>)
    requires Wanted(e, "DONE", task) && !ShowsBlank(e) && task != ""
    ensures var readback := ReadbackOf(Some(Seen("TCP", remote, e)), task);
            var staged := BuildReleaseStage(candidate, readback, drive, vm, parse);
            && (staged.Success? <==> e.sender == "WIN" && Names(e, candidate, parse))
            && (staged.Success? ==>
                  && staged.value.candidate == ParseStagedCandidate(Trim(Shown(e.payload.value)), parse).value
                  && CandidatesMatch(staged.value.candidate, OrEmpty(candidate))
                  && staged.value == Staged(drive, vm, true, staged.value.candidate,
                                            Some(Frame("WIN", "DONE", Some(task), Some(Trim(Shown(e.payload.value)))))))
            && (staged.Failure? && e.sender == "WIN" && e.payload.Some? ==>
                  staged.error ==
                  if ParseStagedCandidate(Trim(Shown(e.payload.value)), parse).None? then NotAStage else NotBound)
  {
  }

  /** From the messages on the connection to the staged candidate. A candidate is staged exactly when the first
      wanted message heard is from WIN and its payload names the requested candidate; for a payload that is neither
      cut nor trimmed on its way that is the payload as it was sent. Nothing is staged when there is no such
      message, and what is staged comes from one that WIN sent. */
  method AwaitAndStage(es: seq<Envelope>, codec: Codec, host: Host, remote: string, cr: string, task: string,
                       stop: nat -> bool, sizes: seq<nat>, late: nat,
                       candidate: Value, drive: Value, vm: Value, parse: string -> Option<Json>)
    returns (staged: Result<Staged, StageError>)
    requires codec.Sound() && AllFit(Bodies(es, codec)) && AllWellFormed(es) && Token(remote)
             && (cr == "" || cr == "\r")
    requires task != ""
    ensures var first := Correlated(HeardOf(es, stop), "DONE", task);
            && (staged.Success? <==> first.Some? && first.value.sender == "WIN" && Names(first.value, candidate, parse))
            && (first.Some? && first.value.payload.Some? && |first.value.payload.value| <= 400
                && Trim(first.value.payload.value) == first.value.payload.value ==>
                  var named := ParseStagedCandidate(first.value.payload.value, parse);
                  && (staged.Success? <==>
                        first.value.sender == "WIN" && named.Some? && CandidatesMatch(named.value, OrEmpty(candidate)))
                  && (staged.Success? ==> staged.value.candidate == named.value)
                  && (staged.Failure? && first.value.sender == "WIN" ==>
                        staged.error == if named.None? then NotAStage else NotBound))
            && (first.None? ==> staged == Failure(NotCorrelated))
    ensures staged.Success? ==>
              && CandidatesMatch(staged.value.candidate, OrEmpty(candidate))
              && staged.value.drive == drive && staged.value.vm == vm && staged.value.matched
              && exists e :: e in HeardOf(es, stop) && e.kind == "DONE" && e.task == Some(task) && e.sender == "WIN"
                   && Names(e, candidate, parse)
                   && staged.value.frame == Some(Frame("WIN", "DONE", Some(task), Some(Trim(Shown(e.payload.value)))))
  {
    var matched, frames, echoed := Await(es, codec, host, remote, cr, "DONE", task, stop, sizes, late);
    ghost var first := Correlated(HeardOf(es, stop), "DONE", task);
    ghost var at := CorrelatedIs(HeardOf(es, stop), "DONE", task);
    if first.Some? {
      StageOfReport(first.value, task, remote, candidate, drive, vm, parse);
    }
    staged := BuildReleaseStage(candidate, ReadbackOf(matched, task), drive, vm, parse);
  }
}
