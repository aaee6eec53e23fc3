/**
  The listener's two threads, as a step machine. Each reads messages of its own transport and shares
  with the other the count of messages received, the set of peers heard and the stop signal; every
  access to one of these is a step of its own.
  */
module Listener {
  import opened Wrappers

  datatype Msg = Msg(sender: string, seqNo: int)

  datatype Config = Config(count: int, countDistinct: int, self: string, echo: bool)

  datatype Thread = Tcp | Udp

  datatype Pc =
    | Unused                                     // the transport is not listened on
    | Check                                      // about to look at the stop signal
    | Reading
    | Counting(e: Msg)                           // printed, not yet counted
    | Capping(e: Msg, n: nat)                    // UDP looks at --count before noting the peer
    | Noting(e: Msg, n: nat)
    | Tallying(e: Msg, n: nat)                   // the peer is recorded; about to compare the number of peers
    | Acking(e: Msg, n: nat, peersDone: bool)
    | Finishing(n: nat, peersDone: bool)
    | Ended

  datatype Ack = Ack(seqNo: nat, ackOf: int)

  datatype Reason = CountReached | PeersReached | Outside

  /** `handled` are the counted messages in order, so its length is the counter; `stops` are the reasons
      for which the stop signal was set. */
  datatype State = State(
    handled: seq<Msg>,
    printed: nat,
    distinct: set<string>,
    stops: set<Reason>,
    tcp: Pc,
    udp: Pc,
    acks: seq<Ack>)

  /** One step of a thread. A read gives a message, or nothing when the peer closed, timed out or sent
      something that is no message; an ACK may fail to be written. Halt is the deadline or Ctrl-C. */
  datatype Step = Go(t: Thread, input: Option<Msg>, written: bool) | Halt

  function PcOf(s: State, t: Thread): Pc {
    if t.Tcp? then s.tcp else s.udp
  }

  function With(s: State, t: Thread, pc: Pc): State {
    if t.Tcp? then s.(tcp := pc) else s.(udp := pc)
  }

  function Reached(c: Config, n: nat): bool {
    c.count > 0 && n >= c.count
  }

  function Counts(c: Config, e: Msg): bool {
    c.countDistinct > 0 && e.sender != "" && e.sender != c.self
  }

  function AfterNote(t: Thread, e: Msg, n: nat, peersDone: bool): Pc {
    if t.Tcp? then Acking(e, n, peersDone) else Finishing(n, peersDone)
  }

  function Next(c: Config, s: State, step: Step): State {
    if step.Halt? then s.(stops := s.stops + {Outside})
    else
      var t := step.t;
      match PcOf(s, t)
      case Check => With(s, t, if s.stops != {} then Ended else Reading)
      case Reading =>
        if step.input.None? then With(s, t, Check)
        else With(s.(printed := s.printed + 1), t, Counting(step.input.value))
      case Counting(e) =>
        var n := |s.handled| + 1;
        With(s.(handled := s.handled + [e]), t, if t.Udp? then Capping(e, n) else Noting(e, n))
      case Capping(e, n) =>
        With(if Reached(c, n) then s.(stops := s.stops + {CountReached}) else s, t, Noting(e, n))
      case Noting(e, n) =>
        if Counts(c, e) then With(s.(distinct := s.distinct + {e.sender}), t, Tallying(e, n))
        else With(s, t, AfterNote(t, e, n, false))
      case Tallying(e, n) => With(s, t, AfterNote(t, e, n, |s.distinct| >= c.countDistinct))
      case Acking(e, n, peersDone) =>
        With(if c.echo && step.written then s.(acks := s.acks + [Ack(n, e.seqNo)]) else s, t, Finishing(n, peersDone))
      case Finishing(n, peersDone) =>
        var reasons := (if t.Tcp? && Reached(c, n) then {CountReached} else {})
          + (if peersDone then {PeersReached} else {});
        With(s.(stops := s.stops + reasons), t, Check)
      case _ => s
  }

  function After(c: Config, s: State, steps: seq<Step>): State
    decreases steps
  {
    if steps == [] then s else After(c, Next(c, s, steps[0]), steps[1..])
  }

  function Start(tcp: bool, udp: bool): State {
    State([], 0, {}, {}, if tcp then Check else Unused, if udp then Check else Unused, [])
  }

  // ---------------------------------------------------------------- the invariant

  /** The number a thread got from the counter for the message it is working on. */
  function NumberOf(pc: Pc): Option<nat> {
    match pc
    case Capping(_, n) => Some(n)
    case Noting(_, n) => Some(n)
    case Tallying(_, n) => Some(n)
    case Acking(_, n, _) => Some(n)
    case Finishing(n, _) => Some(n)
    case _ => None
  }

  /** The thread reads no more: it stands at the stop check with the signal set, or is through it. */
  predicate Through(s: State, pc: Pc) {
    s.stops != {} && (pc.Check? || pc.Ended?)
  }

  predicate OverCount(c: Config, s: State, pc: Pc) {
    Through(s, pc) || (NumberOf(pc).Some? && NumberOf(pc).value >= c.count)
  }

  predicate OverPeers(c: Config, s: State, pc: Pc) {
    || Through(s, pc)
    || (pc.Tallying? && |s.distinct| >= c.countDistinct)
    || ((pc.Acking? || pc.Finishing?) && pc.peersDone)
  }

  function One(b: bool): nat {
    if b then 1 else 0
  }

  function Pending(s: State): nat {
    One(s.tcp.Counting?) + One(s.udp.Counting?)
  }

  predicate BoundInv(c: Config, s: State) {
    && s.printed == |s.handled| + Pending(s)
    && (c.count > 0 ==> |s.handled| < c.count + One(OverCount(c, s, s.tcp)) + One(OverCount(c, s, s.udp)))
    && (c.count > 0 && NumberOf(s.udp).Some? && !s.udp.Capping? && NumberOf(s.udp).value >= c.count ==> s.stops != {})
    && (c.countDistinct > 0 ==>
          |s.distinct| < c.countDistinct + One(OverPeers(c, s, s.tcp)) + One(OverPeers(c, s, s.udp)))
  }

  predicate ThreadOk(c: Config, s: State, pc: Pc) {
    && (NumberOf(pc).Some? ==> 1 <= NumberOf(pc).value <= |s.handled|)
    && ((pc.Capping? || pc.Noting? || pc.Tallying? || pc.Acking?) ==> s.handled[pc.n - 1] == pc.e)
    && ((pc.Acking? || pc.Finishing?) && pc.peersDone ==> |s.distinct| >= c.countDistinct > 0)
    && (pc.Tallying? ==> c.countDistinct > 0)
  }

  predicate ThreadsOk(c: Config, s: State) {
    && ThreadOk(c, s, s.tcp) && ThreadOk(c, s, s.udp) && !s.udp.Acking? && !s.tcp.Capping?
    && (CountReached in s.stops ==> |s.handled| >= c.count > 0)
    && (PeersReached in s.stops ==> |s.distinct| >= c.countDistinct > 0)
  }

  /** Every recorded peer was heard, and is neither ourselves nor nameless. */
  ghost predicate PeersHeard(c: Config, s: State) {
    forall p :: p in s.distinct ==>
      p != "" && p != c.self && exists i :: 0 <= i < |s.handled| && s.handled[i].sender == p
  }

  ghost predicate AckInv(s: State) {
    && (forall i :: 0 <= i < |s.acks| ==>
          1 <= s.acks[i].seqNo <= |s.handled| && s.acks[i].ackOf == s.handled[s.acks[i].seqNo - 1].seqNo)
    && (forall i, j :: 0 <= i < j < |s.acks| ==> s.acks[i].seqNo < s.acks[j].seqNo)
    && ((s.tcp.Noting? || s.tcp.Tallying? || s.tcp.Acking?) ==>
          forall i :: 0 <= i < |s.acks| ==> s.acks[i].seqNo < s.tcp.n)
  }

  ghost predicate Inv(c: Config, s: State) {
    BoundInv(c, s) && ThreadsOk(c, s) && PeersHeard(c, s) && AckInv(s)
  }

  function Other(t: Thread): Thread {
    if t.Tcp? then Udp else Tcp
  }

  lemma OneMore(peers: set<string>, peer: string)
    ensures |peers| <= |peers + {peer}| <= |peers| + 1
  {
    if peer in peers {
      assert peers + {peer} == peers;
    }
  }

  lemma RecordsGrow(c: Config, s: State, step: Step)
    requires step.Go?
    ensures var u := Next(c, s, step);
            && s.handled <= u.handled && s.acks <= u.acks && s.stops <= u.stops
            && (!PcOf(s, step.t).Counting? ==> u.handled == s.handled)
  {
  }

  lemma PeersGrow(c: Config, s: State, step: Step)
    requires step.Go?
    ensures var u := Next(c, s, step);
            && s.distinct <= u.distinct && |s.distinct| <= |u.distinct| <= |s.distinct| + 1
            && (!PcOf(s, step.t).Noting? ==> u.distinct == s.distinct)
  {
    if PcOf(s, step.t).Noting? {
      OneMore(s.distinct, PcOf(s, step.t).e.sender);
    }
  }

  lemma OnlyMover(c: Config, s: State, step: Step)
    requires step.Go?
    ensures PcOf(Next(c, s, step), Other(step.t)) == PcOf(s, Other(step.t))
  {
  }

  /** The shared records only grow, and only the stepping thread moves. */
  lemma Grows(c: Config, s: State, step: Step)
    ensures var u := Next(c, s, step);
            && s.handled <= u.handled && s.acks <= u.acks && s.stops <= u.stops && s.distinct <= u.distinct
            && |s.distinct| <= |u.distinct| <= |s.distinct| + 1
            && (step.Halt? ==>
                  && u.tcp == s.tcp && u.udp == s.udp
                  && u.handled == s.handled && u.distinct == s.distinct && u.acks == s.acks)
            && (step.Go? ==> PcOf(u, Other(step.t)) == PcOf(s, Other(step.t)))
            && (step.Go? && !PcOf(s, step.t).Counting? ==> u.handled == s.handled)
            && (step.Go? && !PcOf(s, step.t).Noting? ==> u.distinct == s.distinct)
  {
    if step.Go? {
      RecordsGrow(c, s, step);
      PeersGrow(c, s, step);
      OnlyMover(c, s, step);
    }
  }

  lemma StillOver(c: Config, s: State, step: Step)
    requires step.Go? && c.count > 0 && OverCount(c, s, PcOf(s, step.t)) && !s.udp.Acking? && !s.tcp.Capping?
    requires NumberOf(s.udp).Some? && !s.udp.Capping? && NumberOf(s.udp).value >= c.count ==> s.stops != {}
    ensures OverCount(c, Next(c, s, step), PcOf(Next(c, s, step), step.t))
  {
    var u, pc := Next(c, s, step), PcOf(s, step.t);
    if Through(s, pc) {
      assert PcOf(u, step.t).Ended?;
    } else if pc.Finishing? {
      assert step.t.Tcp? ==> CountReached in u.stops;
    } else {
      assert NumberOf(PcOf(u, step.t)) == NumberOf(pc);
    }
  }

  lemma CountsOver(c: Config, s: State, step: Step)
    requires step.Go? && c.count > 0 && PcOf(s, step.t).Counting?
    ensures var u := Next(c, s, step);
            && |u.handled| == |s.handled| + 1
            && (|u.handled| >= c.count ==> OverCount(c, u, PcOf(u, step.t)))
  {
  }

  lemma OverCountStep(c: Config, s: State, step: Step)
    requires BoundInv(c, s) && ThreadsOk(c, s) && step.Go? && c.count > 0
    ensures var u := Next(c, s, step); var pc, pc' := PcOf(s, step.t), PcOf(u, step.t);
            && (OverCount(c, s, pc) ==> OverCount(c, u, pc'))
            && (pc.Counting? ==> !OverCount(c, s, pc) && |u.handled| == |s.handled| + 1
                                 && (|u.handled| >= c.count ==> OverCount(c, u, pc')))
  {
    var pc := PcOf(s, step.t);
    if pc.Counting? {
      CountsOver(c, s, step);
    } else if OverCount(c, s, pc) {
      StillOver(c, s, step);
    }
  }

  lemma PrintedStep(c: Config, s: State, step: Step)
    requires s.printed == |s.handled| + Pending(s)
    ensures Next(c, s, step).printed == |Next(c, s, step).handled| + Pending(Next(c, s, step))
  {
  }

  lemma StaysOver(c: Config, s: State, u: State, pc: Pc)
    requires s.stops <= u.stops
    ensures OverCount(c, s, pc) ==> OverCount(c, u, pc)
  {
  }

  lemma CountStep(c: Config, s: State, step: Step)
    requires BoundInv(c, s) && ThreadsOk(c, s) && c.count > 0
    ensures var u := Next(c, s, step);
            |u.handled| < c.count + One(OverCount(c, u, u.tcp)) + One(OverCount(c, u, u.udp))
  {
    Grows(c, s, step);
    var u := Next(c, s, step);
    StaysOver(c, s, u, s.tcp);
    StaysOver(c, s, u, s.udp);
    if step.Go? {
      OverCountStep(c, s, step);
    }
  }

  lemma CappedStep(c: Config, s: State, step: Step)
    requires BoundInv(c, s) && c.count > 0
    ensures var u := Next(c, s, step);
            NumberOf(u.udp).Some? && !u.udp.Capping? && NumberOf(u.udp).value >= c.count ==> u.stops != {}
  {
    Grows(c, s, step);
  }

  lemma PeersStep(c: Config, s: State, step: Step)
    requires BoundInv(c, s) && ThreadsOk(c, s) && c.countDistinct > 0
    ensures var u := Next(c, s, step);
            |u.distinct| < c.countDistinct + One(OverPeers(c, u, u.tcp)) + One(OverPeers(c, u, u.udp))
  {
    Grows(c, s, step);
  }

  lemma StaysOk(c: Config, s: State, u: State, pc: Pc)
    requires ThreadOk(c, s, pc) && s.handled <= u.handled && |s.distinct| <= |u.distinct|
    ensures ThreadOk(c, u, pc)
  {
  }

  lemma CountedOk(c: Config, s: State, step: Step)
    requires ThreadsOk(c, s) && step.Go? && PcOf(s, step.t).Counting?
    ensures ThreadOk(c, Next(c, s, step), PcOf(Next(c, s, step), step.t))
  {
    assert Next(c, s, step).handled == s.handled + [PcOf(s, step.t).e];
  }

  lemma OwnOk(c: Config, s: State, step: Step)
    requires ThreadsOk(c, s) && step.Go?
    ensures ThreadOk(c, Next(c, s, step), PcOf(Next(c, s, step), step.t))
  {
    if PcOf(s, step.t).Counting? {
      CountedOk(c, s, step);
    } else {
      assert Next(c, s, step).handled == s.handled;
    }
  }

  lemma StopsOk(c: Config, s: State, step: Step)
    requires ThreadsOk(c, s)
    ensures var u := Next(c, s, step);
            && (CountReached in u.stops ==> |u.handled| >= c.count > 0)
            && (PeersReached in u.stops ==> |u.distinct| >= c.countDistinct > 0)
            && !u.udp.Acking? && !u.tcp.Capping?
  {
    Grows(c, s, step);
  }

  lemma ThreadsStep(c: Config, s: State, step: Step)
    requires ThreadsOk(c, s)
    ensures ThreadsOk(c, Next(c, s, step))
  {
    var u := Next(c, s, step);
    Grows(c, s, step);
    StopsOk(c, s, step);
    StaysOk(c, s, u, s.tcp);
    StaysOk(c, s, u, s.udp);
    if step.Go? {
      OwnOk(c, s, step);
    }
  }

  lemma NewPeer(c: Config, s: State, step: Step, p: string)
    requires ThreadsOk(c, s) && p in Next(c, s, step).distinct && p !in s.distinct
    ensures p != "" && p != c.self && exists i :: 0 <= i < |s.handled| && s.handled[i].sender == p
  {
    var pc := PcOf(s, step.t);
    assert pc.Noting? && s.handled[pc.n - 1].sender == p;
  }

  lemma HeardStep(c: Config, s: State, step: Step)
    requires PeersHeard(c, s) && ThreadsOk(c, s)
    ensures PeersHeard(c, Next(c, s, step))
  {
    var u := Next(c, s, step);
    Grows(c, s, step);
    forall p | p in u.distinct
      ensures p != "" && p != c.self && exists i :: 0 <= i < |u.handled| && u.handled[i].sender == p
    {
      if p !in s.distinct {
        NewPeer(c, s, step, p);
      }
      var i :| 0 <= i < |s.handled| && s.handled[i].sender == p;
      assert u.handled[i].sender == p;
    }
  }

  lemma AckAdded(c: Config, s: State, step: Step)
    requires AckInv(s) && ThreadsOk(c, s) && step.Go? && step.t.Tcp? && s.tcp.Acking?
    ensures AckInv(Next(c, s, step))
  {
    var u := Next(c, s, step);
    assert u.handled == s.handled && (u.acks == s.acks || u.acks == s.acks + [Ack(s.tcp.n, s.tcp.e.seqNo)]);
  }

  lemma AckKept(c: Config, s: State, step: Step)
    requires AckInv(s) && ThreadsOk(c, s) && !(step.Go? && PcOf(s, step.t).Acking?)
    ensures AckInv(Next(c, s, step))
  {
    var u := Next(c, s, step);
    assert u.acks == s.acks && s.handled <= u.handled;
    assert u.tcp == s.tcp || (step.Go? && step.t.Tcp?);
  }

  lemma AckStep(c: Config, s: State, step: Step)
    requires AckInv(s) && ThreadsOk(c, s)
    ensures AckInv(Next(c, s, step))
  {
    if step.Go? && PcOf(s, step.t).Acking? {
      AckAdded(c, s, step);
    } else {
      AckKept(c, s, step);
    }
  }

  lemma InvStep(c: Config, s: State, step: Step)
    requires Inv(c, s)
    ensures Inv(c, Next(c, s, step))
  {
    PrintedStep(c, s, step);
    if c.count > 0 {
      CountStep(c, s, step);
      CappedStep(c, s, step);
    }
    if c.countDistinct > 0 {
      PeersStep(c, s, step);
    }
    ThreadsStep(c, s, step);
    HeardStep(c, s, step);
    AckStep(c, s, step);
  }

  lemma {:induction false} InvRun(c: Config, s: State, steps: seq<Step>)
    requires Inv(c, s)
    ensures Inv(c, After(c, s, steps))
    decreases steps
  {
    if steps == [] {
    } else {
      InvStep(c, s, steps[0]);
      InvRun(c, Next(c, s, steps[0]), steps[1..]);
    }
  }

  lemma StartInv(c: Config, tcp: bool, udp: bool)
    ensures Inv(c, Start(tcp, udp))
  {
  }

  lemma Reachable(c: Config, tcp: bool, udp: bool, steps: seq<Step>)
    ensures Inv(c, After(c, Start(tcp, udp), steps))
  {
    StartInv(c, tcp, udp);
    InvRun(c, Start(tcp, udp), steps);
  }

  // ---------------------------------------------------------------- the bounds

  lemma {:induction false} UnusedStays(c: Config, s: State, steps: seq<Step>)
    ensures s.tcp.Unused? ==> After(c, s, steps).tcp.Unused?
    ensures s.udp.Unused? ==> After(c, s, steps).udp.Unused?
    decreases steps
  {
    if steps == [] {
    } else {
      UnusedStays(c, Next(c, s, steps[0]), steps[1..]);
    }
  }

  /** With --count C no interleaving handles or prints more than C + 1 messages, and with one transport
      no more than C; the count stops the listener only once C were handled. */
  lemma CountBound(c: Config, tcp: bool, udp: bool, steps: seq<Step>)
    requires c.count > 0
    ensures var s := After(c, Start(tcp, udp), steps);
            && s.printed <= c.count + 1 && |s.handled| <= s.printed
            && (!(tcp && udp) ==> s.printed <= c.count)
            && (CountReached in s.stops ==> |s.handled| >= c.count)
  {
    Reachable(c, tcp, udp, steps);
    UnusedStays(c, Start(tcp, udp), steps);
  }

  lemma {:induction false} AfterAppend(c: Config, s: State, a: seq<Step>, b: seq<Step>)
    ensures After(c, s, a + b) == After(c, After(c, s, a), b)
    decreases a
  {
    if a == [] {
      assert a + b == b;
    } else {
      assert (a + b)[1..] == a[1..] + b;
      AfterAppend(c, Next(c, s, a[0]), a[1..], b);
    }
  }

  /** Both threads about to look at the stop signal, which is not set, after `n` messages. */
  predicate Between(s: State, n: nat) {
    s.tcp.Check? && s.udp.Check? && s.stops == {} && |s.handled| == s.printed == n
  }

  const TCP_STEP := Go(Tcp, None, false)

  function TcpReads(e: Msg): Step {
    Go(Tcp, Some(e), false)
  }

  lemma Three(c: Config, s: State, x: Step, y: Step, z: Step)
    ensures After(c, s, [x, y, z]) == Next(c, Next(c, Next(c, s, x), y), z)
  {
    assert [x, y, z][1..] == [y, z] && [y, z][1..] == [z];
    assert After(c, Next(c, Next(c, s, x), y), [z]) == Next(c, Next(c, Next(c, s, x), y), z);
  }

  /** The TCP thread takes one message from its arrival to the next stop check. */
  lemma TcpRound(c: Config, s: State, e: Msg) returns (steps: seq<Step>)
    requires Between(s, |s.handled|) && |s.handled| + 1 < c.count && c.countDistinct <= 0
    ensures Between(After(c, s, steps), |s.handled| + 1)
  {
    steps := [TCP_STEP, TcpReads(e), TCP_STEP] + [TCP_STEP, TCP_STEP, TCP_STEP];
    AfterAppend(c, s, [TCP_STEP, TcpReads(e), TCP_STEP], [TCP_STEP, TCP_STEP, TCP_STEP]);
    var t := With(s.(printed := s.printed + 1, handled := s.handled + [e]), Tcp, Noting(e, |s.handled| + 1));
    Three(c, s, TCP_STEP, TcpReads(e), TCP_STEP);
    assert After(c, s, [TCP_STEP, TcpReads(e), TCP_STEP]) == t;
    Three(c, t, TCP_STEP, TCP_STEP, TCP_STEP);
    assert t.stops + {} + {} == t.stops;
  }

  lemma {:induction false} TcpRounds(c: Config, e: Msg, n: nat) returns (steps: seq<Step>)
    requires n < c.count && c.countDistinct <= 0
    ensures Between(After(c, Start(true, true), steps), n)
  {
    steps := [];
    if n == 0 {
    } else {
      var before := TcpRounds(c, e, n - 1);
      var round := TcpRound(c, After(c, Start(true, true), before), e);
      AfterAppend(c, Start(true, true), before, round);
      steps := before + round;
    }
  }

  /** The bound is met for every C: each thread can read its message before the other has counted. */
  lemma CountBoundIsTight(c: Config, e: Msg) returns (steps: seq<Step>)
    requires c.count > 0 && c.countDistinct <= 0
    ensures After(c, Start(true, true), steps).printed == |After(c, Start(true, true), steps).handled| == c.count + 1
  {
    var before := TcpRounds(c, e, c.count - 1);
    var s := After(c, Start(true, true), before);
    var udpStep, udpReads := Go(Udp, None, false), Go(Udp, Some(e), false);
    var first, second := [TCP_STEP, TcpReads(e), udpStep], [udpReads, TCP_STEP, udpStep];
    Three(c, s, TCP_STEP, TcpReads(e), udpStep);
    Three(c, After(c, s, first), udpReads, TCP_STEP, udpStep);
    AfterAppend(c, s, first, second);
    AfterAppend(c, Start(true, true), before, first + second);
    steps := before + (first + second);
  }

  /** With --count-distinct N at most N + 1 peers are ever recorded, and at most N with one transport, each one
      heard and neither ourselves nor nameless; this condition stops the listener only once N distinct peers were
      heard. */
  lemma PeersBound(c: Config, tcp: bool, udp: bool, steps: seq<Step>)
    requires c.countDistinct > 0
    ensures var s := After(c, Start(tcp, udp), steps);
            && |s.distinct| <= c.countDistinct + 1 && (!(tcp && udp) ==> |s.distinct| <= c.countDistinct)
            && (forall p :: p in s.distinct ==>
                  p != "" && p != c.self && exists i :: 0 <= i < |s.handled| && s.handled[i].sender == p)
            && (PeersReached in s.stops ==> |s.distinct| >= c.countDistinct)
  {
    UnusedStays(c, Start(tcp, udp), steps);
    Reachable(c, tcp, udp, steps);
  }

  /** Both threads about to look at the stop signal, which is not set; `n` peers are recorded. */
  predicate Quiet(s: State, n: nat) {
    s.tcp.Check? && s.udp.Check? && s.stops == {} && |s.distinct| == n
  }

  /** The TCP thread hears a new peer, from its message's arrival to the next stop check. */
  lemma PeerRound(c: Config, s: State, e: Msg) returns (steps: seq<Step>)
    requires Quiet(s, |s.distinct|) && |s.distinct| + 1 < c.countDistinct && c.count <= 0
    requires Counts(c, e) && e.sender !in s.distinct
    ensures Quiet(After(c, s, steps), |s.distinct| + 1) && After(c, s, steps).distinct == s.distinct + {e.sender}
  {
    var first, second := [TCP_STEP, TcpReads(e), TCP_STEP], [TCP_STEP, TCP_STEP, TCP_STEP];
    Three(c, s, TCP_STEP, TcpReads(e), TCP_STEP);
    var t := After(c, s, first);
    Three(c, t, TCP_STEP, TCP_STEP, TCP_STEP);
    var u := After(c, t, second);
    assert u.tcp == Finishing(|t.handled|, false) && u.stops == {};
    assert After(c, u, [TCP_STEP]) == After(c, Next(c, u, TCP_STEP), []) by {
      assert [TCP_STEP][1..] == [];
    }
    AfterAppend(c, t, second, [TCP_STEP]);
    AfterAppend(c, s, first, second + [TCP_STEP]);
    steps := first + (second + [TCP_STEP]);
  }

  /** Peers that count, no two of the same name. */
  ghost predicate NewPeers(c: Config, names: seq<string>) {
    && (forall i :: 0 <= i < |names| ==> names[i] != "" && names[i] != c.self)
    && forall i, j :: 0 <= i < j < |names| ==> names[i] != names[j]
  }

  lemma {:induction false} PeerRounds(c: Config, names: seq<string>, n: nat) returns (steps: seq<Step>)
    requires NewPeers(c, names) && n <= |names| && n < c.countDistinct && c.count <= 0
    ensures var s := After(c, Start(true, true), steps);
            Quiet(s, n) && forall p :: p in s.distinct ==> p in names[..n]
  {
    if n == 0 {
      steps := [];
    } else {
      var before := PeerRounds(c, names, n - 1);
      var s := After(c, Start(true, true), before);
      assert names[n - 1] !in s.distinct;
      var round := PeerRound(c, s, Msg(names[n - 1], 0));
      AfterAppend(c, Start(true, true), before, round);
      steps := before + round;
      assert names[..n] == names[..n - 1] + [names[n - 1]];
    }
  }

  /** The TCP thread hears a new peer and records it. */
  lemma TcpRecords(c: Config, s: State, x: Msg) returns (steps: seq<Step>)
    requires Quiet(s, |s.distinct|) && c.countDistinct > 0 && Counts(c, x)
    ensures var u := After(c, s, steps);
            u.stops == {} && u.udp.Check? && u.distinct == s.distinct + {x.sender}
  {
    Three(c, s, TCP_STEP, TcpReads(x), TCP_STEP);
    var first := [TCP_STEP, TcpReads(x), TCP_STEP];
    var t := After(c, s, first);
    assert t.tcp == Noting(x, |s.handled| + 1) && t.udp == s.udp && t.stops == {} && t.distinct == s.distinct;
    assert [TCP_STEP][1..] == [];
    assert After(c, Next(c, t, TCP_STEP), []) == Next(c, t, TCP_STEP);
    AfterAppend(c, s, first, [TCP_STEP]);
    steps := first + [TCP_STEP];
  }

  /** The UDP thread hears a new peer and records it. */
  lemma UdpRecords(c: Config, s: State, y: Msg) returns (steps: seq<Step>)
    requires s.stops == {} && s.udp.Check? && c.count <= 0 && c.countDistinct > 0 && Counts(c, y)
    ensures After(c, s, steps).distinct == s.distinct + {y.sender}
  {
    var udpStep, udpReads := Go(Udp, None, false), Go(Udp, Some(y), false);
    Three(c, s, udpStep, udpReads, udpStep);
    var first := [udpStep, udpReads, udpStep];
    var t := After(c, s, first);
    assert t.udp == Capping(y, |s.handled| + 1) && t.distinct == s.distinct;
    Three(c, t, udpStep, udpStep, udpStep);
    AfterAppend(c, s, first, [udpStep, udpStep, udpStep]);
    steps := first + [udpStep, udpStep, udpStep];
  }

  /** Each thread hears a new peer before the other has compared the number of peers. */
  lemma TwoPeersAtOnce(c: Config, s: State, x: Msg, y: Msg) returns (steps: seq<Step>)
    requires Quiet(s, |s.distinct|) && c.countDistinct > 0 && c.count <= 0
    requires Counts(c, x) && Counts(c, y) && x.sender != y.sender && x.sender !in s.distinct && y.sender !in s.distinct
    ensures |After(c, s, steps).distinct| == |s.distinct| + 2
  {
    var first := TcpRecords(c, s, x);
    var second := UdpRecords(c, After(c, s, first), y);
    AfterAppend(c, s, first, second);
    steps := first + second;
  }

  /** The bound is met for every N by N + 1 peers of different names. */
  lemma PeersBoundIsTight(c: Config, names: seq<string>) returns (steps: seq<Step>)
    requires c.countDistinct > 0 && c.count <= 0 && |names| == c.countDistinct + 1
    requires forall i :: 0 <= i < |names| ==> names[i] != "" && names[i] != c.self
    requires forall i, j :: 0 <= i < j < |names| ==> names[i] != names[j]
    ensures |After(c, Start(true, true), steps).distinct| == c.countDistinct + 1
  {
    var n := c.countDistinct - 1;
    var before := PeerRounds(c, names, n);
    var s := After(c, Start(true, true), before);
    assert names[n] !in s.distinct && names[n + 1] !in s.distinct;
    var last := TwoPeersAtOnce(c, s, Msg(names[n], 0), Msg(names[n + 1], 0));
    AfterAppend(c, Start(true, true), before, last);
    steps := before + last;
  }

  /** Echoed ACKs are numbered in strictly increasing order, and number n answers the n-th message. */
  lemma AcksAnswer(c: Config, tcp: bool, udp: bool, steps: seq<Step>)
    ensures var s := After(c, Start(tcp, udp), steps);
            && (forall i, j :: 0 <= i < j < |s.acks| ==> s.acks[i].seqNo < s.acks[j].seqNo)
            && (forall i :: 0 <= i < |s.acks| ==>
                  1 <= s.acks[i].seqNo <= |s.handled| && s.acks[i].ackOf == s.handled[s.acks[i].seqNo - 1].seqNo)
  {
    Reachable(c, tcp, udp, steps);
  }

  // ---------------------------------------------------------------- every message is answered

  /** The numbers that the counter gives to the messages of the TCP thread in a run. */
  ghost function TcpNumbers(c: Config, s: State, steps: seq<Step>): seq<nat>
    decreases steps
  {
    if steps == [] then []
    else
      (if steps[0].Go? && steps[0].t.Tcp? && s.tcp.Counting? then [|s.handled| + 1] else [])
      + TcpNumbers(c, Next(c, s, steps[0]), steps[1..])
  }

  /** The numbers of the ACKs. */
  function AckNumbers(acks: seq<Ack>): seq<nat> {
    Mapped((a: Ack) => a.seqNo, acks)
  }

  /** The number of the message that is still to be answered. */
  function Unanswered(pc: Pc): seq<nat> {
    match pc
    case Capping(_, n) => [n]
    case Noting(_, n) => [n]
    case Tallying(_, n) => [n]
    case Acking(_, n, _) => [n]
    case _ => []
  }

  lemma AckedStep(c: Config, s: State, step: Step)
    requires c.echo && (step.Go? ==> step.written) && !s.udp.Acking?
    ensures var u := Next(c, s, step);
            AckNumbers(u.acks) + Unanswered(u.tcp) == AckNumbers(s.acks) + Unanswered(s.tcp)
            + (if step.Go? && step.t.Tcp? && s.tcp.Counting? then [|s.handled| + 1] else [])
  {
    if step.Go? && step.t.Tcp? && s.tcp.Acking? {
      MappedSnoc((a: Ack) => a.seqNo, s.acks, Ack(s.tcp.n, s.tcp.e.seqNo));
    }
  }

  lemma {:induction false} AckedRun(c: Config, s: State, steps: seq<Step>)
    requires c.echo && ThreadsOk(c, s) && forall i :: 0 <= i < |steps| && steps[i].Go? ==> steps[i].written
    ensures var u := After(c, s, steps);
            AckNumbers(u.acks) + Unanswered(u.tcp) == AckNumbers(s.acks) + Unanswered(s.tcp) + TcpNumbers(c, s, steps)
    decreases steps
  {
    if steps == [] {
    } else {
      var t := Next(c, s, steps[0]);
      AckedStep(c, s, steps[0]);
      ThreadsStep(c, s, steps[0]);
      AckedRun(c, t, steps[1..]);
      Associate(AckNumbers(s.acks) + Unanswered(s.tcp),
        if steps[0].Go? && steps[0].t.Tcp? && s.tcp.Counting? then [|s.handled| + 1] else [],
        TcpNumbers(c, t, steps[1..]));
    }
  }

  lemma {:induction false} SilentRun(c: Config, s: State, steps: seq<Step>)
    requires !c.echo
    ensures After(c, s, steps).acks == s.acks
    decreases steps
  {
    if steps == [] {
    } else {
      SilentRun(c, Next(c, s, steps[0]), steps[1..]);
    }
  }

  /** With --echo, if no ACK fails to be written, every message that the TCP thread has counted is answered under
      the number it was given, in order, but for the one it is working on; without --echo none is. */
  lemma AllAnswered(c: Config, tcp: bool, udp: bool, steps: seq<Step>)
    requires forall i :: 0 <= i < |steps| && steps[i].Go? ==> steps[i].written
    ensures var s := After(c, Start(tcp, udp), steps);
            if c.echo then AckNumbers(s.acks) + Unanswered(s.tcp) == TcpNumbers(c, Start(tcp, udp), steps)
            else s.acks == []
  {
    var s0 := Start(tcp, udp);
    if c.echo {
      StartInv(c, tcp, udp);
      AckedRun(c, s0, steps);
      assert AckNumbers(s0.acks) + Unanswered(s0.tcp) == [];
      assert [] + TcpNumbers(c, s0, steps) == TcpNumbers(c, s0, steps);
    } else {
      SilentRun(c, s0, steps);
    }
  }

  // ---------------------------------------------------------------- every peer is recorded

  predicate NotYetNoted(pc: Pc, n: nat) {
    (pc.Capping? || pc.Noting?) && pc.n == n
  }

  ghost predicate Recorded(c: Config, s: State) {
    forall i :: 0 <= i < |s.handled| && Counts(c, s.handled[i]) ==>
      s.handled[i].sender in s.distinct || NotYetNoted(s.tcp, i + 1) || NotYetNoted(s.udp, i + 1)
  }

  lemma RecordedStep(c: Config, s: State, step: Step)
    requires Recorded(c, s) && ThreadsOk(c, s)
    ensures Recorded(c, Next(c, s, step))
  {
    Grows(c, s, step);
  }

  lemma {:induction false} RecordedRun(c: Config, s: State, steps: seq<Step>)
    requires Recorded(c, s) && ThreadsOk(c, s)
    ensures Recorded(c, After(c, s, steps))
    decreases steps
  {
    if steps == [] {
    } else {
      RecordedStep(c, s, steps[0]);
      ThreadsStep(c, s, steps[0]);
      RecordedRun(c, Next(c, s, steps[0]), steps[1..]);
    }
  }

  /** With --count-distinct every sender heard, but ourselves and the nameless, is recorded as soon as no thread is
      still at work on its message before recording it. */
  lemma AllRecorded(c: Config, tcp: bool, udp: bool, steps: seq<Step>)
    requires c.countDistinct > 0
    ensures var s := After(c, Start(tcp, udp), steps);
            forall i :: 0 <= i < |s.handled| && s.handled[i].sender != "" && s.handled[i].sender != c.self ==>
              || s.handled[i].sender in s.distinct
              || ((s.tcp.Capping? || s.tcp.Noting?) && s.tcp.n == i + 1)
              || ((s.udp.Capping? || s.udp.Noting?) && s.udp.n == i + 1)
  {
    StartInv(c, tcp, udp);
    RecordedRun(c, Start(tcp, udp), steps);
  }
}
