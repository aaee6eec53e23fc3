/**
  The cross-process lease on one resource, as a step machine.

  Any number of agents share one lease file. Every open, read, decision, truncation, write, close,
  delete and rename is a step of its own, so any other agent's step may fall between two of them,
  and an agent may crash before any of them. A handle opened with FileShare.None keeps every other
  agent from opening, reading, deleting or renaming over the file; a plain read keeps every other agent
  from opening it exclusively, deleting it or renaming over it until the read is over.
  */
module LeaseProtocol {
  import opened Wrappers

  type Agent = string

  datatype Lease = Lease(holder: Agent, pid: int, host: string, expiresAt: int)

  /** What the file's text deserializes to: nothing, or a lease. */
  datatype Content = Torn | Whole(lease: Lease)

  datatype File = Absent | Present(content: Content)

  datatype AcquireResult = Acquired | Held | Stolen

  /** What a plain read of the file is for. */
  datatype Purpose = ToAcquire(draft: Lease) | ToName | ToRelease | ToRenew(ttl: int) | ToShow

  /** Where an agent stands in the command it is running. `draft` is the lease it wants to publish. */
  datatype Pc =
    // at rest
    | Idle
    | Done(result: AcquireResult)
    | Exited(code: int)
    // Read: about to open the file, and inside it with what it holds
    | Looking(why: Purpose)
    | Reading(why: Purpose, content: Content)
    // TryCreate
    | Creating(draft: Lease)
    | CreateWriting(draft: Lease)
    | CreateClosing(draft: Lease)
    // TryAcquireOnce after a failed create and a read
    | Checking(draft: Lease, seen: Lease)
    // TryReclaimInPlace
    | Opening(draft: Lease)
    | Rereading(draft: Lease)
    | Deciding(draft: Lease, content: Content)
    | Truncating(draft: Lease)
    | Rewriting(draft: Lease)
    | ReclaimClosing(draft: Lease)
    // Release
    | Deleting(seen: Lease)
    // Renew
    | Stamping(seen: Lease, ttl: int)
    | Renaming(seen: Lease, renewed: Lease)

  /** `grants` maps an agent to the lease it was last told it holds and has not given back. */
  datatype State = State(
    machine: string,
    now: int,
    dead: set<int>,
    file: File,
    handle: Option<Agent>,
    pc: map<Agent, Pc>,
    grants: map<Agent, Lease>)

  /** `known` in Advance holds the pids whose liveness probe reports them dead. A probe that fails
      for want of permission counts its pid as alive, so `known` may be any part of the dead pids. */
  datatype Event =
    | Tick(now: int)
    | Die(pid: int)
    | Crash(agent: Agent)
    | BeginAcquire(agent: Agent, ttl: int, pid: int)
    | BeginRelease(agent: Agent)
    | BeginRenew(agent: Agent, ttl: int)
    | BeginShow(agent: Agent)
    | Advance(agent: Agent, known: set<int>)

  // ---------------------------------------------------------------- staleness

  function UpperAscii(c: char): char {
    if 'a' <= c <= 'z' then ((c as int) - 32) as char else c
  }

  function Fold(name: string): string {
    seq(|name|, i requires 0 <= i < |name| => UpperAscii(name[i]))
  }

  predicate IsStale(lease: Lease, now: int, known: set<int>, machine: string) {
    || now >= lease.expiresAt
    || (lease.pid > 0 && Fold(lease.host) == Fold(machine) && lease.pid in known)
  }

  predicate Stale(s: State, lease: Lease) {
    IsStale(lease, s.now, s.dead, s.machine)
  }

  // ---------------------------------------------------------------- steps

  function PcOf(s: State, a: Agent): Pc {
    if a in s.pc then s.pc[a] else Idle
  }

  function Go(s: State, a: Agent, pc: Pc): State {
    s.(pc := s.pc[a := pc])
  }

  predicate AtRest(pc: Pc) {
    pc.Idle? || pc.Done? || pc.Exited?
  }

  /** The program points at which an agent holds the exclusive handle. */
  predicate Exclusive(pc: Pc) {
    || pc.CreateWriting? || pc.CreateClosing?
    || pc.Rereading? || pc.Deciding? || pc.Truncating? || pc.Rewriting? || pc.ReclaimClosing?
  }

  function Expiry(now: int, ttl: int): int {
    now + 1000 * (if ttl > 1 then ttl else 1)
  }

  /** Some agent is inside a plain read. */
  predicate BeingRead(s: State) {
    exists a :: a in s.pc && s.pc[a].Reading?
  }

  /** Nobody has the file open: it can be opened exclusively, deleted or renamed over. */
  predicate Unlocked(s: State) {
    s.handle.None? && !BeingRead(s)
  }

  function ContentOf(file: File): Content {
    if file.Present? then file.content else Torn
  }

  /** What agent `a` does once its plain read is over; a file it could not open reads as torn. */
  function AfterRead(s: State, a: Agent, why: Purpose, content: Content): State {
    match why
    case ToAcquire(draft) => Go(s, a, if content.Torn? then Done(Held) else Checking(draft, content.lease))
    case ToName => Go(s, a, Done(Held))
    case ToShow => Go(s, a, Exited(0))
    case ToRelease =>
      if content.Torn? then Go(s.(grants := s.grants - {a}), a, Exited(0))
      else Go(s, a, if content.lease.holder != a then Exited(6) else Deleting(content.lease))
    case ToRenew(ttl) =>
      Go(s, a, if content.Torn? then Exited(5)
               else if content.lease.holder != a then Exited(6)
               else Stamping(content.lease, ttl))
  }

  /** The next step of the command agent `a` is running. */
  function Micro(s: State, a: Agent, known: set<int>): State {
    match PcOf(s, a)
    case Looking(why) =>
      if s.handle.None? && s.file.Present? then Go(s, a, Reading(why, s.file.content)) else AfterRead(s, a, why, Torn)
    case Reading(why, content) => AfterRead(s, a, why, content)
    case Creating(draft) =>
      if s.file.Absent? then Go(s.(file := Present(Torn), handle := Some(a)), a, CreateWriting(draft))
      else Go(s, a, Looking(ToAcquire(draft)))
    case CreateWriting(draft) => Go(s.(file := Present(Whole(draft))), a, CreateClosing(draft))
    case CreateClosing(draft) => Go(s.(handle := None, grants := s.grants[a := draft]), a, Done(Acquired))
    case Checking(draft, seen) =>
      Go(s, a, if IsStale(seen, s.now, known, s.machine) then Opening(draft) else Done(Held))
    case Opening(draft) =>
      if s.file.Present? && Unlocked(s) then Go(s.(handle := Some(a)), a, Rereading(draft))
      else Go(s, a, Looking(ToName))
    case Rereading(draft) => Go(s, a, Deciding(draft, ContentOf(s.file)))
    case Deciding(draft, content) =>
      if content.Whole? && !IsStale(content.lease, s.now, known, s.machine)
      then Go(s.(handle := None), a, Looking(ToName))
      else Go(s, a, Truncating(draft))
    case Truncating(draft) => Go(s.(file := Present(Torn)), a, Rewriting(draft))
    case Rewriting(draft) => Go(s.(file := Present(Whole(draft))), a, ReclaimClosing(draft))
    case ReclaimClosing(draft) => Go(s.(handle := None, grants := s.grants[a := draft]), a, Done(Stolen))
    case Deleting(_) =>
      Go(s.(file := if Unlocked(s) then Absent else s.file, grants := s.grants - {a}), a, Exited(0))
    case Stamping(seen, ttl) => Go(s, a, Renaming(seen, seen.(expiresAt := Expiry(s.now, ttl))))
    case Renaming(_, renewed) =>
      if Unlocked(s)
      then Go(s.(file := Present(Whole(renewed)), grants := s.grants[a := renewed]), a, Exited(0))
      else Go(s, a, Idle)
    case _ => s
  }

  predicate Enabled(s: State, e: Event) {
    match e
    case Tick(now) => now >= s.now
    case Die(_) => true
    case Crash(_) => true
    case Advance(a, known) => !AtRest(PcOf(s, a)) && known <= s.dead
    case _ => AtRest(PcOf(s, e.agent))
  }

  function Next(s: State, e: Event): State {
    match e
    case Tick(now) => s.(now := now)
    case Die(pid) => s.(dead := s.dead + {pid})
    case Crash(a) => Go(s.(handle := if s.handle == Some(a) then None else s.handle), a, Idle)
    case BeginAcquire(a, ttl, pid) => Go(s, a, Creating(Lease(a, pid, s.machine, Expiry(s.now, ttl))))
    case BeginRelease(a) => Go(s, a, Looking(ToRelease))
    case BeginRenew(a, ttl) => Go(s, a, Looking(ToRenew(ttl)))
    case BeginShow(a) => Go(s, a, Looking(ToShow))
    case Advance(a, known) => Micro(s, a, known)
  }

  ghost predicate Valid(s: State, es: seq<Event>)
    decreases es
  {
    es == [] || (Enabled(s, es[0]) && Valid(Next(s, es[0]), es[1..]))
  }

  ghost function After(s: State, es: seq<Event>): State
    decreases es
  {
    if es == [] then s else After(Next(s, es[0]), es[1..])
  }

  /** A resource nobody is working on: the file may be absent, torn or hold anybody's old lease. */
  ghost predicate Init(s: State) {
    s.handle == None && s.grants == map[] && forall a :: AtRest(PcOf(s, a))
  }

  // ---------------------------------------------------------------- the property

  /** No two agents hold granted leases that are both still good. */
  ghost predicate MutuallyExclusive(s: State) {
    forall a, b :: a in s.grants && b in s.grants && a != b ==> Stale(s, s.grants[a]) || Stale(s, s.grants[b])
  }

  /** The step deletes the file or renames over it, and nobody has it open. */
  predicate Lands(s: State, e: Event) {
    e.Advance? && Unlocked(s) && (PcOf(s, e.agent).Renaming? || (PcOf(s, e.agent).Deleting? && s.file.Present?))
  }

  /** `b` holds `lease`, or has read it for a release or renewal it is about to make. */
  predicate Relies(s: State, b: Agent, lease: Lease) {
    || (b in s.grants && s.grants[b] == lease)
    || match PcOf(s, b) {
         case Deleting(seen) => seen == lease
         case Stamping(seen, _) => seen == lease
         case Renaming(seen, _) => seen == lease
         case _ => false
       }
  }

  /** A delete or rename lands on a good lease that another agent relies on. */
  predicate Harm(s: State, e: Event) {
    && Lands(s, e) && s.file.Present? && s.file.content.Whole? && !Stale(s, s.file.content.lease)
    && exists b :: b in s.grants.Keys + s.pc.Keys && b != e.agent && Relies(s, b, s.file.content.lease)
  }

  ghost predicate HarmlessRun(s: State, es: seq<Event>)
    decreases es
  {
    es == [] || (!Harm(s, es[0]) && HarmlessRun(Next(s, es[0]), es[1..]))
  }

  /** A delete or rename that lands does so while the lease its agent read is still good. */
  predicate Timely(s: State, e: Event) {
    Lands(s, e) ==> !Stale(s, PcOf(s, e.agent).seen)
  }

  ghost predicate TimelyRun(s: State, es: seq<Event>)
    decreases es
  {
    es == [] || (Timely(s, es[0]) && TimelyRun(Next(s, es[0]), es[1..]))
  }

  // ---------------------------------------------------------------- the invariant

  /** `lease` is `a`'s own, and unless it has gone stale it is what the file holds. */
  predicate Relied(s: State, a: Agent, lease: Lease) {
    lease.holder == a && (Stale(s, lease) || s.file == Present(Whole(lease)))
  }

  predicate PcOk(s: State, a: Agent, pc: Pc) {
    match pc
    case Looking(why) => why.ToAcquire? ==> why.draft.holder == a
    case Reading(why, content) => (why.ToAcquire? ==> why.draft.holder == a) && s.handle.None?
      && s.file == Present(content)
    case Creating(draft) => draft.holder == a
    case CreateWriting(draft) => draft.holder == a && s.file == Present(Torn)
    case CreateClosing(draft) => draft.holder == a && s.file == Present(Whole(draft))
    case Checking(draft, _) => draft.holder == a
    case Opening(draft) => draft.holder == a
    case Rereading(draft) => draft.holder == a && s.file.Present?
    case Deciding(draft, content) => draft.holder == a && s.file == Present(content)
    case Truncating(draft) =>
      draft.holder == a && s.file.Present? && (s.file.content.Whole? ==> Stale(s, s.file.content.lease))
    case Rewriting(draft) => draft.holder == a && s.file == Present(Torn)
    case ReclaimClosing(draft) => draft.holder == a && s.file == Present(Whole(draft))
    case Deleting(seen) => Relied(s, a, seen)
    case Stamping(seen, _) => Relied(s, a, seen)
    case Renaming(seen, renewed) => Relied(s, a, seen) && renewed == seen.(expiresAt := renewed.expiresAt)
    case _ => true
  }

  /** Only the owner of the handle is inside the file, and what an agent relies on is there. */
  ghost predicate AgentOk(s: State, a: Agent) {
    && (Exclusive(PcOf(s, a)) <==> s.handle == Some(a))
    && PcOk(s, a, PcOf(s, a))
    && (a in s.grants ==> Relied(s, a, s.grants[a]))
  }

  ghost predicate Inv(s: State) {
    forall a :: AgentOk(s, a)
  }

  /** The same letter, whatever its case, or the same character. */
  predicate SameLetter(c: char, d: char) {
    || c == d
    || ('a' <= c <= 'z' && d as int + 32 == c as int)
    || ('a' <= d <= 'z' && c as int + 32 == d as int)
  }

  lemma FoldMeans(a: string, b: string)
    ensures Fold(a) == Fold(b) <==> |a| == |b| && forall i :: 0 <= i < |a| ==> SameLetter(a[i], b[i])
  {
    assert |Fold(a)| == |a| && |Fold(b)| == |b|;
    if |a| == |b| {
      forall i | 0 <= i < |a| ensures Fold(a)[i] == Fold(b)[i] <==> SameLetter(a[i], b[i]) {
        assert Fold(a)[i] == UpperAscii(a[i]) && Fold(b)[i] == UpperAscii(b[i]);
      }
    }
  }

  /** A lease is stale from its expiry on, and before that exactly if its process is known dead on this very
      machine; a lease that names no process lasts until its expiry. */
  lemma StaleMeans(lease: Lease, now: int, known: set<int>, machine: string)
    ensures now >= lease.expiresAt ==> IsStale(lease, now, known, machine)
    ensures now < lease.expiresAt ==>
              (IsStale(lease, now, known, machine) <==>
                && lease.pid > 0 && lease.pid in known && |lease.host| == |machine|
                && forall i :: 0 <= i < |machine| ==> SameLetter(lease.host[i], machine[i]))
  {
    FoldMeans(lease.host, machine);
  }

  /** A stale lease stays stale, whatever anybody does. */
  lemma StaleForever(s: State, e: Event, lease: Lease)
    requires Enabled(s, e) && Stale(s, lease)
    ensures Stale(Next(s, e), lease)
  {
  }

  // ---------------------------------------------------------------- what a step does to its own agent

  predicate GivingBack(pc: Pc) {
    || pc.Deleting? || pc.Stamping? || pc.Renaming?
    || ((pc.Looking? || pc.Reading?) && (pc.why.ToRelease? || pc.why.ToRenew?))
  }

  lemma ReaderOk(s: State, a: Agent, known: set<int>)
    requires AgentOk(s, a) && (PcOf(s, a).Looking? || PcOf(s, a).Reading?)
    ensures AgentOk(Micro(s, a, known), a)
  {
  }

  lemma GiverOk(s: State, a: Agent, known: set<int>)
    requires AgentOk(s, a) && (PcOf(s, a).Deleting? || PcOf(s, a).Stamping? || PcOf(s, a).Renaming?)
    ensures AgentOk(Micro(s, a, known), a)
  {
  }

  lemma AcquirerOk(s: State, a: Agent, known: set<int>)
    requires AgentOk(s, a) && !GivingBack(PcOf(s, a)) && !AtRest(PcOf(s, a)) && known <= s.dead
    requires !PcOf(s, a).Looking? && !PcOf(s, a).Reading?
    requires PcOf(s, a).Creating? && s.file.Absent? ==> s.handle.None?
    ensures AgentOk(Micro(s, a, known), a)
  {
  }

  lemma StarterOk(s: State, e: Event)
    requires !e.Tick? && !e.Die? && !e.Advance? && AgentOk(s, e.agent) && Enabled(s, e)
    ensures AgentOk(Next(s, e), e.agent)
  {
  }

  lemma HandleHasFile(s: State)
    requires Inv(s) && s.handle.Some?
    ensures s.file.Present?
  {
    assert AgentOk(s, s.handle.value);
  }

  lemma ActorOk(s: State, e: Event)
    requires Inv(s) && Enabled(s, e) && !e.Tick? && !e.Die?
    ensures AgentOk(Next(s, e), e.agent)
  {
    assert AgentOk(s, e.agent);
    if !e.Advance? {
      StarterOk(s, e);
    } else if PcOf(s, e.agent).Looking? || PcOf(s, e.agent).Reading? {
      ReaderOk(s, e.agent, e.known);
    } else if GivingBack(PcOf(s, e.agent)) {
      GiverOk(s, e.agent, e.known);
    } else {
      if s.handle.Some? {
        HandleHasFile(s);
      }
      AcquirerOk(s, e.agent, e.known);
    }
  }

  // ---------------------------------------------------------------- what a step does to the others

  /** No step moves another agent, or gives or takes what it was granted. */
  lemma OnlyOwn(s: State, a: Agent, known: set<int>, b: Agent)
    requires a != b
    ensures var t := Micro(s, a, known);
            && PcOf(t, b) == PcOf(s, b) && t.machine == s.machine && t.now == s.now && t.dead == s.dead
            && (b in t.grants <==> b in s.grants) && (b in s.grants ==> t.grants[b] == s.grants[b])
  {
  }

  /** A step that leaves the file and all that is `b`'s alone. */
  lemma LeftAlone(s: State, e: Event, b: Agent)
    requires AgentOk(s, b) && Enabled(s, e)
    requires var t := Next(s, e);
             && PcOf(t, b) == PcOf(s, b) && (t.handle == Some(b) <==> s.handle == Some(b)) && t.file == s.file
             && (PcOf(s, b).Reading? ==> t.handle.None?)
             && (b in t.grants <==> b in s.grants) && (b in s.grants ==> t.grants[b] == s.grants[b])
    ensures AgentOk(Next(s, e), b)
  {
    forall lease | Stale(s, lease) ensures Stale(Next(s, e), lease) {
      StaleForever(s, e, lease);
    }
  }

  /** The file is written only while nobody else is inside it and it holds no good lease. */
  lemma OtherOfWriter(s: State, a: Agent, known: set<int>, b: Agent)
    requires AgentOk(s, a) && AgentOk(s, b) && a != b
    requires PcOf(s, a).CreateWriting? || PcOf(s, a).Truncating? || PcOf(s, a).Rewriting?
             || (PcOf(s, a).Creating? && s.file.Absent?)
    ensures AgentOk(Micro(s, a, known), b)
  {
  }

  /** A delete or rename that lands takes away what `b` relies on exactly if it does harm to `b`. */
  lemma OtherOfLanding(s: State, e: Event, b: Agent)
    requires Lands(s, e) && AgentOk(s, e.agent) && AgentOk(s, b) && e.agent != b && Enabled(s, e)
    ensures AgentOk(Next(s, e), b) <==>
            !(s.file.Present? && s.file.content.Whole? && !Stale(s, s.file.content.lease)
              && Relies(s, b, s.file.content.lease))
  {
    assert PcOf(s, b).Reading? ==> b in s.pc;
  }

  lemma OtherOk(s: State, e: Event, b: Agent)
    requires Inv(s) && Enabled(s, e) && !Lands(s, e)
    requires e.Tick? || e.Die? || e.agent != b
    ensures AgentOk(Next(s, e), b)
  {
    assert AgentOk(s, b);
    if e.Advance? {
      var pc := PcOf(s, e.agent);
      assert AgentOk(s, e.agent);
      if pc.CreateWriting? || pc.Truncating? || pc.Rewriting? || (pc.Creating? && s.file.Absent?) {
        OtherOfWriter(s, e.agent, e.known, b);
      } else {
        assert PcOf(s, b).Reading? ==> b in s.pc;
        LeftAlone(s, e, b);
      }
    } else {
      LeftAlone(s, e, b);
    }
  }

  /** A step of any agent keeps the invariant exactly if it is not a delete or rename that lands on a good
      lease another agent relies on. */
  lemma InvStep(s: State, e: Event)
    requires Inv(s) && Enabled(s, e)
    ensures Inv(Next(s, e)) <==> !Harm(s, e)
  {
    if Lands(s, e) {
      forall b | b != e.agent
        ensures AgentOk(Next(s, e), b) <==>
                !(s.file.Present? && s.file.content.Whole? && !Stale(s, s.file.content.lease)
                  && Relies(s, b, s.file.content.lease))
      {
        assert AgentOk(s, e.agent) && AgentOk(s, b);
        OtherOfLanding(s, e, b);
        assert s.file.Present? && s.file.content.Whole? && Relies(s, b, s.file.content.lease)
               ==> b in s.grants.Keys + s.pc.Keys;
      }
      ActorOk(s, e);
    } else {
      forall b ensures AgentOk(Next(s, e), b) {
        if e.Tick? || e.Die? || e.agent != b {
          OtherOk(s, e, b);
        } else {
          ActorOk(s, e);
        }
      }
    }
  }

  /** A delete or rename in good time does no harm: the good lease in the file is its agent's own. */
  lemma TimelyIsHarmless(s: State, e: Event)
    requires Inv(s) && Enabled(s, e) && (Lands(s, e) ==> !Stale(s, PcOf(s, e.agent).seen))
    ensures !Harm(s, e)
  {
    if Lands(s, e) {
      assert AgentOk(s, e.agent);
      forall b | b != e.agent && s.file == Present(Whole(PcOf(s, e.agent).seen))
        ensures !Relies(s, b, PcOf(s, e.agent).seen)
      {
        assert AgentOk(s, b);
      }
    }
  }
}
