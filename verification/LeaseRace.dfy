/**
  The race the stress gate runs: agents each make one acquire attempt at the same time, none crashes
  and no lease they write goes stale meanwhile. On a free resource exactly one wins, whatever the
  interleaving; on an expired lease exactly one wins if any of them ever gets the exclusive handle, which
  plain reads, by the racers or by others, can prevent.
  */
module LeaseRace {
  import opened Wrappers
  import opened LeaseProtocol
  import opened LeaseSafety

  /** A reader that does not race. */
  predicate Shows(pc: Pc) {
    ((pc.Looking? || pc.Reading?) && pc.why.ToShow?) || pc.Exited?
  }

  /** One attempt an agent; agents that do not race may read the file to show it. */
  predicate RaceEvent(s: State, racers: set<Agent>, e: Event) {
    match e
    case Tick(_) => true
    case Die(_) => true
    case BeginAcquire(a, _, _) => a in racers && PcOf(s, a).Idle?
    case BeginShow(a) => a !in racers
    case Advance(a, _) => a in racers || Shows(PcOf(s, a))
    case _ => false
  }

  /** The lease an attempt is going to publish. */
  function Draft(pc: Pc): Option<Lease> {
    if Exclusive(pc) || pc.Creating? || pc.Checking? || pc.Opening? then Some(pc.draft)
    else if (pc.Looking? || pc.Reading?) && pc.why.ToAcquire? then Some(pc.why.draft)
    else None
  }

  /** No lease of a running or finished attempt has expired or lost its process. */
  ghost predicate Lasting(s: State) {
    forall a :: (Draft(PcOf(s, a)).Some? ==> !Stale(s, Draft(PcOf(s, a)).value))
      && (a in s.grants ==> !Stale(s, s.grants[a]))
  }

  ghost predicate Race(s: State, racers: set<Agent>, es: seq<Event>)
    decreases es
  {
    && Lasting(s)
    && (es == [] || (Enabled(s, es[0]) && RaceEvent(s, racers, es[0]) && Race(Next(s, es[0]), racers, es[1..])))
  }

  ghost predicate AtStart(s: State) {
    s.handle == None && s.grants == map[] && forall a :: PcOf(s, a).Idle?
  }

  ghost predicate Finished(s: State, racers: set<Agent>) {
    forall a :: a in racers ==> PcOf(s, a).Done?
  }

  ghost predicate OneWinner(s: State, racers: set<Agent>, how: AcquireResult, winner: Agent) {
    && winner in racers && PcOf(s, winner) == Done(how)
    && winner in s.grants && s.file == Present(Whole(s.grants[winner]))
    && forall a :: a in racers && a != winner ==> PcOf(s, a) == Done(Held) && a !in s.grants
  }

  lemma {:induction false} RaceIsRun(s: State, racers: set<Agent>, es: seq<Event>)
    requires Race(s, racers, es)
    ensures Valid(s, es) && AcquireOnly(es)
    decreases es
  {
    if es == [] {
    } else {
      RaceIsRun(Next(s, es[0]), racers, es[1..]);
      assert es == [es[0]] + es[1..];
    }
  }

  lemma RaceKeepsInv(s: State, racers: set<Agent>, es: seq<Event>)
    requires AtStart(s) && Race(s, racers, es)
    ensures Inv(After(s, es))
  {
    RaceIsRun(s, racers, es);
    forall a ensures AtRest(PcOf(s, a)) && !GivingBack(PcOf(s, a)) {
      assert PcOf(s, a).Idle?;
    }
    InitInv(s);
    AcquiresAreHarmless(s, es);
    InvRun(s, es);
  }

  // ---------------------------------------------------------------- a free resource

  predicate FreeBeforePc(pc: Pc) {
    pc.Idle? || pc.Creating? || Shows(pc)
  }

  /** Nobody has created the file yet. */
  ghost predicate FreeBefore(s: State) {
    s.file == Absent && s.handle == None && s.grants == map[] && forall a :: FreeBeforePc(PcOf(s, a))
  }

  predicate FreeLoserPc(pc: Pc, lease: Lease) {
    match pc
    case Idle => true
    case Creating(_) => true
    case Looking(why) => why.ToAcquire? || why.ToShow?
    case Reading(why, content) => why.ToShow? || (why.ToAcquire? && content == Whole(lease))
    case Checking(_, seen) => seen == lease
    case Done(result) => result == Held
    case Exited(_) => true
    case _ => false
  }

  /** `w` created the file and publishes, or has published, `lease`. */
  ghost predicate FreeAfter(s: State, racers: set<Agent>, w: Agent, lease: Lease) {
    && w in racers
    && (match PcOf(s, w)
        case CreateWriting(draft) => draft == lease && s.handle == Some(w) && s.file == Present(Torn) && w !in s.grants
        case CreateClosing(draft) => draft == lease && s.handle == Some(w) && s.file == Present(Whole(lease))
          && w !in s.grants
        case Done(Acquired) =>
          s.handle == None && s.file == Present(Whole(lease)) && w in s.grants && s.grants[w] == lease
        case _ => false)
    && forall b :: b != w ==> FreeLoserPc(PcOf(s, b), lease) && b !in s.grants
  }

  predicate Creates(s: State, e: Event) {
    e.Advance? && PcOf(s, e.agent).Creating?
  }

  lemma FreeBeforeStep(s: State, racers: set<Agent>, e: Event)
    requires FreeBefore(s) && Enabled(s, e) && RaceEvent(s, racers, e)
    ensures FreeBefore(Next(s, e)) || (Creates(s, e) && FreeAfter(Next(s, e), racers, e.agent, PcOf(s, e.agent).draft))
  {
    var t := Next(s, e);
    forall b ensures FreeBeforePc(PcOf(t, b)) || (Creates(s, e) && b == e.agent) {
      assert FreeBeforePc(PcOf(s, b));
    }
    if e.Advance? {
      assert FreeBeforePc(PcOf(s, e.agent));
    }
  }

  lemma FreeAfterStep(s: State, racers: set<Agent>, w: Agent, lease: Lease, e: Event)
    requires FreeAfter(s, racers, w, lease) && Lasting(s) && Enabled(s, e) && RaceEvent(s, racers, e)
    ensures FreeAfter(Next(s, e), racers, w, lease)
  {
    var t := Next(s, e);
    assert !Stale(s, lease);
    forall b | b != w ensures FreeLoserPc(PcOf(t, b), lease) && b !in t.grants {
      assert FreeLoserPc(PcOf(s, b), lease);
    }
    if e.Advance? && e.agent != w {
      assert FreeLoserPc(PcOf(s, e.agent), lease);
    }
  }

  lemma {:induction false} FreeAfterRun(s: State, racers: set<Agent>, w: Agent, lease: Lease, es: seq<Event>)
    requires FreeAfter(s, racers, w, lease) && Race(s, racers, es)
    ensures FreeAfter(After(s, es), racers, w, lease)
    decreases es
  {
    if es == [] {
    } else {
      FreeAfterStep(s, racers, w, lease, es[0]);
      FreeAfterRun(Next(s, es[0]), racers, w, lease, es[1..]);
    }
  }

  lemma {:induction false} FreeRun(s: State, racers: set<Agent>, es: seq<Event>)
    requires FreeBefore(s) && Race(s, racers, es)
    ensures FreeBefore(After(s, es)) || exists w, lease :: FreeAfter(After(s, es), racers, w, lease)
    decreases es
  {
    if es == [] {
    } else {
      var e, t := es[0], Next(s, es[0]);
      FreeBeforeStep(s, racers, e);
      if FreeBefore(t) {
        FreeRun(t, racers, es[1..]);
      } else {
        FreeAfterRun(t, racers, e.agent, PcOf(s, e.agent).draft, es[1..]);
      }
    }
  }

  /** On a free resource exactly one attempt succeeds, its lease is in the file, and all others report Held. */
  lemma FreeRaceHasOneWinner(s: State, racers: set<Agent>, es: seq<Event>) returns (winner: Agent)
    requires AtStart(s) && s.file == Absent && racers != {}
    requires Race(s, racers, es) && Finished(After(s, es), racers)
    ensures var t := After(s, es);
            && winner in racers && PcOf(t, winner) == Done(Acquired)
            && winner in t.grants && t.grants[winner].holder == winner && t.file == Present(Whole(t.grants[winner]))
            && forall a :: a in racers && a != winner ==> PcOf(t, a) == Done(Held) && a !in t.grants
  {
    RaceKeepsInv(s, racers, es);
    forall a ensures FreeBeforePc(PcOf(s, a)) {
      assert PcOf(s, a).Idle?;
    }
    FreeRun(s, racers, es);
    var t := After(s, es);
    var some :| some in racers;
    assert PcOf(t, some).Done?;
    assert !FreeBeforePc(PcOf(t, some));
    var w, lease :| FreeAfter(t, racers, w, lease);
    winner := w;
    assert PcOf(t, w).Done?;
    forall a | a in racers && a != w ensures PcOf(t, a) == Done(Held) && a !in t.grants {
      assert PcOf(t, a).Done?;
      assert FreeLoserPc(PcOf(t, a), lease);
    }
    assert AgentOk(t, w);
  }

  // ---------------------------------------------------------------- a lease left behind

  /** An agent gets the exclusive handle: it opens the file while nobody has it open. */
  predicate TakesHandle(s: State, e: Event) {
    e.Advance? && PcOf(s, e.agent).Opening? && s.file.Present? && Unlocked(s)
  }

  ghost predicate SomeoneOpens(s: State, es: seq<Event>)
    decreases es
  {
    es != [] && (TakesHandle(s, es[0]) || SomeoneOpens(Next(s, es[0]), es[1..]))
  }

  /** An agent that has the handle judges the lease it read again, by what its own probe reports, to be stale. */
  predicate JudgesStale(s: State, e: Event) {
    && e.Advance? && PcOf(s, e.agent).Deciding?
    && var content := PcOf(s, e.agent).content;
    content.Whole? ==> IsStale(content.lease, s.now, e.known, s.machine)
  }

  ghost predicate SomeoneJudges(s: State, es: seq<Event>)
    decreases es
  {
    es != [] && (JudgesStale(s, es[0]) || SomeoneJudges(Next(s, es[0]), es[1..]))
  }

  predicate BeforePc(pc: Pc, left: Lease) {
    match pc
    case Idle => true
    case Creating(_) => true
    case Looking(why) => !why.ToRelease? && !why.ToRenew?
    case Reading(why, content) => !why.ToRelease? && !why.ToRenew? && content == Whole(left)
    case Checking(_, seen) => seen == left
    case Opening(_) => true
    case Done(result) => result == Held
    case Exited(_) => true
    case _ => false
  }

  /** Where an agent may stand before that: on its way, given up, or inside the file, which holds `old`. */
  predicate BeforeOk(s: State, a: Agent, left: Lease) {
    match PcOf(s, a)
    case Rereading(_) => s.handle == Some(a)
    case Deciding(_, content) => s.handle == Some(a) && content == Whole(left)
    case pc => s.handle != Some(a) && BeforePc(pc, left)
  }

  /** The file still holds the lease the racers found. */
  ghost predicate Before(s: State, left: Lease) {
    s.file == Present(Whole(left)) && s.grants == map[] && forall a :: BeforeOk(s, a, left)
  }

  /** `w` overwrites, or has overwritten, the old lease with `lease`. */
  predicate ThiefOk(s: State, w: Agent, lease: Lease) {
    match PcOf(s, w)
    case Truncating(draft) => draft == lease && s.handle == Some(w) && s.file.Present? && w !in s.grants
    case Rewriting(draft) => draft == lease && s.handle == Some(w) && s.file == Present(Torn) && w !in s.grants
    case ReclaimClosing(draft) => draft == lease && s.handle == Some(w) && s.file == Present(Whole(lease))
      && w !in s.grants
    case Done(Stolen) => s.file == Present(Whole(lease)) && w in s.grants && s.grants[w] == lease
    case _ => false
  }

  /** A loser is still on its way, has given up, or holds the handle only to find `lease` in the file. */
  predicate LoserPc(pc: Pc, handle: Option<Agent>, left: Lease, b: Agent, lease: Lease, published: bool) {
    match pc
    case Idle => true
    case Creating(_) => true
    case Looking(why) => !why.ToRelease? && !why.ToRenew?
    case Reading(why, content) => !why.ToRelease? && !why.ToRenew?
      && (content == Whole(left) || content == Whole(lease) || content.Torn?)
    case Checking(_, seen) => seen == left || seen == lease
    case Opening(_) => true
    case Rereading(_) => published && handle == Some(b)
    case Deciding(_, content) => published && handle == Some(b) && content == Whole(lease)
    case Done(result) => result == Held
    case Exited(_) => true
    case _ => false
  }

  predicate LoserOk(s: State, left: Lease, b: Agent, w: Agent, lease: Lease) {
    LoserPc(PcOf(s, b), s.handle, left, b, lease, PcOf(s, w).Done?) && b !in s.grants
  }

  ghost predicate AfterTheft(s: State, racers: set<Agent>, left: Lease, w: Agent, lease: Lease) {
    w in racers && ThiefOk(s, w, lease) && forall b :: b != w ==> LoserOk(s, left, b, w, lease)
  }

  lemma BeforeOther(s: State, left: Lease, e: Event, b: Agent)
    requires Before(s, left) && Enabled(s, e) && e.Advance? && e.agent != b
    ensures BeforeOk(Next(s, e), b, left)
  {
    assert BeforeOk(s, e.agent, left) && BeforeOk(s, b, left);
    OnlyOwn(s, e.agent, e.known, b);
  }

  lemma BeforeOwn(s: State, left: Lease, e: Event)
    requires Before(s, left) && Enabled(s, e) && e.Advance? && !JudgesStale(s, e)
    ensures var t := Next(s, e); BeforeOk(t, e.agent, left) && t.file == s.file && t.grants == map[]
  {
    assert BeforeOk(s, e.agent, left);
  }

  lemma BeforeStep(s: State, racers: set<Agent>, left: Lease, e: Event)
    requires Before(s, left) && Enabled(s, e) && RaceEvent(s, racers, e) && !JudgesStale(s, e)
    ensures Before(Next(s, e), left)
  {
    var t := Next(s, e);
    if e.Advance? {
      BeforeOwn(s, left, e);
      forall b | b != e.agent ensures BeforeOk(t, b, left) {
        BeforeOther(s, left, e, b);
      }
    } else {
      forall b ensures BeforeOk(t, b, left) {
        assert BeforeOk(s, b, left);
      }
    }
  }

  lemma TheftBegins(s: State, racers: set<Agent>, left: Lease, e: Event)
    requires Before(s, left) && Enabled(s, e) && RaceEvent(s, racers, e) && JudgesStale(s, e)
    ensures AfterTheft(Next(s, e), racers, left, e.agent, PcOf(s, e.agent).draft)
  {
    var t := Next(s, e);
    assert BeforeOk(s, e.agent, left);
    forall b | b != e.agent ensures LoserOk(t, left, b, e.agent, PcOf(s, e.agent).draft) {
      assert BeforeOk(s, b, left);
    }
  }

  lemma ThiefStep(s: State, racers: set<Agent>, left: Lease, w: Agent, lease: Lease, e: Event)
    requires AfterTheft(s, racers, left, w, lease) && Lasting(s) && Enabled(s, e) && RaceEvent(s, racers, e)
    ensures ThiefOk(Next(s, e), w, lease)
  {
    if e.Advance? && e.agent != w {
      OnlyOwn(s, e.agent, e.known, w);
      assert LoserOk(s, left, e.agent, w, lease);
    }
  }

  lemma LoserMoves(s: State, racers: set<Agent>, left: Lease, w: Agent, lease: Lease, b: Agent, known: set<int>)
    requires AfterTheft(s, racers, left, w, lease) && Lasting(s) && b != w && known <= s.dead
    ensures LoserOk(Micro(s, b, known), left, b, w, lease)
  {
    OnlyOwn(s, b, known, w);
    assert LoserOk(s, left, b, w, lease);
    assert PcOf(s, w).Done? ==> !Stale(s, lease);
  }

  lemma OtherMoves(s: State, racers: set<Agent>, left: Lease, w: Agent, lease: Lease, e: Event, b: Agent)
    requires AfterTheft(s, racers, left, w, lease) && Enabled(s, e) && e.Advance? && e.agent != b && b != w
    ensures LoserOk(Next(s, e), left, b, w, lease)
  {
    OnlyOwn(s, e.agent, e.known, b);
    assert LoserOk(s, left, b, w, lease);
    if e.agent != w {
      OnlyOwn(s, e.agent, e.known, w);
      assert LoserOk(s, left, e.agent, w, lease);
    }
  }

  lemma TheftStep(s: State, racers: set<Agent>, left: Lease, w: Agent, lease: Lease, e: Event)
    requires AfterTheft(s, racers, left, w, lease) && Lasting(s) && Enabled(s, e) && RaceEvent(s, racers, e)
    ensures AfterTheft(Next(s, e), racers, left, w, lease)
  {
    var t := Next(s, e);
    ThiefStep(s, racers, left, w, lease, e);
    forall b | b != w ensures LoserOk(t, left, b, w, lease) {
      if !e.Advance? {
        assert LoserOk(s, left, b, w, lease);
      } else if e.agent == b {
        LoserMoves(s, racers, left, w, lease, b, e.known);
      } else {
        OtherMoves(s, racers, left, w, lease, e, b);
      }
    }
  }

  lemma {:induction false} TheftRun(s: State, racers: set<Agent>, left: Lease, w: Agent, lease: Lease, es: seq<Event>)
    requires AfterTheft(s, racers, left, w, lease) && Race(s, racers, es)
    ensures AfterTheft(After(s, es), racers, left, w, lease)
    decreases es
  {
    if es == [] {
    } else {
      TheftStep(s, racers, left, w, lease, es[0]);
      TheftRun(Next(s, es[0]), racers, left, w, lease, es[1..]);
    }
  }

  lemma {:induction false} OldRun(s: State, racers: set<Agent>, left: Lease, es: seq<Event>)
    returns (w: Agent, lease: Lease)
    requires Before(s, left) && Race(s, racers, es)
    ensures if SomeoneJudges(s, es) then AfterTheft(After(s, es), racers, left, w, lease)
            else Before(After(s, es), left)
    decreases es
  {
    w, lease := "", left;
    if es == [] {
    } else {
      var e, t := es[0], Next(s, es[0]);
      if JudgesStale(s, e) {
        TheftBegins(s, racers, left, e);
        w, lease := e.agent, PcOf(s, e.agent).draft;
        TheftRun(t, racers, left, w, lease, es[1..]);
      } else {
        BeforeStep(s, racers, left, e);
        w, lease := OldRun(t, racers, left, es[1..]);
      }
    }
  }

  lemma BeforeAtStart(s: State, left: Lease)
    requires AtStart(s) && s.file == Present(Whole(left))
    ensures Before(s, left)
  {
    forall a ensures BeforeOk(s, a, left) {
      assert PcOf(s, a).Idle?;
    }
  }

  /** Exactly one attempt stole the lease, and all others reported Held. */
  ghost predicate OneThief(s: State, racers: set<Agent>) {
    exists w :: OneWinner(s, racers, Stolen, w)
  }

  /** All attempts reported Held, and nothing has changed. */
  ghost predicate NoThief(s: State, racers: set<Agent>, left: Lease) {
    s.file == Present(Whole(left)) && s.grants == map[] && forall a :: a in racers ==> PcOf(s, a) == Done(Held)
  }

  lemma ThiefWins(t: State, racers: set<Agent>, left: Lease, w: Agent, lease: Lease)
    requires AfterTheft(t, racers, left, w, lease) && Finished(t, racers)
    ensures OneThief(t, racers)
  {
    assert PcOf(t, w).Done?;
    forall a | a in racers && a != w ensures PcOf(t, a) == Done(Held) && a !in t.grants {
      assert PcOf(t, a).Done?;
      assert LoserOk(t, left, a, w, lease);
    }
    assert OneWinner(t, racers, Stolen, w);
  }

  lemma NobodyWins(t: State, racers: set<Agent>, left: Lease)
    requires Before(t, left) && Finished(t, racers)
    ensures !OneThief(t, racers) && NoThief(t, racers, left)
  {
    forall a | a in racers ensures PcOf(t, a) == Done(Held) {
      assert BeforeOk(t, a, left);
    }
  }

  /** Over any lease left in the file, whatever reads are under way and whatever each probe reports: exactly one
      attempt steals it and all others report Held if some attempt, having the handle, judges it stale, and
      otherwise all report Held and nothing has changed. */
  lemma RaceExactly(s: State, racers: set<Agent>, left: Lease, es: seq<Event>)
    requires AtStart(s) && s.file == Present(Whole(left))
    requires Race(s, racers, es) && Finished(After(s, es), racers)
    ensures OneThief(After(s, es), racers) <==> SomeoneJudges(s, es)
    ensures !SomeoneJudges(s, es) ==>
              && After(s, es).file == s.file && After(s, es).grants == map[]
              && forall a :: a in racers ==> PcOf(After(s, es), a) == Done(Held)
  {
    BeforeAtStart(s, left);
    var w, lease := OldRun(s, racers, left, es);
    if SomeoneJudges(s, es) {
      ThiefWins(After(s, es), racers, left, w, lease);
    } else {
      NobodyWins(After(s, es), racers, left);
    }
  }

  // ---------------------------------------------------------------- a lease all agree to be stale

  /** Every agent that looks at the lease finds it stale: it has expired, or each probe reports its pid dead. */
  ghost predicate SeenStale(s: State, es: seq<Event>, left: Lease)
    decreases es
  {
    es == [] ||
    ((es[0].Advance? ==> IsStale(left, s.now, es[0].known, s.machine)) && SeenStale(Next(s, es[0]), es[1..], left))
  }

  lemma {:induction false} ExpiredIsSeen(s: State, racers: set<Agent>, es: seq<Event>, expired: Lease)
    requires s.now >= expired.expiresAt && Race(s, racers, es)
    ensures SeenStale(s, es, expired)
    decreases es
  {
    if es == [] {
    } else {
      assert Next(s, es[0]).now >= s.now;
      ExpiredIsSeen(Next(s, es[0]), racers, es[1..], expired);
    }
  }

  /** Nobody has opened the file yet. */
  ghost predicate Unopened(s: State, left: Lease) {
    Before(s, left) && s.handle.None?
  }

  lemma UnopenedStep(s: State, racers: set<Agent>, left: Lease, e: Event)
    requires Unopened(s, left) && Enabled(s, e) && RaceEvent(s, racers, e)
    ensures !JudgesStale(s, e) && Before(Next(s, e), left)
    ensures Next(s, e).handle == if TakesHandle(s, e) then Some(e.agent) else None
  {
    assert e.Advance? ==> BeforeOk(s, e.agent, left);
    BeforeStep(s, racers, left, e);
  }

  lemma HolderStays(s: State, racers: set<Agent>, left: Lease, w: Agent, e: Event)
    requires Before(s, left) && s.handle == Some(w) && Enabled(s, e) && RaceEvent(s, racers, e) && !JudgesStale(s, e)
    requires e.Advance? ==> IsStale(left, s.now, e.known, s.machine)
    ensures Before(Next(s, e), left) && Next(s, e).handle == Some(w)
  {
    assert BeforeOk(s, w, left);
    assert e.Advance? ==> BeforeOk(s, e.agent, left);
    BeforeStep(s, racers, left, e);
  }

  /** An agent that has the handle keeps it until it judges the lease; if it finds it stale, that is the theft. */
  lemma {:induction false} HolderJudges(s: State, racers: set<Agent>, left: Lease, w: Agent, es: seq<Event>)
    requires Before(s, left) && s.handle == Some(w) && Race(s, racers, es) && SeenStale(s, es, left)
    requires PcOf(After(s, es), w).Done?
    ensures SomeoneJudges(s, es)
    decreases es
  {
    assert BeforeOk(s, w, left);
    if es != [] && !JudgesStale(s, es[0]) {
      HolderStays(s, racers, left, w, es[0]);
      HolderJudges(Next(s, es[0]), racers, left, w, es[1..]);
    }
  }

  /** If all agree, the first to open the file is the thief. */
  lemma {:induction false} OpenersJudge(s: State, racers: set<Agent>, left: Lease, es: seq<Event>)
    requires Unopened(s, left) && Race(s, racers, es) && SeenStale(s, es, left) && Finished(After(s, es), racers)
    ensures SomeoneJudges(s, es) <==> SomeoneOpens(s, es)
    decreases es
  {
    if es == [] {
    } else {
      var e, t := es[0], Next(s, es[0]);
      UnopenedStep(s, racers, left, e);
      if !TakesHandle(s, e) {
        OpenersJudge(t, racers, left, es[1..]);
      } else {
        HolderJudges(t, racers, left, e.agent, es[1..]);
      }
    }
  }

  /** Over a lease that all agree to be stale, whatever reads are under way: exactly one attempt steals it and all
      others report Held if some attempt gets the exclusive handle, and otherwise all report Held and nothing
      has changed. */
  lemma StaleRaceExactly(s: State, racers: set<Agent>, left: Lease, es: seq<Event>)
    requires AtStart(s) && s.file == Present(Whole(left)) && SeenStale(s, es, left)
    requires Race(s, racers, es) && Finished(After(s, es), racers)
    ensures OneThief(After(s, es), racers) <==> SomeoneOpens(s, es)
    ensures !SomeoneOpens(s, es) ==>
              && After(s, es).file == s.file && After(s, es).grants == map[]
              && forall a :: a in racers ==> PcOf(After(s, es), a) == Done(Held)
  {
    BeforeAtStart(s, left);
    OpenersJudge(s, racers, left, es);
    RaceExactly(s, racers, left, es);
  }

  // ---------------------------------------------------------------- readers out of the way

  /** An agent goes to open the file while another is inside a plain read. */
  predicate Refused(s: State, e: Event) {
    e.Advance? && PcOf(s, e.agent).Opening? && BeingRead(s)
  }

  /** Nobody is inside a plain read whenever an agent goes to open the file; so it is, in particular, if plain
      reads take no time. */
  ghost predicate NoReaderInTheWay(s: State, es: seq<Event>)
    decreases es
  {
    es == [] || (!Refused(s, es[0]) && NoReaderInTheWay(Next(s, es[0]), es[1..]))
  }

  predicate Pending(pc: Pc) {
    !pc.Done? && !((pc.Looking? || pc.Reading?) && pc.why.ToName?)
  }

  /** Nobody has been turned away. */
  ghost predicate Unrefused(s: State) {
    forall a :: Pending(PcOf(s, a))
  }

  lemma UnrefusedStep(s: State, racers: set<Agent>, left: Lease, e: Event)
    requires Unopened(s, left) && Unrefused(s) && Enabled(s, e) && RaceEvent(s, racers, e) && !TakesHandle(s, e)
    requires !Refused(s, e) && (e.Advance? ==> IsStale(left, s.now, e.known, s.machine))
    ensures Unrefused(Next(s, e))
  {
    forall a ensures Pending(PcOf(Next(s, e), a)) {
      assert Pending(PcOf(s, a)) && BeforeOk(s, a, left);
    }
  }

  lemma {:induction false} UnrefusedRun(s: State, racers: set<Agent>, left: Lease, es: seq<Event>)
    requires Unopened(s, left) && Unrefused(s) && Race(s, racers, es) && SeenStale(s, es, left)
    requires NoReaderInTheWay(s, es) && !SomeoneOpens(s, es)
    ensures Unrefused(After(s, es))
    decreases es
  {
    if es == [] {
    } else {
      UnopenedStep(s, racers, left, es[0]);
      UnrefusedStep(s, racers, left, es[0]);
      UnrefusedRun(Next(s, es[0]), racers, left, es[1..]);
    }
  }

  lemma NoneFinished(s: State, racers: set<Agent>)
    requires Unrefused(s) && racers != {}
    ensures !Finished(s, racers)
  {
    var some :| some in racers;
    assert Pending(PcOf(s, some));
  }

  /** Over a lease that all agree to be stale, with no reader in the way of an open, exactly one attempt steals it
      and all others report Held. */
  lemma StaleRaceHasOneThief(s: State, racers: set<Agent>, left: Lease, es: seq<Event>) returns (winner: Agent)
    requires AtStart(s) && s.file == Present(Whole(left)) && SeenStale(s, es, left) && racers != {}
    requires Race(s, racers, es) && Finished(After(s, es), racers) && NoReaderInTheWay(s, es)
    ensures var t := After(s, es);
            && winner in racers && PcOf(t, winner) == Done(Stolen)
            && winner in t.grants && t.grants[winner].holder == winner && t.file == Present(Whole(t.grants[winner]))
            && forall a :: a in racers && a != winner ==> PcOf(t, a) == Done(Held) && a !in t.grants
  {
    RaceKeepsInv(s, racers, es);
    BeforeAtStart(s, left);
    if !SomeoneOpens(s, es) {
      forall a ensures Pending(PcOf(s, a)) {
        assert PcOf(s, a).Idle?;
      }
      UnrefusedRun(s, racers, left, es);
      NoneFinished(After(s, es), racers);
    }
    StaleRaceExactly(s, racers, left, es);
    winner :| OneWinner(After(s, es), racers, Stolen, winner);
    assert AgentOk(After(s, es), winner);
  }

  // ---------------------------------------------------------------- readers in the way

  lemma {:induction false} RaceConcat(s: State, racers: set<Agent>, es: seq<Event>, more: seq<Event>)
    requires Valid(s, es) && Race(s, racers, es) && Race(After(s, es), racers, more)
    ensures Race(s, racers, es + more)
    decreases es
  {
    if es == [] {
      assert es + more == more;
    } else {
      assert (es + more)[1..] == es[1..] + more;
      RaceConcat(Next(s, es[0]), racers, es[1..], more);
    }
  }

  predicate GoodNow(s: State, lease: Lease) {
    lease.pid == 0 && lease.expiresAt > s.now
  }

  predicate FreshAgent(s: State, a: Agent) {
    && (Draft(PcOf(s, a)).Some? ==> GoodNow(s, Draft(PcOf(s, a)).value)) && !GivingBack(PcOf(s, a))
    && (a in s.grants ==> GoodNow(s, s.grants[a]))
  }

  /** Every lease about was made just now, for no process in particular. */
  ghost predicate Fresh(s: State) {
    forall a :: FreshAgent(s, a)
  }

  lemma FreshLasts(s: State)
    requires Fresh(s)
    ensures Lasting(s)
  {
    forall a
      ensures Draft(PcOf(s, a)).Some? ==> !Stale(s, Draft(PcOf(s, a)).value)
      ensures a in s.grants ==> !Stale(s, s.grants[a])
    {
      assert FreshAgent(s, a);
    }
  }

  lemma FreshMicro(s: State, a: Agent, known: set<int>)
    requires Fresh(s)
    ensures FreshAgent(Micro(s, a, known), a)
  {
    assert FreshAgent(s, a);
  }

  lemma FreshStep(s: State, a: Agent, known: set<int>)
    requires Fresh(s)
    ensures Fresh(Micro(s, a, known))
  {
    var t := Micro(s, a, known);
    FreshMicro(s, a, known);
    forall b | b != a ensures FreshAgent(t, b) {
      assert FreshAgent(s, b);
      OnlyOwn(s, a, known, b);
    }
  }

  lemma {:induction false} FreshSteps(s: State, racers: set<Agent>, a: Agent, n: nat, known: set<int>)
    requires Fresh(s) && a in racers && Busy(s, a, n, known)
    ensures Race(s, racers, Steps(a, n, known)) && Fresh(Stepped(s, a, n, known))
    decreases n
  {
    FreshLasts(s);
    FreshStep(s, a, known);
    if n == 0 {
    } else {
      FreshSteps(Micro(s, a, known), racers, a, n - 1, known);
      assert Steps(a, n, known)[1..] == Steps(a, n - 1, known);
    }
  }

  /** The run so far, from the start to `now`. */
  ghost predicate Reached(s: State, racers: set<Agent>, es: seq<Event>, now: State) {
    Valid(s, es) && Race(s, racers, es) && After(s, es) == now && Fresh(now)
  }

  /** `n` further steps of `a`. */
  lemma ReachSteps(s: State, racers: set<Agent>, es: seq<Event>, now: State, a: Agent, n: nat)
    returns (more: seq<Event>)
    requires Reached(s, racers, es, now) && a in racers && Busy(now, a, n, {})
    ensures Reached(s, racers, more, Stepped(now, a, n, {}))
  {
    FreshSteps(now, racers, a, n, {});
    StepsRun(now, a, n, {});
    AfterConcat(s, es, Steps(a, n, {}));
    RaceConcat(s, racers, es, Steps(a, n, {}));
    more := es + Steps(a, n, {});
  }

  lemma ReachBegin(s: State, racers: set<Agent>, es: seq<Event>, now: State, a: Agent, ttl: int)
    returns (more: seq<Event>)
    requires Reached(s, racers, es, now) && a in racers && PcOf(now, a).Idle?
    ensures Reached(s, racers, more, Next(now, BeginAcquire(a, ttl, 0)))
  {
    var e := BeginAcquire(a, ttl, 0);
    var t := Next(now, e);
    forall b ensures FreshAgent(t, b) {
      assert FreshAgent(now, b);
    }
    FreshLasts(t);
    FreshLasts(now);
    assert Race(t, racers, []) && [e][1..] == [];
    AfterConcat(s, es, [e]);
    RaceConcat(s, racers, es, [e]);
    more := es + [e];
  }

  /** The resource as the racers find it. */
  predicate Found(s: State, expired: Lease) {
    s.file == Present(Whole(expired)) && s.handle == None && s.now >= expired.expiresAt
  }

  /** An attempt up to its exclusive open. */
  lemma BeginsAndOpens(s: State, racers: set<Agent>, es: seq<Event>, now: State, a: Agent, ttl: int, expired: Lease)
    returns (more: seq<Event>)
    requires Reached(s, racers, es, now) && a in racers && PcOf(now, a).Idle? && Found(now, expired)
    ensures Reached(s, racers, more, Go(now, a, Opening(Lease(a, 0, now.machine, Expiry(now.now, ttl)))))
  {
    var draft := Lease(a, 0, now.machine, Expiry(now.now, ttl));
    more := ReachBegin(s, racers, es, now, a, ttl);
    var t := Next(now, BeginAcquire(a, ttl, 0));
    FindStale(t, a, draft, expired, {});
    more := ReachSteps(s, racers, more, t, a, 4);
    Back(now, a, Creating(draft), Opening(draft));
  }

  /** An attempt up to the middle of its plain read. */
  lemma BeginsAndReads(s: State, racers: set<Agent>, es: seq<Event>, now: State, a: Agent, ttl: int, expired: Lease)
    returns (more: seq<Event>)
    requires Reached(s, racers, es, now) && a in racers && PcOf(now, a).Idle? && Found(now, expired)
    ensures var draft := Lease(a, 0, now.machine, Expiry(now.now, ttl));
            Reached(s, racers, more, Go(now, a, Reading(ToAcquire(draft), Whole(expired))))
  {
    var draft := Lease(a, 0, now.machine, Expiry(now.now, ttl));
    more := ReachBegin(s, racers, es, now, a, ttl);
    var t := Next(now, BeginAcquire(a, ttl, 0));
    OneStep(t, a, {});
    StepMore(t, a, 1, {});
    Back(t, a, Looking(ToAcquire(draft)), Reading(ToAcquire(draft), Whole(expired)));
    more := ReachSteps(s, racers, more, t, a, 2);
    Back(now, a, Creating(draft), Reading(ToAcquire(draft), Whole(expired)));
  }

  /** From there to its exclusive open. */
  lemma GoesToOpen(s: State, racers: set<Agent>, es: seq<Event>, now: State, a: Agent, draft: Lease, expired: Lease)
    returns (more: seq<Event>)
    requires Reached(s, racers, es, now) && a in racers && Found(now, expired)
    requires PcOf(now, a) == Reading(ToAcquire(draft), Whole(expired))
    ensures Reached(s, racers, more, Go(now, a, Opening(draft)))
  {
    OneStep(now, a, {});
    StepMore(now, a, 1, {});
    Back(now, a, Checking(draft, expired), Opening(draft));
    more := ReachSteps(s, racers, es, now, a, 2);
  }

  /** Refused because `b` is inside a read, `a` opens the file again to read who holds it. */
  lemma IsRefused(s: State, racers: set<Agent>, es: seq<Event>, now: State, a: Agent, b: Agent, draft: Lease,
        expired: Lease)
    returns (more: seq<Event>)
    requires Reached(s, racers, es, now) && a in racers && Found(now, expired)
    requires PcOf(now, a) == Opening(draft) && PcOf(now, b).Reading?
    ensures Reached(s, racers, more, Go(now, a, Reading(ToName, Whole(expired))))
  {
    assert b in now.pc && now.pc[b].Reading?;
    OneStep(now, a, {});
    StepMore(now, a, 1, {});
    Back(now, a, Looking(ToName), Reading(ToName, Whole(expired)));
    more := ReachSteps(s, racers, es, now, a, 2);
  }

  lemma Names(s: State, racers: set<Agent>, es: seq<Event>, now: State, a: Agent, content: Content)
    returns (more: seq<Event>)
    requires Reached(s, racers, es, now) && a in racers && PcOf(now, a) == Reading(ToName, content)
    ensures Reached(s, racers, more, Go(now, a, Done(Held)))
  {
    OneStep(now, a, {});
    more := ReachSteps(s, racers, es, now, a, 1);
  }

  /** The state `s` but for where two agents stand. */
  function Two(s: State, a: Agent, x: Pc, b: Agent, y: Pc): State {
    s.(pc := s.pc[a := x][b := y])
  }

  lemma TwoGo(s: State, a: Agent, x: Pc, b: Agent, y: Pc, z: Pc)
    requires a != b
    ensures Go(Two(s, a, x, b, y), a, z) == Two(s, a, z, b, y) && Go(Two(s, a, x, b, y), b, z) == Two(s, a, x, b, z)
  {
    assert s.pc[a := x][b := y][a := z] == s.pc[a := z][b := y];
  }

  /** Both begin; `a` goes to open the file while `b` reads it, is refused, and reads the holder's name. */
  lemma FirstRefusal(s: State, a: Agent, b: Agent, ttl: int, expired: Lease) returns (es: seq<Event>)
    requires AtStart(s) && Found(s, expired) && a != b
    ensures var other := Lease(b, 0, s.machine, Expiry(s.now, ttl));
            Reached(s, {a, b}, es, Two(s, a, Reading(ToName, Whole(expired)), b,
              Reading(ToAcquire(other), Whole(expired))))
  {
    var mine, other := Lease(a, 0, s.machine, Expiry(s.now, ttl)), Lease(b, 0, s.machine, Expiry(s.now, ttl));
    assert PcOf(s, a).Idle? && PcOf(s, b).Idle?;
    assert Fresh(s) by {
      forall x ensures FreshAgent(s, x) {
        assert PcOf(s, x).Idle?;
      }
    }
    FreshLasts(s);
    es := BeginsAndOpens(s, {a, b}, [], s, a, ttl, expired);
    var t := Go(s, a, Opening(mine));
    es := BeginsAndReads(s, {a, b}, es, t, b, ttl, expired);
    var reading := Reading(ToAcquire(other), Whole(expired));
    es := IsRefused(s, {a, b}, es, Two(s, a, Opening(mine), b, reading), a, b, mine, expired);
    TwoGo(s, a, Opening(mine), b, reading, Reading(ToName, Whole(expired)));
  }

  /** That no reader be in the way is needed: in this race of two, each goes to open the file while the other is
      inside a read, the second time the one that only names the holder, and the expired lease has no thief. */
  lemma ReadersCanHideTheThief(s: State, a: Agent, b: Agent, ttl: int, expired: Lease) returns (es: seq<Event>)
    requires AtStart(s) && Found(s, expired) && a != b
    ensures Valid(s, es) && Race(s, {a, b}, es) && Finished(After(s, es), {a, b})
    ensures After(s, es).file == s.file && After(s, es).grants == map[]
    ensures forall x :: x in {a, b} ==> PcOf(After(s, es), x) == Done(Held)
  {
    var other, naming := Lease(b, 0, s.machine, Expiry(s.now, ttl)), Reading(ToName, Whole(expired));
    es := FirstRefusal(s, a, b, ttl, expired);
    var reading := Reading(ToAcquire(other), Whole(expired));
    es := GoesToOpen(s, {a, b}, es, Two(s, a, naming, b, reading), b, other, expired);
    TwoGo(s, a, naming, b, reading, Opening(other));
    es := IsRefused(s, {a, b}, es, Two(s, a, naming, b, Opening(other)), b, a, other, expired);
    TwoGo(s, a, naming, b, Opening(other), naming);
    es := Names(s, {a, b}, es, Two(s, a, naming, b, naming), a, Whole(expired));
    TwoGo(s, a, naming, b, naming, Done(Held));
    es := Names(s, {a, b}, es, Two(s, a, Done(Held), b, naming), b, Whole(expired));
    TwoGo(s, a, Done(Held), b, naming, Done(Held));
  }

  // ---------------------------------------------------------------- attempts end

  /** Steps an attempt still takes at most. */
  function Left(pc: Pc): nat {
    match pc
    case Idle => 10
    case Creating(_) => 10
    case CreateWriting(_) => 2
    case CreateClosing(_) => 1
    case Looking(why) => if why.ToAcquire? then 9 else 2
    case Reading(why, _) => if why.ToAcquire? then 8 else 1
    case Checking(_, _) => 7
    case Opening(_) => 6
    case Rereading(_) => 5
    case Deciding(_, _) => 4
    case Truncating(_) => 3
    case Rewriting(_) => 2
    case ReclaimClosing(_) => 1
    case _ => 0
  }

  /** An attempt stands at no step of another command. */
  predicate Attempts(pc: Pc) {
    !GivingBack(pc) && !Shows(pc)
  }

  function StepsOf(es: seq<Event>, a: Agent): nat {
    if es == [] then 0 else (if es[0].Advance? && es[0].agent == a then 1 else 0) + StepsOf(es[1..], a)
  }

  lemma LeftMicro(s: State, a: Agent, known: set<int>)
    requires Attempts(PcOf(s, a)) && !AtRest(PcOf(s, a))
    ensures Attempts(PcOf(Micro(s, a, known), a)) && Left(PcOf(Micro(s, a, known), a)) < Left(PcOf(s, a))
  {
  }

  lemma LeftStep(s: State, racers: set<Agent>, a: Agent, e: Event)
    requires a in racers && Attempts(PcOf(s, a)) && Enabled(s, e) && RaceEvent(s, racers, e)
    ensures Attempts(PcOf(Next(s, e), a))
    ensures Left(PcOf(Next(s, e), a)) + (if e.Advance? && e.agent == a then 1 else 0) <= Left(PcOf(s, a))
  {
    if e.Advance? && e.agent == a {
      LeftMicro(s, a, e.known);
    } else if e.Advance? {
      assert PcOf(Micro(s, e.agent, e.known), a) == PcOf(s, a);
    }
  }

  lemma {:induction false} LeftRun(s: State, racers: set<Agent>, a: Agent, es: seq<Event>)
    requires a in racers && Attempts(PcOf(s, a)) && Race(s, racers, es)
    ensures Attempts(PcOf(After(s, es), a)) && StepsOf(es, a) + Left(PcOf(After(s, es), a)) <= Left(PcOf(s, a))
    decreases es
  {
    if es == [] {
    } else {
      LeftStep(s, racers, a, es[0]);
      LeftRun(Next(s, es[0]), racers, a, es[1..]);
    }
  }

  /** `a`, one of the racers, can begin its attempt or take the next step of it. */
  ghost predicate CanGoOn(s: State, racers: set<Agent>, a: Agent) {
    exists e: Event :: (e.Advance? || e.BeginAcquire?) && e.agent == a && Enabled(s, e) && RaceEvent(s, racers, e)
  }

  /** Every attempt ends: no racer takes more than ten steps in any race, and a race in which no racer can go on
      is finished, and the other way round. So it is enough that all agents keep stepping. */
  lemma RacesEnd(s: State, racers: set<Agent>, es: seq<Event>)
    requires AtStart(s) && Race(s, racers, es)
    ensures forall a :: a in racers ==> StepsOf(es, a) <= 10
    ensures Finished(After(s, es), racers) <==> forall a :: a in racers ==> !CanGoOn(After(s, es), racers, a)
  {
    var t := After(s, es);
    forall a | a in racers ensures StepsOf(es, a) <= 10 && (PcOf(t, a).Done? <==> !CanGoOn(t, racers, a)) {
      assert PcOf(s, a).Idle?;
      LeftRun(s, racers, a, es);
      if PcOf(t, a).Idle? {
        assert Enabled(t, BeginAcquire(a, 1, 0)) && RaceEvent(t, racers, BeginAcquire(a, 1, 0));
      } else if !PcOf(t, a).Done? {
        assert Enabled(t, Advance(a, {})) && RaceEvent(t, racers, Advance(a, {}));
      }
    }
  }
}
