/**
  Safety over whole runs of the lease protocol: at most one good granted lease at any time, what exactly
  that rests on, how it fails when a release or renewal does harm, and the file that stays held for ever.
  */
module LeaseSafety {
  import opened Wrappers
  import opened LeaseProtocol

  // ---------------------------------------------------------------- runs

  lemma {:induction false} InvRun(s: State, es: seq<Event>)
    requires Inv(s) && Valid(s, es) && HarmlessRun(s, es)
    ensures Inv(After(s, es))
    decreases es
  {
    if es == [] {
    } else {
      InvStep(s, es[0]);
      InvRun(Next(s, es[0]), es[1..]);
    }
  }

  lemma InitInv(s: State)
    requires Init(s)
    ensures Inv(s)
  {
    forall a ensures AgentOk(s, a) {
      assert AtRest(PcOf(s, a));
    }
  }

  lemma ExclusionFromInv(s: State)
    requires Inv(s)
    ensures MutuallyExclusive(s)
  {
    forall a, b | a in s.grants && b in s.grants && a != b
      ensures Stale(s, s.grants[a]) || Stale(s, s.grants[b])
    {
      assert AgentOk(s, a) && AgentOk(s, b);
    }
  }

  /** Any mixture of acquires, releases, renewals, readers and crashes is safe while no delete or rename
      lands on a good lease that another agent relies on. */
  lemma ExclusionWhenHarmless(s: State, es: seq<Event>)
    requires Init(s) && Valid(s, es) && HarmlessRun(s, es)
    ensures MutuallyExclusive(After(s, es))
  {
    InitInv(s);
    InvRun(s, es);
    ExclusionFromInv(After(s, es));
  }

  lemma {:induction false} TimelyRunIsHarmless(s: State, es: seq<Event>)
    requires Inv(s) && Valid(s, es) && TimelyRun(s, es)
    ensures HarmlessRun(s, es)
    decreases es
  {
    if es == [] {
    } else {
      TimelyIsHarmless(s, es[0]);
      InvStep(s, es[0]);
      TimelyRunIsHarmless(Next(s, es[0]), es[1..]);
    }
  }

  /** That is so, in particular, while releases and renewals take effect before the lease they read goes stale. */
  lemma ExclusionWhenTimely(s: State, es: seq<Event>)
    requires Init(s) && Valid(s, es) && TimelyRun(s, es)
    ensures MutuallyExclusive(After(s, es))
  {
    InitInv(s);
    TimelyRunIsHarmless(s, es);
    ExclusionWhenHarmless(s, es);
  }

  // ---------------------------------------------------------------- acquires only

  predicate AcquireOnly(es: seq<Event>) {
    forall i :: 0 <= i < |es| ==> !es[i].BeginRelease? && !es[i].BeginRenew?
  }

  ghost predicate NobodyGivesBack(s: State) {
    forall a :: !GivingBack(PcOf(s, a))
  }

  lemma {:induction false} AcquiresAreHarmless(s: State, es: seq<Event>)
    requires NobodyGivesBack(s) && Valid(s, es) && AcquireOnly(es)
    ensures HarmlessRun(s, es)
    decreases es
  {
    if es == [] {
    } else {
      forall a ensures !GivingBack(PcOf(Next(s, es[0]), a)) {
        assert !GivingBack(PcOf(s, a));
      }
      AcquiresAreHarmless(Next(s, es[0]), es[1..]);
    }
  }

  /** Acquire attempts alone, with crashes anywhere, need no condition at all. */
  lemma ExclusionOfAcquires(s: State, es: seq<Event>)
    requires Init(s) && Valid(s, es) && AcquireOnly(es)
    ensures MutuallyExclusive(After(s, es))
  {
    forall a ensures !GivingBack(PcOf(s, a)) {
      assert AtRest(PcOf(s, a));
    }
    AcquiresAreHarmless(s, es);
    ExclusionWhenHarmless(s, es);
  }

  /** A delete or rename that lands while the lease its agent read is good finds exactly that lease, which is
      the agent's own, and no other agent holds a good lease then. */
  lemma LandsOnOwnLease(s: State, es: seq<Event>, e: Event)
    requires Init(s) && Valid(s, es) && HarmlessRun(s, es)
    requires Lands(After(s, es), e) && !Stale(After(s, es), PcOf(After(s, es), e.agent).seen)
    ensures var t := After(s, es); var seen := PcOf(t, e.agent).seen;
            && t.file == Present(Whole(seen)) && seen.holder == e.agent
            && forall b :: b in t.grants && b != e.agent ==> Stale(t, t.grants[b])
  {
    InitInv(s);
    InvRun(s, es);
    var t := After(s, es);
    assert AgentOk(t, e.agent);
    forall b | b in t.grants && b != e.agent ensures Stale(t, t.grants[b]) {
      assert AgentOk(t, b);
    }
  }

  // ---------------------------------------------------------------- putting runs together

  lemma AfterCons(s: State, e: Event, es: seq<Event>)
    requires Enabled(s, e) && Valid(Next(s, e), es)
    ensures Valid(s, [e] + es) && After(s, [e] + es) == After(Next(s, e), es)
  {
    assert ([e] + es)[1..] == es;
  }

  lemma {:induction false} AfterConcat(s: State, es: seq<Event>, more: seq<Event>)
    requires Valid(s, es) && Valid(After(s, es), more)
    ensures Valid(s, es + more) && After(s, es + more) == After(After(s, es), more)
    decreases es
  {
    if es == [] {
      assert es + more == more;
    } else {
      AfterConcat(Next(s, es[0]), es[1..], more);
      assert (es + more)[1..] == es[1..] + more;
    }
  }

  /** `n` undisturbed steps of one agent, which takes the pids of `known` for dead. */
  function Steps(a: Agent, n: nat, known: set<int>): seq<Event> {
    seq(n, _ => Advance(a, known))
  }

  ghost function Stepped(s: State, a: Agent, n: nat, known: set<int>): State
    decreases n
  {
    if n == 0 then s else Stepped(Micro(s, a, known), a, n - 1, known)
  }

  ghost predicate Busy(s: State, a: Agent, n: nat, known: set<int>)
    decreases n
  {
    n == 0 || (!AtRest(PcOf(s, a)) && known <= s.dead && Busy(Micro(s, a, known), a, n - 1, known))
  }

  lemma {:induction false} StepsRun(s: State, a: Agent, n: nat, known: set<int>)
    requires Busy(s, a, n, known)
    ensures Valid(s, Steps(a, n, known)) && After(s, Steps(a, n, known)) == Stepped(s, a, n, known)
    decreases n
  {
    if n == 0 {
    } else {
      StepsRun(Micro(s, a, known), a, n - 1, known);
      AfterCons(s, Advance(a, known), Steps(a, n - 1, known));
      assert Steps(a, n, known) == [Advance(a, known)] + Steps(a, n - 1, known);
    }
  }

  lemma {:induction false} SteppedAdd(s: State, a: Agent, m: nat, n: nat, known: set<int>)
    requires Busy(s, a, m, known) && Busy(Stepped(s, a, m, known), a, n, known)
    ensures Busy(s, a, m + n, known) && Stepped(s, a, m + n, known) == Stepped(Stepped(s, a, m, known), a, n, known)
    decreases m
  {
    if m == 0 {
    } else {
      SteppedAdd(Micro(s, a, known), a, m - 1, n, known);
    }
  }

  lemma OneStep(s: State, a: Agent, known: set<int>)
    requires !AtRest(PcOf(s, a)) && known <= s.dead
    ensures Busy(s, a, 1, known) && Stepped(s, a, 1, known) == Micro(s, a, known)
  {
    var t := Micro(s, a, known);
    assert Busy(t, a, 0, known) && Stepped(t, a, 0, known) == t;
  }

  /** One more step after the first `n`. */
  lemma StepMore(s: State, a: Agent, n: nat, known: set<int>)
    requires Busy(s, a, n, known) && !AtRest(PcOf(Stepped(s, a, n, known), a)) && known <= Stepped(s, a, n, known).dead
    ensures Busy(s, a, n + 1, known) && Stepped(s, a, n + 1, known) == Micro(Stepped(s, a, n, known), a, known)
  {
    OneStep(Stepped(s, a, n, known), a, known);
    SteppedAdd(s, a, n, 1, known);
  }

  function AcquireRun(a: Agent, ttl: int, pid: int, n: nat, known: set<int>): seq<Event> {
    [BeginAcquire(a, ttl, pid)] + Steps(a, n, known)
  }

  // ---------------------------------------------------------------- how long a lease lasts

  lemma {:induction false} DeadAfter(s: State, es: seq<Event>, pid: int)
    requires Valid(s, es)
    ensures After(s, es).machine == s.machine && After(s, es).now >= s.now
    ensures pid in After(s, es).dead <==> pid in s.dead || Die(pid) in es
    decreases es
  {
    if es == [] {
    } else {
      DeadAfter(Next(s, es[0]), es[1..], pid);
      assert es == [es[0]] + es[1..];
    }
  }

  /** A lease that an acquire makes for `ttl` seconds, at least one, is stale in every run from the end of that
      time on, and before it exactly if it names a process that has died; so one whose process lives is good
      until then. */
  lemma LeaseLasts(s: State, a: Agent, ttl: int, pid: int, es: seq<Event>)
    requires Enabled(s, BeginAcquire(a, ttl, pid)) && Valid(Next(s, BeginAcquire(a, ttl, pid)), es)
    ensures var begun := Next(s, BeginAcquire(a, ttl, pid)); var t := After(begun, es);
            && PcOf(begun, a).Creating?
            && (ttl >= 1 && t.now >= s.now + 1000 * ttl ==> Stale(t, PcOf(begun, a).draft))
            && (ttl >= 1 && t.now < s.now + 1000 * ttl ==>
                  (Stale(t, PcOf(begun, a).draft) <==> pid > 0 && (pid in s.dead || Die(pid) in es)))
            && (ttl < 1 ==> PcOf(begun, a).draft.expiresAt == s.now + 1000)
  {
    var begun := Next(s, BeginAcquire(a, ttl, pid));
    var t := After(begun, es);
    DeadAfter(begun, es, pid);
    StaleMeans(PcOf(begun, a).draft, t.now, t.dead, t.machine);
  }

  // ---------------------------------------------------------------- undisturbed acquires

  lemma Back(s: State, a: Agent, x: Pc, y: Pc)
    ensures s.pc[a := x][a := y] == s.pc[a := y]
  {
  }

  /** Undisturbed, an acquire of a free resource publishes its lease and is granted it. */
  lemma AcquireFree(s: State, a: Agent, ttl: int, pid: int)
    requires s.file == Absent && s.handle == None && AtRest(PcOf(s, a))
    ensures var lease := Lease(a, pid, s.machine, Expiry(s.now, ttl));
            && Valid(s, AcquireRun(a, ttl, pid, 3, {}))
            && After(s, AcquireRun(a, ttl, pid, 3, {})) ==
               s.(file := Present(Whole(lease)), grants := s.grants[a := lease], pc := s.pc[a := Done(Acquired)])
  {
    var lease := Lease(a, pid, s.machine, Expiry(s.now, ttl));
    var s0 := Next(s, BeginAcquire(a, ttl, pid));
    OneStep(s0, a, {});
    var s1 := Stepped(s0, a, 1, {});
    StepMore(s0, a, 1, {});
    var s2 := Stepped(s0, a, 2, {});
    StepMore(s0, a, 2, {});
    StepsRun(s0, a, 3, {});
    AfterCons(s, BeginAcquire(a, ttl, pid), Steps(a, 3, {}));
    assert Stepped(s0, a, 3, {}).pc == s.pc[a := Done(Acquired)];
  }

  /** Undisturbed, an agent whose create failed finds the lease stale and goes on to open the file. */
  lemma FindStale(s: State, a: Agent, draft: Lease, seen: Lease, known: set<int>)
    requires s.file == Present(Whole(seen)) && IsStale(seen, s.now, known, s.machine) && known <= s.dead
             && s.handle == None
    requires PcOf(s, a) == Creating(draft)
    ensures Busy(s, a, 4, known) && Stepped(s, a, 4, known) == Go(s, a, Opening(draft))
  {
    OneStep(s, a, known);
    StepMore(s, a, 1, known);
    Back(s, a, Looking(ToAcquire(draft)), Reading(ToAcquire(draft), Whole(seen)));
    assert Stepped(s, a, 2, known) == Go(s, a, Reading(ToAcquire(draft), Whole(seen)));
    StepMore(s, a, 2, known);
    Back(s, a, Reading(ToAcquire(draft), Whole(seen)), Checking(draft, seen));
    assert Stepped(s, a, 3, known) == Go(s, a, Checking(draft, seen));
    StepMore(s, a, 3, known);
    Back(s, a, Checking(draft, seen), Opening(draft));
  }

  lemma EnterStale(s: State, a: Agent, draft: Lease, seen: Lease, known: set<int>)
    requires s.file == Present(Whole(seen)) && IsStale(seen, s.now, known, s.machine) && known <= s.dead && Unlocked(s)
    requires PcOf(s, a) == Opening(draft)
    ensures Busy(s, a, 3, known) && Stepped(s, a, 3, known) == Go(s.(handle := Some(a)), a, Truncating(draft))
  {
    OneStep(s, a, known);
    var t := s.(handle := Some(a));
    assert Stepped(s, a, 1, known) == Go(t, a, Rereading(draft));
    StepMore(s, a, 1, known);
    Back(t, a, Rereading(draft), Deciding(draft, Whole(seen)));
    assert Stepped(s, a, 2, known) == Go(t, a, Deciding(draft, Whole(seen)));
    StepMore(s, a, 2, known);
    Back(t, a, Deciding(draft, Whole(seen)), Truncating(draft));
  }

  lemma Overwrite(s: State, a: Agent, draft: Lease, known: set<int>)
    requires s.handle == Some(a) && PcOf(s, a) == Truncating(draft) && known <= s.dead
    ensures Busy(s, a, 3, known)
    ensures Stepped(s, a, 3, known) ==
            Go(s.(handle := None, file := Present(Whole(draft)), grants := s.grants[a := draft]), a, Done(Stolen))
  {
    OneStep(s, a, known);
    StepMore(s, a, 1, known);
    Back(s, a, Rewriting(draft), ReclaimClosing(draft));
    assert Stepped(s, a, 2, known) == Go(s.(file := Present(Whole(draft))), a, ReclaimClosing(draft));
    StepMore(s, a, 2, known);
    Back(s, a, ReclaimClosing(draft), Done(Stolen));
  }

  lemma StealSteps(s: State, a: Agent, draft: Lease, seen: Lease, known: set<int>)
    requires s.file == Present(Whole(seen)) && IsStale(seen, s.now, known, s.machine) && known <= s.dead && Unlocked(s)
    requires PcOf(s, a) == Creating(draft)
    ensures Busy(s, a, 10, known)
    ensures Stepped(s, a, 10, known) ==
            Go(s.(file := Present(Whole(draft)), grants := s.grants[a := draft]), a, Done(Stolen))
  {
    FindStale(s, a, draft, seen, known);
    var s4 := Go(s, a, Opening(draft));
    EnterStale(s4, a, draft, seen, known);
    var s7 := Go(s4.(handle := Some(a)), a, Truncating(draft));
    Overwrite(s7, a, draft, known);
    SteppedAdd(s, a, 4, 3, known);
    SteppedAdd(s, a, 7, 3, known);
    Back(s, a, Opening(draft), Truncating(draft));
    Back(s, a, Truncating(draft), Done(Stolen));
  }

  /** Undisturbed, an acquire over a lease it knows to be stale takes it over in place. */
  lemma AcquireStale(s: State, a: Agent, ttl: int, pid: int, seen: Lease, known: set<int>)
    requires s.file == Present(Whole(seen)) && IsStale(seen, s.now, known, s.machine) && known <= s.dead
    requires Unlocked(s) && AtRest(PcOf(s, a))
    ensures var lease := Lease(a, pid, s.machine, Expiry(s.now, ttl));
            && Valid(s, AcquireRun(a, ttl, pid, 10, known))
            && After(s, AcquireRun(a, ttl, pid, 10, known)) ==
               s.(file := Present(Whole(lease)), grants := s.grants[a := lease], pc := s.pc[a := Done(Stolen)])
  {
    var lease := Lease(a, pid, s.machine, Expiry(s.now, ttl));
    var s0 := Next(s, BeginAcquire(a, ttl, pid));
    StealSteps(s0, a, lease, seen, known);
    StepsRun(s0, a, 10, known);
    AfterCons(s, BeginAcquire(a, ttl, pid), Steps(a, 10, known));
    Back(s, a, Creating(lease), Done(Stolen));
  }

  /** And over a lease it takes to be good it reports Held, and changes nothing. */
  lemma AcquireHeld(s: State, a: Agent, ttl: int, pid: int, seen: Lease, known: set<int>)
    requires s.file == Present(Whole(seen)) && !IsStale(seen, s.now, known, s.machine) && known <= s.dead
    requires s.handle == None && AtRest(PcOf(s, a))
    ensures Valid(s, AcquireRun(a, ttl, pid, 4, known))
    ensures After(s, AcquireRun(a, ttl, pid, 4, known)) == s.(pc := s.pc[a := Done(Held)])
  {
    var draft := Lease(a, pid, s.machine, Expiry(s.now, ttl));
    var s0 := Next(s, BeginAcquire(a, ttl, pid));
    OneStep(s0, a, known);
    StepMore(s0, a, 1, known);
    Back(s, a, Creating(draft), Looking(ToAcquire(draft)));
    Back(s, a, Looking(ToAcquire(draft)), Reading(ToAcquire(draft), Whole(seen)));
    assert Stepped(s0, a, 2, known) == Go(s, a, Reading(ToAcquire(draft), Whole(seen)));
    StepMore(s0, a, 2, known);
    Back(s, a, Reading(ToAcquire(draft), Whole(seen)), Checking(draft, seen));
    assert Stepped(s0, a, 3, known) == Go(s, a, Checking(draft, seen));
    StepMore(s0, a, 3, known);
    Back(s, a, Checking(draft, seen), Done(Held));
    StepsRun(s0, a, 4, known);
    AfterCons(s, BeginAcquire(a, ttl, pid), Steps(a, 4, known));
  }

  // ---------------------------------------------------------------- harm is fatal

  /** Nothing but `a`'s own affairs and the file has changed, and nobody is inside the file. */
  ghost predicate OnlyBy(s: State, t: State, a: Agent) {
    && t.now == s.now && t.dead == s.dead && t.machine == s.machine && Unlocked(t)
    && forall b :: b != a ==>
         PcOf(t, b) == PcOf(s, b) && (b in t.grants <==> b in s.grants)
           && (b in s.grants ==> t.grants[b] == s.grants[b])
  }

  /** The file is gone, or holds what `a` was granted. */
  predicate Open(s: State, a: Agent) {
    s.file.Absent? || (a in s.grants && s.file == Present(Whole(s.grants[a])))
  }

  predicate Holds(s: State, a: Agent) {
    a in s.grants && !Stale(s, s.grants[a])
  }

  /** Undisturbed, an agent at rest can then get a good lease. */
  lemma TakesOver(s: State, a: Agent) returns (es: seq<Event>)
    requires AtRest(PcOf(s, a)) && Unlocked(s) && Open(s, a)
    ensures Valid(s, es) && OnlyBy(s, After(s, es), a) && Holds(After(s, es), a)
  {
    if s.file.Absent? {
      AcquireFree(s, a, 1, 0);
      es := AcquireRun(a, 1, 0, 3, {});
    } else if Stale(s, s.grants[a]) {
      AcquireStale(s, a, 1, 0, s.grants[a], s.dead);
      es := AcquireRun(a, 1, 0, 10, s.dead);
    } else {
      es := [];
    }
  }

  /** An undisturbed delete or rename leaves its agent at rest and the file open to it. */
  lemma LandingOpens(s: State, e: Event)
    requires e.Advance? && Enabled(s, e) && Unlocked(s) && (PcOf(s, e.agent).Deleting? || PcOf(s, e.agent).Renaming?)
    ensures var t := Next(s, e); OnlyBy(s, t, e.agent) && AtRest(PcOf(t, e.agent)) && Open(t, e.agent)
  {
  }

  lemma BothHold(s: State, a: Agent, b: Agent)
    requires a != b && Holds(s, a) && Holds(s, b)
    ensures !MutuallyExclusive(s)
  {
  }

  /** While `a` holds a good lease, an undisturbed agent that relies on a good lease gets one too. */
  lemma RelierHolds(s: State, b: Agent, lease: Lease) returns (es: seq<Event>)
    requires Unlocked(s) && Relies(s, b, lease) && !Stale(s, lease)
    ensures Valid(s, es) && OnlyBy(s, After(s, es), b) && Holds(After(s, es), b)
    decreases PcOf(s, b).Stamping?
  {
    var e := Advance(b, {});
    var t := Next(s, e);
    if b in s.grants && s.grants[b] == lease {
      es := [];
    } else if PcOf(s, b).Stamping? {
      var rest := RelierHolds(t, b, lease);
      AfterCons(s, e, rest);
      es := [e] + rest;
    } else {
      LandingOpens(s, e);
      var rest := TakesOver(t, b);
      AfterCons(s, e, rest);
      es := [e] + rest;
    }
  }

  lemma StillRelies(s: State, t: State, a: Agent, b: Agent, lease: Lease)
    requires OnlyBy(s, t, a) && a != b && Relies(s, b, lease)
    ensures Relies(t, b, lease) && (Stale(t, lease) <==> Stale(s, lease))
  {
    assert PcOf(t, b) == PcOf(s, b);
  }

  /** Whenever a step does harm, the agents it concerns can go on, undisturbed, until two of them hold good
      leases at once. */
  lemma HarmBreaks(s: State, e: Event) returns (es: seq<Event>)
    requires Enabled(s, e) && Harm(s, e)
    ensures Valid(s, [e] + es) && !MutuallyExclusive(After(s, [e] + es))
  {
    var lease := s.file.content.lease;
    var b :| b != e.agent && Relies(s, b, lease);
    var t := Next(s, e);
    LandingOpens(s, e);
    StillRelies(s, t, e.agent, b, lease);
    var first := TakesOver(t, e.agent);
    var u := After(t, first);
    StillRelies(t, u, e.agent, b, lease);
    var second := RelierHolds(u, b, lease);
    BothHold(After(u, second), e.agent, b);
    AfterConcat(t, first, second);
    AfterCons(s, e, first + second);
    es := first + second;
  }

  /** Exactly the harmless runs keep the invariant throughout. */
  lemma {:induction false} HarmlessExactly(s: State, es: seq<Event>)
    requires Inv(s) && Valid(s, es)
    ensures HarmlessRun(s, es) <==> forall k :: 0 <= k <= |es| ==> Inv(After(s, es[..k]))
    decreases es
  {
    if es == [] {
    } else {
      var t := Next(s, es[0]);
      InvStep(s, es[0]);
      forall k | 1 <= k <= |es| ensures After(s, es[..k]) == After(t, es[1..][..k - 1]) {
        assert es[..k][1..] == es[1..][..k - 1];
      }
      if HarmlessRun(s, es) {
        HarmlessExactly(t, es[1..]);
      } else if Inv(t) {
        HarmlessExactly(t, es[1..]);
        var k :| 0 <= k <= |es[1..]| && !Inv(After(t, es[1..][..k]));
        assert !Inv(After(s, es[..k + 1]));
      } else {
        assert After(s, es[..1]) == After(t, es[1..][..0]) == t;
      }
    }
  }

  /** And every other run can be cut off at its first harm and continued to a breach of mutual exclusion. */
  lemma {:induction false} HarmfulRunBreaks(s: State, es: seq<Event>) returns (k: nat, more: seq<Event>)
    requires Valid(s, es) && !HarmlessRun(s, es)
    ensures k < |es| && HarmlessRun(s, es[..k]) && Harm(After(s, es[..k]), es[k])
    ensures Valid(s, es[..k] + more) && !MutuallyExclusive(After(s, es[..k] + more))
    decreases es
  {
    if Harm(s, es[0]) {
      var rest := HarmBreaks(s, es[0]);
      k, more := 0, [es[0]] + rest;
      assert es[..0] + more == more;
    } else {
      var j;
      j, more := HarmfulRunBreaks(Next(s, es[0]), es[1..]);
      k := j + 1;
      assert es[..k][1..] == es[1..][..j] && es[..k] + more == [es[0]] + (es[1..][..j] + more);
      AfterCons(s, es[0], es[1..][..j] + more);
    }
  }

  // ---------------------------------------------------------------- late releases and renewals

  /** Whenever a delete is about to land on the file while it holds another agent's good granted lease, it is
      late, and after it any third agent's acquire gives two agents good leases at once. */
  lemma LateReleaseBreaks(s: State, a: Agent, b: Agent, c: Agent, ttl: int, pid: int)
    requires Inv(s) && PcOf(s, a).Deleting? && Unlocked(s)
    requires b in s.grants && b != a && s.file == Present(Whole(s.grants[b])) && !Stale(s, s.grants[b])
    requires c != a && c != b && AtRest(PcOf(s, c)) && pid !in s.dead
    ensures !Timely(s, Advance(a, {}))
    ensures var es := [Advance(a, {})] + AcquireRun(c, ttl, pid, 3, {});
            Valid(s, es) && !MutuallyExclusive(After(s, es))
  {
    assert AgentOk(s, a) && AgentOk(s, b);
    var t := Next(s, Advance(a, {}));
    AcquireFree(t, c, ttl, pid);
    AfterCons(s, Advance(a, {}), AcquireRun(c, ttl, pid, 3, {}));
    BothHold(After(t, AcquireRun(c, ttl, pid, 3, {})), b, c);
  }

  /** A late rename is worse: it gives two agents good leases at once, at that very step. */
  lemma LateRenewBreaks(s: State, a: Agent, b: Agent)
    requires Inv(s) && PcOf(s, a).Renaming? && Unlocked(s) && !Stale(s, PcOf(s, a).renewed)
    requires b in s.grants && b != a && s.file == Present(Whole(s.grants[b])) && !Stale(s, s.grants[b])
    ensures !Timely(s, Advance(a, {}))
    ensures !MutuallyExclusive(Next(s, Advance(a, {})))
  {
    assert AgentOk(s, a) && AgentOk(s, b);
    BothHold(Next(s, Advance(a, {})), a, b);
  }

  function FirstLease(machine: string): Lease {
    Lease("a", 0, machine, 1000)
  }

  /** The lease of agent `a` has just expired, and `pc` is where `a` stands; nobody else has started. */
  function Paused(machine: string, pc: Pc): State {
    var lease := FirstLease(machine);
    State(machine, 1000, {}, Present(Whole(lease)), None, map["a" := pc], map["a" := lease])
  }

  /** An undisturbed plain read of a lease. */
  lemma ReadsLease(s: State, a: Agent, why: Purpose, lease: Lease)
    requires PcOf(s, a) == Looking(why) && s.file == Present(Whole(lease)) && s.handle == None
    ensures Busy(s, a, 2, {})
    ensures Stepped(s, a, 2, {}) == AfterRead(Go(s, a, Reading(why, Whole(lease))), a, why, Whole(lease))
  {
    OneStep(s, a, {});
    Back(s, a, Looking(why), Reading(why, Whole(lease)));
    StepMore(s, a, 1, {});
  }

  /** Agent `a` holds its lease and has read it to give it back or renew it. */
  lemma ReadsOwn(s: State, a: Agent, begin: Event, lease: Lease, pc: Pc)
    requires s.file == Present(Whole(lease)) && s.handle == None && AtRest(PcOf(s, a)) && lease.holder == a
    requires (begin == BeginRelease(a) && pc == Deleting(lease))
             || (begin == BeginRenew(a, 1) && pc == Stamping(lease, 1))
    ensures var es := [begin] + Steps(a, 2, {}); Valid(s, es) && After(s, es) == Go(s, a, pc)
  {
    var why := if begin.BeginRelease? then ToRelease else ToRenew(1);
    var t := Go(s, a, Looking(why));
    ReadsLease(t, a, why, lease);
    StepsRun(t, a, 2, {});
    AfterCons(s, begin, Steps(a, 2, {}));
    Back(s, a, Looking(why), Reading(why, Whole(lease)));
    Back(s, a, Reading(why, Whole(lease)), pc);
  }

  /** `a` acquires a free resource, begins to give it back or renew it, reads its lease, and pauses. */
  lemma PausedReachable(machine: string, begin: Event, pc: Pc) returns (s: State, es: seq<Event>)
    requires (begin == BeginRelease("a") && pc == Deleting(FirstLease(machine)))
             || (begin == BeginRenew("a", 1) && pc == Stamping(FirstLease(machine), 1))
    ensures Init(s) && Valid(s, es) && After(s, es) == Paused(machine, pc)
  {
    s := State(machine, 0, {}, Absent, None, map[], map[]);
    AcquireFree(s, "a", 1, 0);
    es := AcquireRun("a", 1, 0, 3, {});
    var t := State(machine, 0, {}, Present(Whole(FirstLease(machine))), None, map["a" := Done(Acquired)],
                   map["a" := FirstLease(machine)]);
    assert After(s, es) == t;
    ReadsOwn(t, "a", begin, FirstLease(machine), pc);
    var more := [begin] + Steps("a", 2, {});
    AfterConcat(s, es, more);
    es := es + more;
    AfterCons(Go(t, "a", pc), Tick(1000), []);
    AfterConcat(s, es, [Tick(1000)] + []);
    es := es + ([Tick(1000)] + []);
    assert map["a" := Done(Acquired)]["a" := pc] == map["a" := pc];
  }

  /** `b` has taken the expired lease over. */
  function Overtaken(machine: string, pc: Pc): State {
    var s := Paused(machine, pc);
    var lease := Lease("b", 0, machine, 2000);
    s.(file := Present(Whole(lease)), grants := s.grants["b" := lease], pc := s.pc["b" := Done(Stolen)])
  }

  lemma OvertakenReachable(machine: string, begin: Event, pc: Pc) returns (s: State, es: seq<Event>)
    requires (begin == BeginRelease("a") && pc == Deleting(FirstLease(machine)))
             || (begin == BeginRenew("a", 1) && pc == Stamping(FirstLease(machine), 1))
    ensures Init(s) && Valid(s, es) && After(s, es) == Overtaken(machine, pc)
  {
    s, es := PausedReachable(machine, begin, pc);
    var steal := AcquireRun("b", 1, 0, 10, {});
    AcquireStale(Paused(machine, pc), "b", 1, 0, FirstLease(machine), {});
    AfterConcat(s, es, steal);
    es := es + steal;
  }

  lemma OvertakenByRelease(machine: string)
    ensures Inv(Overtaken(machine, Deleting(FirstLease(machine))))
  {
    forall x ensures AgentOk(Overtaken(machine, Deleting(FirstLease(machine))), x) {}
  }

  lemma OvertakenByRenewal(machine: string)
    ensures Inv(Next(Overtaken(machine, Stamping(FirstLease(machine), 1)), Advance("a", {})))
  {
    var s, e := Overtaken(machine, Stamping(FirstLease(machine), 1)), Advance("a", {});
    forall x ensures AgentOk(s, x) {}
    InvStep(s, e);
  }

  lemma OvertakenInv(machine: string)
    ensures Inv(Overtaken(machine, Deleting(FirstLease(machine))))
    ensures Inv(Next(Overtaken(machine, Stamping(FirstLease(machine), 1)), Advance("a", {})))
  {
    OvertakenByRelease(machine);
    OvertakenByRenewal(machine);
  }

  /** Such runs exist: a release reads its lease, sleeps past its expiry, and deletes the thief's. */
  lemma LateReleaseReachable(machine: string) returns (s: State, es: seq<Event>)
    ensures Init(s) && Valid(s, es) && !MutuallyExclusive(After(s, es))
  {
    var pc := Deleting(FirstLease(machine));
    s, es := OvertakenReachable(machine, BeginRelease("a"), pc);
    OvertakenInv(machine);
    LateReleaseBreaks(Overtaken(machine, pc), "a", "b", "c", 1, 0);
    var last := [Advance("a", {})] + AcquireRun("c", 1, 0, 3, {});
    AfterConcat(s, es, last);
    es := es + last;
  }

  /** The invariant holds once `a` has stamped, and `b` holds a good lease, which is in the file. */
  ghost predicate AgentsAB(s: State) {
    && Inv(Next(s, Advance("a", {}))) && Unlocked(s) && s.dead == {} && PcOf(s, "b") == Done(Stolen)
    && "b" in s.grants && s.file == Present(Whole(s.grants["b"])) && s.now < s.grants["b"].expiresAt
  }

  lemma LateRenewEnds(s: State)
    requires AgentsAB(s) && PcOf(s, "a").Stamping? && PcOf(s, "a").ttl == 1
    ensures var e := Advance("a", {}); Valid(s, [e, e]) && !MutuallyExclusive(After(s, [e, e]))
  {
    var e := Advance("a", {});
    var t := Next(s, e);
    LateRenewBreaks(t, "a", "b");
    assert [e, e][1..] == [e] && [e][1..] == [];
    assert After(t, [e]) == Next(t, e) && Valid(t, [e]);
  }

  /** And a renewal that sleeps as long renames over the thief's lease. */
  lemma LateRenewReachable(machine: string) returns (s: State, es: seq<Event>)
    ensures Init(s) && Valid(s, es) && !MutuallyExclusive(After(s, es))
  {
    var pc, e := Stamping(FirstLease(machine), 1), Advance("a", {});
    s, es := OvertakenReachable(machine, BeginRenew("a", 1), pc);
    OvertakenInv(machine);
    LateRenewEnds(Overtaken(machine, pc));
    AfterConcat(s, es, [e, e]);
    es := es + [e, e];
  }

  /** Lateness alone is not harm: deleting one's own expired lease breaks nothing. */
  lemma LateNeedNotHarm(machine: string)
    ensures var s, e := Paused(machine, Deleting(FirstLease(machine))), Advance("a", {});
            Inv(s) && Enabled(s, e) && !Timely(s, e) && !Harm(s, e) && Inv(Next(s, e))
  {
    var s, e := Paused(machine, Deleting(FirstLease(machine))), Advance("a", {});
    forall x ensures AgentOk(s, x) {}
    InvStep(s, e);
  }

  // ---------------------------------------------------------------- the torn file

  /** At rest, or not yet past the first look at the file, which showed it torn. */
  predicate Outside(pc: Pc) {
    AtRest(pc) || pc.Creating? || pc.Looking? || (pc.Reading? && pc.content.Torn?)
  }

  /** The file left by an agent that crashed between creating it and writing it, with nobody inside it. */
  ghost predicate Abandoned(s: State) {
    && s.file == Present(Torn) && s.handle == None
    && forall a :: Outside(PcOf(s, a))
  }

  lemma TornStep(s: State, e: Event)
    requires Abandoned(s) && Enabled(s, e)
    ensures var t := Next(s, e);
            && Abandoned(t)
            && (forall a :: a in t.grants ==> a in s.grants && t.grants[a] == s.grants[a])
            && (forall a :: PcOf(t, a).Done? ==> PcOf(t, a) == Done(Held) || PcOf(t, a) == PcOf(s, a))
  {
    var t := Next(s, e);
    forall a ensures Outside(PcOf(t, a)) {
      assert Outside(PcOf(s, a));
    }
  }

  /** No later acquire, release or renewal ever gets anywhere: the resource reports Held for good. */
  lemma {:induction false} TornForever(s: State, es: seq<Event>)
    requires Abandoned(s) && Valid(s, es)
    ensures Abandoned(After(s, es)) && After(s, es).file == Present(Torn)
    ensures forall a :: a in After(s, es).grants ==> a in s.grants && After(s, es).grants[a] == s.grants[a]
    ensures forall a :: PcOf(After(s, es), a).Done? ==>
              PcOf(After(s, es), a) == Done(Held) || PcOf(After(s, es), a) == PcOf(s, a)
    decreases es
  {
    if es == [] {
    } else {
      TornStep(s, es[0]);
      TornForever(Next(s, es[0]), es[1..]);
    }
  }

  /** One crash is enough to get there. */
  lemma CrashLeavesTorn(s: State, a: Agent, ttl: int, pid: int)
    requires Init(s) && s.file == Absent
    ensures var es := [BeginAcquire(a, ttl, pid), Advance(a, {}), Crash(a)];
            Valid(s, es) && Abandoned(After(s, es))
  {
    var es := [BeginAcquire(a, ttl, pid), Advance(a, {}), Crash(a)];
    assert AtRest(PcOf(s, a));
    var s1 := Next(s, es[0]);
    var s2 := Next(s1, es[1]);
    var s3 := Next(s2, es[2]);
    assert es == [es[0]] + ([es[1]] + ([es[2]] + []));
    AfterCons(s2, es[2], []);
    AfterCons(s1, es[1], [es[2]] + []);
    AfterCons(s, es[0], [es[1]] + ([es[2]] + []));
    forall b ensures AtRest(PcOf(s3, b)) {
      assert AtRest(PcOf(s, b));
    }
  }
}
