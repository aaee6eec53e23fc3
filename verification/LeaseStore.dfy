/**
  The lease commands as the program runs them: statement by statement on the shared store, with any
  number of other agents' steps between two statements. Each statement that touches the store is one
  step of the protocol machine.
  */
module LeaseStore {
  import opened Wrappers
  import opened LeaseProtocol
  import LeaseSafety

  /** What a plain read begun in the state `at` finds: a lease, unless there is no file, it is torn, or somebody
      has the handle. */
  ghost predicate Finds(at: State, lease: Lease) {
    at.handle.None? && at.file == Present(Whole(lease))
  }

  class Store {
    var s: State

    constructor (machine: string, now: int, file: File)
      ensures Init(s) && Inv(s) && s.file == file && s.now == now && s.machine == machine
    {
      s := State(machine, now, {}, file, None, map[], map[]);
      new;
      forall a ensures AgentOk(s, a) {}
    }

    /** Everything `a` itself decides is as it was: where it stands, and what it was granted. */
    twostate predicate Undisturbed(a: Agent)
      reads this
    {
      && PcOf(s, a) == PcOf(old(s), a) && s.machine == old(s).machine && s.now >= old(s).now
      && (a in s.grants <==> a in old(s).grants) && (a in s.grants ==> s.grants[a] == old(s).grants[a])
    }

    /** What others do changes nothing of this. */
    lemma NotByIt(t: State, e: Event, a: Agent)
      requires (e.Tick? || e.Die? || e.agent != a) && Enabled(t, e)
      ensures var u := Next(t, e);
              && PcOf(u, a) == PcOf(t, a) && u.machine == t.machine && u.now >= t.now
              && (a in u.grants <==> a in t.grants) && (a in u.grants ==> u.grants[a] == t.grants[a])
    {
      if e.Advance? {
        OnlyOwn(t, e.agent, e.known, a);
      }
    }

    /** The other agents, and time, take any number of harmless steps: that includes all acquires, all readers,
        all crashes, and every delete or rename but one that lands on a good lease another agent relies on. */
    method Interfere(a: Agent)
      requires Inv(s)
      modifies this
      ensures Inv(s) && Undisturbed(a)
    {
      var steps: nat := *;
      while steps > 0
        invariant Inv(s) && Undisturbed(a)
      {
        var e: Event :| true;
        if (e.Tick? || e.Die? || e.agent != a) && Enabled(s, e) && !Harm(s, e) {
          InvStep(s, e);
          NotByIt(s, e, a);
          s := Next(s, e);
        }
        steps := steps - 1;
      }
    }

    /** One statement of `a`'s command, then interference. */
    method Take(a: Agent) returns (ghost known: set<int>)
      requires Inv(s) && !AtRest(PcOf(s, a)) && !PcOf(s, a).Deleting? && !PcOf(s, a).Renaming?
      modifies this
      ensures Inv(s) && known <= old(s).dead
      ensures var t := Micro(old(s), a, known);
              && PcOf(s, a) == PcOf(t, a) && s.machine == t.machine && s.now >= t.now
              && (a in s.grants <==> a in t.grants) && (a in s.grants ==> s.grants[a] == t.grants[a])
    {
      var k: set<int> :| k <= s.dead;
      known := k;
      InvStep(s, Advance(a, k));
      s := Micro(s, a, k);
      Interfere(a);
    }

    /** File.ReadAllText and what follows from it: two statements if the file can be opened, else one. */
    method Read(a: Agent, ghost why: Purpose) returns (ghost content: Content)
      requires Inv(s) && PcOf(s, a) == Looking(why)
      modifies this
      ensures Inv(s) && s.machine == old(s).machine && s.now >= old(s).now
      ensures old(s).handle.None? && old(s).file.Present? ==> content == old(s).file.content
      ensures old(s).handle.Some? || old(s).file.Absent? ==> content == Torn
      ensures var t := AfterRead(old(s), a, why, content);
              && PcOf(s, a) == PcOf(t, a)
              && (a in s.grants <==> a in t.grants) && (a in s.grants ==> s.grants[a] == t.grants[a])
    {
      ghost var _ := Take(a);
      content := Torn;
      if PcOf(s, a).Reading? {
        content := PcOf(s, a).content;
        ghost var _ := Take(a);
      }
    }

    /** True exactly when the exclusive create succeeded; then the lease is published and granted. */
    method TryCreate(a: Agent, ghost draft: Lease) returns (ok: bool)
      requires Inv(s) && PcOf(s, a) == Creating(draft)
      modifies this
      ensures Inv(s) && s.machine == old(s).machine && s.now >= old(s).now
      ensures ok ==> old(s).file.Absent? && PcOf(s, a) == Done(Acquired) && a in s.grants && s.grants[a] == draft
      ensures !ok ==> old(s).file.Present? && PcOf(s, a) == Looking(ToAcquire(draft))
      ensures !ok ==> (a in s.grants <==> a in old(s).grants) && (a in s.grants ==> s.grants[a] == old(s).grants[a])
    {
      ghost var _ := Take(a);
      if PcOf(s, a).Looking? {
        return false;
      }
      ghost var _ := Take(a);
      ghost var _ := Take(a);
      return true;
    }

    /** Truncate, write, close: under the exclusive handle nothing can come between. */
    method Overwrite(a: Agent, ghost draft: Lease)
      requires Inv(s) && PcOf(s, a) == Truncating(draft)
      modifies this
      ensures Inv(s) && s.machine == old(s).machine && s.now >= old(s).now
      ensures PcOf(s, a) == Done(Stolen) && a in s.grants && s.grants[a] == draft
    {
      ghost var _ := Take(a);
      ghost var _ := Take(a);
      ghost var _ := Take(a);
    }

    /** Takes the file over in place, or leaves the store's grants to `a` as they were and goes on to read who
        holds it. */
    method TryReclaimInPlace(a: Agent, ghost draft: Lease) returns (ok: bool)
      requires Inv(s) && PcOf(s, a) == Opening(draft)
      modifies this
      ensures Inv(s) && s.machine == old(s).machine && s.now >= old(s).now
      ensures ok ==> old(s).file.Present? && Unlocked(old(s))
      ensures ok ==> PcOf(s, a) == Done(Stolen) && a in s.grants && s.grants[a] == draft
      ensures !ok ==> PcOf(s, a) == Looking(ToName)
      ensures !ok ==> (a in s.grants <==> a in old(s).grants) && (a in s.grants ==> s.grants[a] == old(s).grants[a])
    {
      ghost var _ := Take(a);
      if PcOf(s, a).Looking? {
        return false;
      }
      ghost var _ := Take(a);
      ghost var _ := Take(a);
      if PcOf(s, a).Looking? {
        return false;
      }
      Overwrite(a, draft);
      return true;
    }

    /** No other agent's grant is good unless `a`'s own has gone stale. */
    lemma OthersStale(a: Agent)
      requires Inv(s) && a in s.grants
      ensures Stale(s, s.grants[a]) || forall b :: b in s.grants && b != a ==> Stale(s, s.grants[b])
    {
      LeaseSafety.ExclusionFromInv(s);
    }

    /** An attempt after its create failed: read, check, and reclaim what is stale. */
    method ReadAndReclaim(a: Agent, ghost draft: Lease) returns (r: AcquireResult)
      requires Inv(s) && PcOf(s, a) == Looking(ToAcquire(draft))
      modifies this
      ensures Inv(s) && PcOf(s, a) == Done(r) && s.machine == old(s).machine && s.now >= old(s).now
      ensures r == Stolen || r == Held
      ensures r == Stolen ==> a in s.grants && s.grants[a] == draft
      ensures r == Held ==>
                (a in s.grants <==> a in old(s).grants) && (a in s.grants ==> s.grants[a] == old(s).grants[a])
    {
      ghost var seen := Read(a, ToAcquire(draft));
      if PcOf(s, a).Done? {
        return Held;
      }
      ghost var _ := Take(a);
      if PcOf(s, a).Done? {
        return Held;
      }
      var stolen := TryReclaimInPlace(a, draft);
      if stolen {
        return Stolen;
      }
      seen := Read(a, ToName);
      return Held;
    }

    /** An attempt that does not report Held was granted the very lease it made, for `ttl` seconds from then and
        at least one, and then no other agent's granted lease is good unless this one has itself gone stale. It
        reports Acquired exactly if it found no file, in the state `at` in which it tried to create one. */
    method TryAcquireOnce(a: Agent, ttl: int, pid: int) returns (r: AcquireResult, ghost at: State)
      requires Inv(s) && AtRest(PcOf(s, a))
      modifies this
      ensures Inv(s) && PcOf(s, a) == Done(r) && s.machine == old(s).machine && s.now >= at.now >= old(s).now
      ensures Inv(at) && (r == Acquired <==> at.file.Absent?)
      ensures r != Held ==>
                && a in s.grants
                && s.grants[a] == Lease(a, pid, s.machine, old(s).now + 1000 * (if ttl >= 1 then ttl else 1))
                && (Stale(s, s.grants[a]) || forall b :: b in s.grants && b != a ==> Stale(s, s.grants[b]))
      ensures r == Held ==>
                (a in s.grants <==> a in old(s).grants) && (a in s.grants ==> s.grants[a] == old(s).grants[a])
    {
      ghost var draft := Lease(a, pid, s.machine, Expiry(s.now, ttl));
      InvStep(s, BeginAcquire(a, ttl, pid));
      s := Next(s, BeginAcquire(a, ttl, pid));
      Interfere(a);
      at := s;
      var created := TryCreate(a, draft);
      if created {
        OthersStale(a);
        return Acquired, at;
      }
      r := ReadAndReclaim(a, draft);
      if r == Stolen {
        OthersStale(a);
      }
    }

    /** Thread.Sleep: at least `ms` pass, and the others go on working. */
    method Sleep(a: Agent, ms: nat)
      requires Inv(s)
      modifies this
      ensures Inv(s) && Undisturbed(a) && s.now >= old(s).now + ms
    {
      InvStep(s, Tick(s.now + ms));
      s := Next(s, Tick(s.now + ms));
      Interfere(a);
    }

    /** Exit 0 comes only from an attempt that published its lease; 5 only without --wait, after one
        attempt; 2 only once the deadline has passed. Waiting makes at most 5T + 1 attempts. */
    method Acquire(a: Agent, ttl: int, pid: int, wait: bool, timeoutSec: int) returns (code: int, attempts: nat)
      requires Inv(s) && AtRest(PcOf(s, a))
      modifies this
      ensures Inv(s) && s.now >= old(s).now
      ensures code == 0 || code == 2 || code == 5
      ensures code == 0 ==>
                && PcOf(s, a) in {Done(Acquired), Done(Stolen)}
                && a in s.grants && s.grants[a].holder == a && s.grants[a].pid == pid
                && old(s).now <= s.grants[a].expiresAt - 1000 * (if ttl >= 1 then ttl else 1) <= s.now
                && (Stale(s, s.grants[a]) || forall b :: b in s.grants && b != a ==> Stale(s, s.grants[b]))
      ensures code != 0 ==> PcOf(s, a) == Done(Held)
      ensures code != 0 ==>
                (a in s.grants <==> a in old(s).grants) && (a in s.grants ==> s.grants[a] == old(s).grants[a])
      ensures code == 5 ==> !wait
      ensures code == 2 ==> wait && s.now >= old(s).now + 1000 * timeoutSec
      ensures !wait ==> attempts == 1
      ensures 1 <= attempts <= (if timeoutSec > 0 then 5 * timeoutSec else 0) + 1
    {
      ghost var start := s.now;
      var deadline := s.now + 1000 * timeoutSec;
      attempts := 0;
      while true
        invariant Inv(s) && AtRest(PcOf(s, a))
        invariant s.now >= start + 200 * attempts
        invariant attempts > 0 ==> wait && start + 200 * (attempts - 1) < deadline
        invariant (a in s.grants <==> a in old(s).grants) && (a in s.grants ==> s.grants[a] == old(s).grants[a])
        decreases deadline + 1000 - start - 200 * attempts
      {
        var r, _ := TryAcquireOnce(a, ttl, pid);
        attempts := attempts + 1;
        if r != Held {
          return 0, attempts;
        }
        if !wait {
          return 5, attempts;
        }
        if s.now >= deadline {
          return 2, attempts;
        }
        var jitter: nat :| jitter < 300;
        Sleep(a, 200 + jitter);
      }
    }

    /** The rename over the lease file: unless somebody has it open then, the file holds the renewed lease. */
    method Move(a: Agent) returns (code: int, ghost harmless: bool)
      requires Inv(s) && PcOf(s, a).Renaming?
      modifies this
      ensures code == (if Unlocked(old(s)) then 0 else 1)
      ensures s.now == old(s).now && (code == 0 ==> PcOf(s, a) == Exited(0))
      ensures code == 0 ==>
                && a in s.grants && s.grants[a] == PcOf(old(s), a).renewed && s.grants[a].holder == a
                && s.file == Present(Whole(s.grants[a]))
      ensures code == 1 ==> harmless && s.file == old(s).file
      ensures code == 1 ==>
                (a in s.grants <==> a in old(s).grants) && (a in s.grants ==> s.grants[a] == old(s).grants[a])
      ensures Inv(s) <==> harmless
    {
      ghost var last := Advance(a, {});
      harmless := !Harm(s, last);
      InvStep(s, last);
      assert AgentOk(s, a);
      s := Micro(s, a, {});
      code := if PcOf(s, a).Idle? then 1 else 0;
    }

    /** Refuses with 6 exactly when it found another agent's lease, in the state `at`; otherwise the agent gives up
        its grant. It goes on to delete, from the state `before`, exactly when it found its own lease; then the
        file is gone unless somebody had it open, and the store is sound exactly if that did no harm. */
    method Release(a: Agent) returns (code: int, ghost at: State, ghost before: Option<State>)
      requires Inv(s) && AtRest(PcOf(s, a))
      modifies this
      ensures PcOf(s, a) == Exited(code) && (code == 0 || code == 6) && Inv(at)
      ensures code == 6 <==> exists lease :: Finds(at, lease) && lease.holder != a
      ensures before.Some? <==> exists lease :: Finds(at, lease) && lease.holder == a
      ensures code == 0 ==> a !in s.grants
      ensures code == 6 ==>
                && before.None? && (a in s.grants <==> a in old(s).grants)
                && (a in s.grants ==> s.grants[a] == old(s).grants[a])
      ensures before.None? ==> Inv(s)
      ensures before.Some? ==>
                && Inv(before.value) && PcOf(before.value, a).Deleting? && PcOf(before.value, a).seen.holder == a
                && s.file == (if Unlocked(before.value) then Absent else before.value.file)
                && (Inv(s) <==> !Harm(before.value, Advance(a, {})))
    {
      InvStep(s, BeginRelease(a));
      s := Next(s, BeginRelease(a));
      Interfere(a);
      at := s;
      ghost var content := Read(a, ToRelease);
      assert content.Whole? ==> Finds(at, content.lease);
      if PcOf(s, a).Exited? {
        return PcOf(s, a).code, at, None;
      }
      before := Some(s);
      assert AgentOk(s, a);
      InvStep(s, Advance(a, {}));
      s := Micro(s, a, {});
      code := 0;
    }

    /** Code 5: it found no lease, in the state `at`; 6: it found another agent's. Otherwise it found its own, and
        code 0 says that the agent now holds it with the new expiry and nothing else changed in it, and that it is
        in the file. Code 1 stands for the rethrown I/O error of the move. */
    method Renew(a: Agent, ttl: int) returns (code: int, ghost at: State, ghost harmless: bool)
      requires Inv(s) && AtRest(PcOf(s, a))
      modifies this
      ensures code in {0, 1, 5, 6} && Inv(at) && (code != 1 ==> PcOf(s, a) == Exited(code))
      ensures code == 5 <==> forall lease :: !Finds(at, lease)
      ensures code == 6 <==> exists lease :: Finds(at, lease) && lease.holder != a
      ensures code == 0 ==>
                && a in s.grants && s.file == Present(Whole(s.grants[a])) && s.grants[a].holder == a
                && Finds(at, s.grants[a].(expiresAt := at.file.content.lease.expiresAt))
                && old(s).now <= s.grants[a].expiresAt - 1000 * (if ttl >= 1 then ttl else 1) <= s.now
      ensures code != 0 ==>
                harmless && (a in s.grants <==> a in old(s).grants)
                  && (a in s.grants ==> s.grants[a] == old(s).grants[a])
      ensures Inv(s) <==> harmless
    {
      InvStep(s, BeginRenew(a, ttl));
      s := Next(s, BeginRenew(a, ttl));
      Interfere(a);
      at := s;
      ghost var content := Read(a, ToRenew(ttl));
      assert content.Whole? ==> Finds(at, content.lease);
      if PcOf(s, a).Exited? {
        return PcOf(s, a).code, at, true;
      }
      ghost var _ := Take(a);
      code, harmless := Move(a);
    }
  }
}
