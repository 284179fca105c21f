/** The keyed pack lock over all runs: mutual exclusion and progress of its promise chains. */
module PublishLocks {
  import opened Wrappers
  import opened DependencyGraph
  import opened PublishProtocol
  import opened PublishSlots

  predicate Keyed(plan: Plan, n: Name) {
    n in plan && plan[n].pack.Some? && plan[n].pack.value.lock.Some?
  }

  function Key(plan: Plan, n: Name): string
    requires Keyed(plan, n)
  {
    plan[n].pack.value.lock.value
  }

  ghost predicate AllKeyed(plan: Plan, requests: seq<Name>) {
    forall i :: 0 <= i < |requests| ==> Keyed(plan, requests[i])
  }

  /** The tail of the promise chain of `key` after these requests. */
  ghost function LastRequest(plan: Plan, requests: seq<Name>, key: string): Option<Name>
    requires AllKeyed(plan, requests)
  {
    if requests == [] then None
    else
      var last := requests[|requests| - 1];
      if Key(plan, last) == key then Some(last) else LastRequest(plan, requests[..|requests| - 1], key)
  }

  lemma {:induction false} LastRequestIsLatest(plan: Plan, requests: seq<Name>, key: string)
    requires AllKeyed(plan, requests)
    ensures match LastRequest(plan, requests, key)
      case None => forall i :: 0 <= i < |requests| ==> Key(plan, requests[i]) != key
      case Some(m) => exists i :: && 0 <= i < |requests| && requests[i] == m && Key(plan, m) == key
                                  && forall j :: i < j < |requests| ==> Key(plan, requests[j]) != key
  {
    if requests != [] {
      var front := requests[..|requests| - 1];
      LastRequestIsLatest(plan, front, key);
      var last := requests[|requests| - 1];
      if Key(plan, last) == key {
        assert requests[|requests| - 1] == last;
      } else if LastRequest(plan, front, key).Some? {
        var m := LastRequest(plan, front, key).value;
        var i :| && 0 <= i < |front| && front[i] == m && Key(plan, m) == key
                 && forall j :: i < j < |front| ==> Key(plan, front[j]) != key;
        assert requests[i] == m;
      }
    }
  }

  predicate Contends(p: Phase) {
    p.AwaitLock? || p.PackLocked?
  }

  predicate BeforeRequest(p: Phase) {
    p.Start? || p.AwaitPackSlot? || p.PackEntered?
  }

  /** The chains: who asked, in which order, and what each request waits for. */
  ghost predicate Chains(plan: Plan, requests: seq<Name>, tails: map<string, Name>, previous: map<Name, Option<Name>>) {
    && Distinct(requests)
    && AllKeyed(plan, requests)
    && (forall k :: (if k in tails then Some(tails[k]) else None) == LastRequest(plan, requests, k))
    && forall i :: 0 <= i < |requests| ==>
         requests[i] in previous && previous[requests[i]] == LastRequest(plan, requests[..i], Key(plan, requests[i]))
  }

  /** Holding or having held the lock means every earlier request of the key has released it. */
  ghost predicate InTurn(plan: Plan, phase: Phases, m: KeyedMutex)
    requires AllKeyed(plan, m.requests)
  {
    forall i, j :: && 0 <= i < j < |m.requests| && Key(plan, m.requests[i]) == Key(plan, m.requests[j])
                   && m.requests[j] in phase
                   && (m.requests[j] in m.released || phase[m.requests[j]].PackLocked?)
      ==> m.requests[i] in m.released
  }

  ghost predicate Contenders(phase: Phases, m: KeyedMutex) {
    && (forall n :: n in m.released ==> n in m.requests)
    && (forall n :: n in m.requests ==> n in phase && !BeforeRequest(phase[n]))
    && (forall n :: n in phase ==> (Contends(phase[n]) <==> n in m.requests && n !in m.released))
  }

  ghost predicate Locks(plan: Plan, phase: Phases, m: KeyedMutex) {
    && phase.Keys == plan.Keys
    && Chains(plan, m.requests, m.tails, m.previous)
    && Contenders(phase, m)
    && InTurn(plan, phase, m)
  }

  /** At most one job at a time holds the lock of a key. */
  lemma MutualExclusion(plan: Plan, phase: Phases, m: KeyedMutex, a: Name, b: Name)
    requires Locks(plan, phase, m)
    requires a in phase && phase[a].PackLocked?
    requires b in phase && phase[b].PackLocked?
    ensures Keyed(plan, a) && Keyed(plan, b)
    ensures Key(plan, a) == Key(plan, b) ==> a == b
  {
    var i :| 0 <= i < |m.requests| && m.requests[i] == a;
    var j :| 0 <= j < |m.requests| && m.requests[j] == b;
  }

  lemma LastRequestSnoc(plan: Plan, requests: seq<Name>, n: Name, key: string)
    requires AllKeyed(plan, requests) && Keyed(plan, n) && AllKeyed(plan, requests + [n])
    ensures LastRequest(plan, requests + [n], key) == if Key(plan, n) == key then Some(n) else LastRequest(plan, requests, key)
  {
    assert (requests + [n])[..|requests|] == requests;
  }

  lemma RequestKeepsTails(plan: Plan, m: KeyedMutex, n: Name)
    requires Chains(plan, m.requests, m.tails, m.previous) && Keyed(plan, n) && n !in m.requests
    ensures var after := Request(m, n, Key(plan, n));
      && Distinct(after.requests) && AllKeyed(plan, after.requests)
      && forall k :: (if k in after.tails then Some(after.tails[k]) else None) == LastRequest(plan, after.requests, k)
  {
    var after := Request(m, n, Key(plan, n));
    AppendDistinct(m.requests, n);
    assert AllKeyed(plan, after.requests);
    forall k ensures (if k in after.tails then Some(after.tails[k]) else None) == LastRequest(plan, after.requests, k) {
      LastRequestSnoc(plan, m.requests, n, k);
    }
  }

  lemma RequestKeepsChains(plan: Plan, m: KeyedMutex, n: Name)
    requires Chains(plan, m.requests, m.tails, m.previous) && Keyed(plan, n) && n !in m.requests
    ensures var after := Request(m, n, Key(plan, n)); Chains(plan, after.requests, after.tails, after.previous)
  {
    RequestKeepsTails(plan, m, n);
    var after := Request(m, n, Key(plan, n));
    forall i | 0 <= i < |after.requests|
      ensures after.requests[i] in after.previous
      ensures after.previous[after.requests[i]] == LastRequest(plan, after.requests[..i], Key(plan, after.requests[i]))
    {
      assert after.requests[..i] == m.requests[..i];
      if i == |m.requests| {
        assert m.requests[..i] == m.requests;
      } else {
        assert after.requests[i] == m.requests[i] && m.requests[i] != n;
      }
    }
  }

  lemma RequestKeepsTurn(plan: Plan, phase: Phases, m: KeyedMutex, n: Name)
    requires AllKeyed(plan, m.requests) && Keyed(plan, n)
    requires Contenders(phase, m) && InTurn(plan, phase, m) && n in phase && phase[n].PackEntered?
    ensures AllKeyed(plan, Request(m, n, Key(plan, n)).requests)
    ensures InTurn(plan, phase[n := AwaitLock], Request(m, n, Key(plan, n)))
  {
    var requests, after := m.requests, m.requests + [n];
    assert n !in requests && n !in m.released;
    forall i, j | && 0 <= i < j < |after| && Key(plan, after[i]) == Key(plan, after[j])
                  && after[j] in phase[n := AwaitLock]
                  && (after[j] in m.released || phase[n := AwaitLock][after[j]].PackLocked?)
      ensures after[i] in m.released
    {
      assert after[j] != n;
      assert after[i] == requests[i] && after[j] == requests[j];
    }
  }

  lemma RequestKeepsContenders(phase: Phases, m: KeyedMutex, n: Name, key: string)
    requires Contenders(phase, m) && Distinct(m.requests) && n in phase && phase[n].PackEntered?
    ensures Contenders(phase[n := AwaitLock], Request(m, n, key))
  {
    AppendDistinct(m.requests, n);
    assert forall k :: k in m.requests + [n] <==> k in m.requests || k == n;
  }

  lemma RequestKeepsLocks(plan: Plan, phase: Phases, m: KeyedMutex, n: Name)
    requires Locks(plan, phase, m) && Keyed(plan, n) && phase[n].PackEntered?
    ensures Locks(plan, phase[n := AwaitLock], Request(m, n, Key(plan, n)))
  {
    RequestKeepsChains(plan, m, n);
    RequestKeepsTurn(plan, phase, m, n);
    RequestKeepsContenders(phase, m, n, Key(plan, n));
  }

  /** The request before the `j`-th of the same key, at its place in the list. */
  lemma PreviousRequest(plan: Plan, m: KeyedMutex, j: nat, i: nat) returns (at: nat)
    requires Chains(plan, m.requests, m.tails, m.previous) && i < j < |m.requests|
    requires Key(plan, m.requests[i]) == Key(plan, m.requests[j])
    ensures i <= at < j && Key(plan, m.requests[at]) == Key(plan, m.requests[j])
    ensures m.requests[j] in m.previous && m.previous[m.requests[j]] == Some(m.requests[at])
  {
    var before, key := m.requests[..j], Key(plan, m.requests[j]);
    LastRequestIsLatest(plan, before, key);
    assert before[i] == m.requests[i];
    var p := LastRequest(plan, before, key).value;
    at :| && 0 <= at < j && before[at] == p && Key(plan, p) == key
          && forall k :: at < k < j ==> Key(plan, before[k]) != key;
  }

  /** A request that may go on has only released requests of its key before it. */
  lemma LockFreeInTurn(plan: Plan, phase: Phases, m: KeyedMutex, j: nat, i: nat)
    requires Locks(plan, phase, m) && i < j < |m.requests| && LockFree(m, m.requests[j])
    requires Key(plan, m.requests[i]) == Key(plan, m.requests[j])
    ensures m.requests[i] in m.released
  {
    var at := PreviousRequest(plan, m, j, i);
    assert m.requests[at] in m.requests;
    assert m.requests[at] in m.released;
  }

  lemma AcquireKeepsLocks(plan: Plan, phase: Phases, m: KeyedMutex, n: Name)
    requires Locks(plan, phase, m) && n in phase && phase[n].AwaitLock? && LockFree(m, n)
    ensures Locks(plan, phase[n := PackLocked], m)
  {
    var after := phase[n := PackLocked];
    forall i, j | && 0 <= i < j < |m.requests| && Key(plan, m.requests[i]) == Key(plan, m.requests[j])
                  && m.requests[j] in after
                  && (m.requests[j] in m.released || after[m.requests[j]].PackLocked?)
      ensures m.requests[i] in m.released
    {
      if m.requests[j] == n {
        LockFreeInTurn(plan, phase, m, j, i);
      }
    }
  }

  lemma ReleaseKeepsLocks(plan: Plan, phase: Phases, m: KeyedMutex, n: Name)
    requires Locks(plan, phase, m) && n in phase && phase[n].PackLocked?
    ensures Locks(plan, phase[n := PackUnlocked], Unlock(m, n))
  {
    var after := Unlock(m, n);
    assert after.requests == m.requests;
    assert Contenders(phase[n := PackUnlocked], after);
    assert InTurn(plan, phase[n := PackUnlocked], after);
  }

  /** Phase changes of jobs that neither contend nor come to. */
  lemma MoveKeepsLocks(plan: Plan, phase: Phases, m: KeyedMutex, n: Name, p: Phase)
    requires Locks(plan, phase, m) && n in phase
    requires !Contends(phase[n]) && !Contends(p)
    requires BeforeRequest(p) ==> BeforeRequest(phase[n])
    ensures Locks(plan, phase[n := p], m)
  {
  }

  lemma LeaveKeepsLocks(plan: Plan, s: State)
    requires Locks(plan, s.phase, s.locks)
    requires s.slots.waiting != [] ==> s.slots.waiting[0] in s.phase && Queued(s.phase[s.slots.waiting[0]])
    ensures Locks(plan, Leave(s).phase, Leave(s).locks)
  {
    if s.slots.waiting != [] {
      var w := s.slots.waiting[0];
      MoveKeepsLocks(plan, s.phase, s.locks, w, Granted(s.phase[w]));
    }
  }

  lemma EnterKeepsLocks(plan: Plan, limit: nat, s: State, n: Name, queued: Phase)
    requires Locks(plan, s.phase, s.locks) && n in s.phase && !Contends(s.phase[n]) && Queued(queued)
    requires queued.AwaitPackSlot? ==> BeforeRequest(s.phase[n])
    ensures Locks(plan, Enter(limit, s, n, queued).phase, Enter(limit, s, n, queued).locks)
  {
    MoveKeepsLocks(plan, s.phase, s.locks, n, queued);
    MoveKeepsLocks(plan, s.phase, s.locks, n, Granted(queued));
  }

  lemma StepKeepsLocks(plan: Plan, limit: nat, s: State, n: Name)
    requires Locks(plan, s.phase, s.locks) && QueueIs(s.phase, s.slots.waiting) && Enabled(plan, s, n)
    ensures var after := Step(plan, limit, s, n); Locks(plan, after.phase, after.locks)
  {
    var job, ph, m := plan[n], s.phase, s.locks;
    match s.phase[n]
    case Start =>
      EnterKeepsLocks(plan, limit, s, n, AwaitPackSlot);
      MoveKeepsLocks(plan, ph, m, n, AwaitPrerequisites);
    case PackEntered =>
      if job.pack.Some? && job.pack.value.outcome == FailsBeforeLock {
        MoveKeepsLocks(plan, ph, m, n, Settling(false));
        LeaveKeepsLocks(plan, SetPhase(s, n, Settling(false)));
      } else if job.pack.Some? && job.pack.value.lock.Some? {
        RequestKeepsLocks(plan, ph, m, n);
      } else {
        MoveKeepsLocks(plan, ph, m, n, PackUnlocked);
      }
    case AwaitLock => AcquireKeepsLocks(plan, ph, m, n);
    case PackLocked => ReleaseKeepsLocks(plan, ph, m, n);
    case PackUnlocked =>
      var p := if PackSucceeds(job) then AwaitPrerequisites else Settling(false);
      MoveKeepsLocks(plan, ph, m, n, p);
      LeaveKeepsLocks(plan, SetPhase(s, n, p));
    case AwaitPrerequisites =>
      MoveKeepsLocks(plan, ph, m, n, Discarding);
      EnterKeepsLocks(plan, limit, s, n, AwaitPublishSlot);
    case Discarding => MoveKeepsLocks(plan, ph, m, n, Settling(false));
    case Publishing =>
      MoveKeepsLocks(plan, ph, m, n, Settling(job.publishes));
      LeaveKeepsLocks(plan, EndPublish(s, n, job.publishes));
    case Settling(ok) => MoveKeepsLocks(plan, ph, m, n, Settled(ok));
    case _ =>
  }

  /** A request all of whose predecessors have released can move. */
  lemma OldestContenderMoves(plan: Plan, s: State, i: nat)
    requires Locks(plan, s.phase, s.locks) && i < |s.locks.requests|
    requires s.locks.requests[i] !in s.locks.released
    requires forall k :: 0 <= k < i ==> s.locks.requests[k] in s.locks.released
    ensures Enabled(plan, s, s.locks.requests[i])
  {
    var requests := s.locks.requests;
    var m := requests[i];
    assert m in requests && m in s.phase && Contends(s.phase[m]);
    LastRequestIsLatest(plan, requests[..i], Key(plan, m));
  }

  lemma FirstUnreleased(requests: seq<Name>, released: set<Name>, n: Name) returns (i: nat)
    requires n in requests && n !in released
    ensures i < |requests| && requests[i] !in released
    ensures forall k :: 0 <= k < i ==> requests[k] in released
  {
    var at :| 0 <= at < |requests| && requests[at] == n;
    i := 0;
    while requests[i] in released
      invariant 0 <= i <= at
      invariant forall k :: 0 <= k < i ==> requests[k] in released
      decreases at - i
    {
      i := i + 1;
    }
  }

  /**
   Hold-and-wait does not deadlock: while anybody waits for a lock, the oldest
   request that has not released can move.
   */
  lemma SomeContenderMoves(plan: Plan, s: State, n: Name) returns (m: Name)
    requires Locks(plan, s.phase, s.locks) && n in s.phase && Contends(s.phase[n])
    ensures Enabled(plan, s, m)
  {
    var i := FirstUnreleased(s.locks.requests, s.locks.released, n);
    m := s.locks.requests[i];
    OldestContenderMoves(plan, s, i);
  }
}
