/** Who asks for the pack lock: every job that packs under one, before it packs, and nobody else. */
module PublishRequests {
  import opened Wrappers
  import opened DependencyGraph
  import opened PublishProtocol
  import opened PublishSlots
  import opened PublishLocks

  /** A job that packs under a lock: it has a key and does not fail before it asks for it. */
  predicate PacksUnderLock(plan: Plan, n: Name) {
    Keyed(plan, n) && !plan[n].pack.value.outcome.FailsBeforeLock?
  }

  ghost predicate HasRequested(plan: Plan, phase: Phases, requests: seq<Name>, n: Name) {
    n in phase ==> (n in requests <==> PacksUnderLock(plan, n) && !BeforeRequest(phase[n]))
  }

  /** Exactly the jobs that pack under a lock ask for it, each before it goes on. */
  ghost predicate Requested(plan: Plan, phase: Phases, requests: seq<Name>) {
    forall n :: HasRequested(plan, phase, requests, n)
  }

  /** Phase changes of jobs that have asked, or have not and need not. */
  lemma MoveKeepsRequests(plan: Plan, phase: Phases, requests: seq<Name>, n: Name, p: Phase)
    requires Requested(plan, phase, requests) && n in phase
    requires PacksUnderLock(plan, n) ==> (BeforeRequest(p) <==> BeforeRequest(phase[n]))
    ensures Requested(plan, phase[n := p], requests)
  {
    var after := phase[n := p];
    forall m ensures HasRequested(plan, after, requests, m) {
      assert HasRequested(plan, phase, requests, m) && HasRequested(plan, phase, requests, n);
    }
  }

  lemma RequestIsRecorded(plan: Plan, phase: Phases, requests: seq<Name>, n: Name)
    requires Requested(plan, phase, requests) && n in phase && PacksUnderLock(plan, n)
    ensures Requested(plan, phase[n := AwaitLock], requests + [n])
  {
    var after, more := phase[n := AwaitLock], requests + [n];
    forall m ensures HasRequested(plan, after, more, m) {
      assert HasRequested(plan, phase, requests, m);
    }
  }

  lemma LeaveKeepsRequests(plan: Plan, s: State)
    requires Requested(plan, s.phase, s.locks.requests)
    requires s.slots.waiting != [] ==> s.slots.waiting[0] in s.phase && Queued(s.phase[s.slots.waiting[0]])
    ensures Requested(plan, Leave(s).phase, Leave(s).locks.requests)
  {
    hide Requested;
    if s.slots.waiting != [] {
      var w := s.slots.waiting[0];
      MoveKeepsRequests(plan, s.phase, s.locks.requests, w, Granted(s.phase[w]));
    }
  }

  lemma EndKeepsRequests(plan: Plan, s: State, t: State, n: Name, p: Phase)
    requires Requested(plan, s.phase, s.locks.requests) && QueueIs(s.phase, s.slots.waiting) && n in s.phase && !Queued(s.phase[n])
    requires t.phase == s.phase[n := p] && t.locks.requests == s.locks.requests && t.slots == s.slots
    requires PacksUnderLock(plan, n) ==> (BeforeRequest(p) <==> BeforeRequest(s.phase[n]))
    ensures t.slots.waiting != [] ==> t.slots.waiting[0] in t.phase
    ensures Requested(plan, Leave(t).phase, Leave(t).locks.requests)
  {
    hide Requested, Leave;
    MoveKeepsRequests(plan, s.phase, s.locks.requests, n, p);
    assert s.slots.waiting != [] ==> s.slots.waiting[0] in s.slots.waiting;
    LeaveKeepsRequests(plan, t);
  }

  lemma EnterKeepsRequests(plan: Plan, limit: nat, s: State, n: Name, queued: Phase)
    requires Requested(plan, s.phase, s.locks.requests) && n in s.phase && Queued(queued)
    requires queued.AwaitPackSlot? <==> BeforeRequest(s.phase[n])
    ensures Requested(plan, Enter(limit, s, n, queued).phase, Enter(limit, s, n, queued).locks.requests)
  {
    hide Requested;
    MoveKeepsRequests(plan, s.phase, s.locks.requests, n, queued);
    MoveKeepsRequests(plan, s.phase, s.locks.requests, n, Granted(queued));
  }

  lemma StepKeepsRequests(plan: Plan, limit: nat, s: State, n: Name)
    requires Requested(plan, s.phase, s.locks.requests) && QueueIs(s.phase, s.slots.waiting) && Enabled(plan, s, n)
    requires s.slots.waiting != [] ==> s.slots.waiting[0] in s.phase
    ensures var after := Step(plan, limit, s, n); Requested(plan, after.phase, after.locks.requests)
  {
    hide Requested, Enter, Leave, QueueIs;
    var job, ph, requests := plan[n], s.phase, s.locks.requests;
    match s.phase[n]
    case Start =>
      if job.pack.Some? {
        EnterKeepsRequests(plan, limit, s, n, AwaitPackSlot);
      } else {
        MoveKeepsRequests(plan, ph, requests, n, AwaitPrerequisites);
      }
    case PackEntered =>
      if job.pack.Some? && job.pack.value.outcome == FailsBeforeLock {
        EndKeepsRequests(plan, s, SetPhase(s, n, Settling(false)), n, Settling(false));
      } else if job.pack.Some? && job.pack.value.lock.Some? {
        RequestIsRecorded(plan, ph, requests, n);
      } else {
        MoveKeepsRequests(plan, ph, requests, n, PackUnlocked);
      }
    case AwaitLock => MoveKeepsRequests(plan, ph, requests, n, PackLocked);
    case PackLocked => MoveKeepsRequests(plan, ph, requests, n, PackUnlocked);
    case PackUnlocked =>
      var p := if PackSucceeds(job) then AwaitPrerequisites else Settling(false);
      EndKeepsRequests(plan, s, SetPhase(s, n, p), n, p);
    case AwaitPrerequisites =>
      MoveKeepsRequests(plan, ph, requests, n, Discarding);
      EnterKeepsRequests(plan, limit, s, n, AwaitPublishSlot);
    case Discarding => MoveKeepsRequests(plan, ph, requests, n, Settling(false));
    case Publishing => EndKeepsRequests(plan, s, EndPublish(s, n, job.publishes), n, Settling(job.publishes));
    case Settling(ok) => MoveKeepsRequests(plan, ph, requests, n, Settled(ok));
    case _ =>
  }

  /** A job that packs under a lock and is past packing has asked for the lock, has had it and has given it back. */
  lemma PackedUnderLock(plan: Plan, phase: Phases, m: KeyedMutex, n: Name)
    requires Locks(plan, phase, m) && Requested(plan, phase, m.requests)
    requires n in phase && PacksUnderLock(plan, n) && !BeforeRequest(phase[n]) && !Contends(phase[n])
    ensures n in m.requests && n in m.released
  {
    hide Chains, InTurn;
    assert HasRequested(plan, phase, m.requests, n);
  }
}
