/** The semaphore over all runs: the slot count, the queue and FIFO order. */
module PublishSlots {
  import opened DependencyGraph
  import opened PublishProtocol

  type Phases = map<Name, Phase>

  ghost function Holders(phase: Phases): set<Name> {
    set n | n in phase && HoldsSlot(phase[n])
  }

  ghost predicate QueueIs(phase: Phases, waiting: seq<Name>) {
    && Distinct(waiting)
    && (forall n :: n in waiting <==> n in phase && Queued(phase[n]))
  }

  /**
   `owed` is 1 only between the end of a section and the release of its slot.
   The queue holds exactly the queued jobs, nobody waits while a slot is free,
   and the sections were granted in the order in which they asked.
   */
  ghost predicate Slots(limit: nat, phase: Phases, m: Semaphore, owed: nat) {
    && QueueIs(phase, m.waiting)
    && |Holders(phase)| + owed == m.active
    && m.active <= limit
    && (m.waiting != [] ==> m.active == limit)
    && m.arrivals == m.grants + m.waiting
  }

  /** A phase change that neither takes nor frees a slot. */
  lemma MoveKeepsSlots(limit: nat, phase: Phases, m: Semaphore, n: Name, p: Phase, owed: nat)
    requires Slots(limit, phase, m, owed) && n in phase
    requires !Queued(phase[n]) && !Queued(p)
    requires HoldsSlot(phase[n]) == HoldsSlot(p)
    ensures Slots(limit, phase[n := p], m, owed)
  {
    assert Holders(phase[n := p]) == Holders(phase);
  }

  lemma EndSectionOwesSlot(limit: nat, phase: Phases, m: Semaphore, n: Name, p: Phase)
    requires Slots(limit, phase, m, 0) && n in phase
    requires HoldsSlot(phase[n]) && !HoldsSlot(p) && !Queued(p)
    ensures Slots(limit, phase[n := p], m, 1)
  {
    assert Holders(phase[n := p]) == Holders(phase) - {n};
  }

  lemma AppendDistinct(q: seq<Name>, n: Name)
    requires Distinct(q) && n !in q
    ensures Distinct(q + [n])
    ensures forall m :: m in q + [n] <==> m in q || m == n
  {
  }

  lemma EnterKeepsSlots(limit: nat, s: State, n: Name, queued: Phase)
    requires Slots(limit, s.phase, s.slots, 0) && n in s.phase
    requires !HoldsSlot(s.phase[n]) && !Queued(s.phase[n]) && Queued(queued)
    ensures var after := Enter(limit, s, n, queued); Slots(limit, after.phase, after.slots, 0)
  {
    var m := s.slots;
    AppendDistinct(m.waiting, n);
    if m.active >= limit {
      assert Holders(s.phase[n := queued]) == Holders(s.phase);
      assert m.arrivals + [n] == m.grants + (m.waiting + [n]);
    } else {
      assert Holders(s.phase[n := Granted(queued)]) == Holders(s.phase) + {n};
      assert m.waiting == [];
    }
  }

  lemma DropHead(phase: Phases, waiting: seq<Name>, p: Phase)
    requires QueueIs(phase, waiting) && waiting != [] && !Queued(p)
    ensures QueueIs(phase[waiting[0] := p], waiting[1..])
  {
    assert waiting == [waiting[0]] + waiting[1..];
    assert waiting[0] !in waiting[1..];
  }

  lemma LeaveKeepsSlots(limit: nat, s: State)
    requires Slots(limit, s.phase, s.slots, 1)
    ensures var after := Leave(s); Slots(limit, after.phase, after.slots, 0)
  {
    var m := s.slots;
    if m.waiting != [] {
      var w := m.waiting[0];
      var p := Granted(s.phase[w]);
      DropHead(s.phase, m.waiting, p);
      assert w !in Holders(s.phase);
      assert Holders(s.phase[w := p]) == Holders(s.phase) + {w};
      assert m.arrivals == (m.grants + [w]) + m.waiting[1..];
    }
  }

  lemma StepKeepsSlots(plan: Plan, limit: nat, s: State, n: Name)
    requires Slots(limit, s.phase, s.slots, 0) && Enabled(plan, s, n)
    ensures var after := Step(plan, limit, s, n); Slots(limit, after.phase, after.slots, 0)
  {
    var job, ph, m := plan[n], s.phase, s.slots;
    match s.phase[n]
    case Start =>
      if job.pack.Some? {
        EnterKeepsSlots(limit, s, n, AwaitPackSlot);
      } else {
        MoveKeepsSlots(limit, ph, m, n, AwaitPrerequisites, 0);
      }
    case PackEntered =>
      if job.pack.Some? && job.pack.value.outcome == FailsBeforeLock {
        EndSectionOwesSlot(limit, ph, m, n, Settling(false));
        LeaveKeepsSlots(limit, SetPhase(s, n, Settling(false)));
      } else if job.pack.Some? && job.pack.value.lock.Some? {
        MoveKeepsSlots(limit, ph, m, n, AwaitLock, 0);
      } else {
        MoveKeepsSlots(limit, ph, m, n, PackUnlocked, 0);
      }
    case AwaitLock => MoveKeepsSlots(limit, ph, m, n, PackLocked, 0);
    case PackLocked => MoveKeepsSlots(limit, ph, m, n, PackUnlocked, 0);
    case PackUnlocked =>
      var p := if PackSucceeds(job) then AwaitPrerequisites else Settling(false);
      EndSectionOwesSlot(limit, ph, m, n, p);
      LeaveKeepsSlots(limit, SetPhase(s, n, p));
    case AwaitPrerequisites =>
      if Blocked(plan, s, n) {
        MoveKeepsSlots(limit, ph, m, n, Discarding, 0);
      } else {
        EnterKeepsSlots(limit, s, n, AwaitPublishSlot);
      }
    case Discarding => MoveKeepsSlots(limit, ph, m, n, Settling(false), 0);
    case Publishing =>
      EndSectionOwesSlot(limit, ph, m, n, Settling(job.publishes));
      LeaveKeepsSlots(limit, EndPublish(s, n, job.publishes));
    case Settling(ok) => MoveKeepsSlots(limit, ph, m, n, Settled(ok), 0);
    case _ =>
  }

  /**
   Histories only grow, and while a section is queued the next slot goes to the
   head of the queue: a newcomer never overtakes it.
   */
  lemma NoBarging(plan: Plan, limit: nat, s: State, n: Name)
    requires Slots(limit, s.phase, s.slots, 0) && Enabled(plan, s, n)
    ensures var m, after := s.slots, Step(plan, limit, s, n).slots;
      && m.grants <= after.grants && m.arrivals <= after.arrivals
      && (m.waiting != [] ==> after.grants == m.grants || after.grants == m.grants + [m.waiting[0]])
  {
  }
}
