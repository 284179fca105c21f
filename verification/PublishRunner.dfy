/** `runPublishJobs` with its mutable semaphore, lock chains and job phases. */
module PublishRunner {
  import opened Wrappers
  import opened DependencyGraph
  import opened PublishProtocol
  import opened PublishSlots
  import opened PublishLocks
  import opened PublishRequests
  import opened PublishOutcome
  import opened PublishRuns

  ghost predicate UniqueNames(jobs: seq<Job>) {
    forall i, j :: 0 <= i < j < |jobs| ==> jobs[i].name != jobs[j].name
  }

  /** The job map: of two jobs with one name the later wins. */
  function ByName(jobs: seq<Job>): Plan {
    if jobs == [] then map[]
    else ByName(jobs[..|jobs| - 1])[jobs[|jobs| - 1].name := jobs[|jobs| - 1]]
  }

  lemma {:induction false} ByNameFinds(jobs: seq<Job>)
    requires UniqueNames(jobs)
    ensures forall i :: 0 <= i < |jobs| ==> jobs[i].name in ByName(jobs) && ByName(jobs)[jobs[i].name] == jobs[i]
    ensures forall n :: n in ByName(jobs) ==> exists i :: 0 <= i < |jobs| && jobs[i].name == n
  {
    if jobs != [] {
      var front := jobs[..|jobs| - 1];
      ByNameFinds(front);
      forall n | n in ByName(jobs) ensures exists i :: 0 <= i < |jobs| && jobs[i].name == n {
        if n == jobs[|jobs| - 1].name {
        } else {
          assert n in ByName(front);
          var i :| 0 <= i < |front| && front[i].name == n;
          assert jobs[i].name == n;
        }
      }
    }
  }

  /** The names, in input order, of the jobs that do not publish. */
  ghost function Unpublished(plan: Plan, jobs: seq<Job>): seq<Name>
    requires forall i :: 0 <= i < |jobs| ==> jobs[i].name in plan
  {
    if jobs == [] then []
    else
      var last := jobs[|jobs| - 1];
      Unpublished(plan, jobs[..|jobs| - 1]) + if MustPublish(plan, last.name) then [] else [last.name]
  }

  lemma {:induction false} UnpublishedAre(plan: Plan, jobs: seq<Job>, n: Name)
    requires forall i :: 0 <= i < |jobs| ==> jobs[i].name in plan
    ensures n in Unpublished(plan, jobs) <==> (exists i :: 0 <= i < |jobs| && jobs[i].name == n) && FailsSomewhere(plan, n)
  {
    hide FailsSomewhere, MustPublish;
    if jobs != [] {
      var k := |jobs| - 1;
      UnpublishedAre(plan, jobs[..k], n);
      PromiseOrFailure(plan, jobs[k].name);
      if i :| 0 <= i < |jobs| && jobs[i].name == n {
        assert i < k ==> jobs[..k][i].name == n;
      }
      if i :| 0 <= i < |jobs[..k]| && jobs[..k][i].name == n {
        assert jobs[i].name == n;
      }
    }
  }

  /** The names are those of the jobs that fail or depend on one that does. */
  ghost predicate ListsFailures(plan: Plan, jobs: seq<Job>, names: seq<Name>) {
    forall n :: n in names <==> (exists i :: 0 <= i < |jobs| && jobs[i].name == n) && FailsSomewhere(plan, n)
  }

  lemma UnpublishedFail(plan: Plan, jobs: seq<Job>)
    requires forall i :: 0 <= i < |jobs| ==> jobs[i].name in plan
    ensures ListsFailures(plan, jobs, Unpublished(plan, jobs))
  {
    hide FailsSomewhere, Unpublished;
    forall n
      ensures n in Unpublished(plan, jobs) <==> (exists i :: 0 <= i < |jobs| && jobs[i].name == n) && FailsSomewhere(plan, n)
    {
      UnpublishedAre(plan, jobs, n);
    }
  }

  ghost predicate Failed(p: Phase) {
    p == Settling(false) || p == Settled(false)
  }

  lemma LeaveFailsNobody(s: State, m: Name)
    requires s.slots.waiting != [] ==> s.slots.waiting[0] in s.phase && Queued(s.phase[s.slots.waiting[0]])
    requires m in s.phase
    ensures m in Leave(s).phase && (Failed(Leave(s).phase[m]) <==> Failed(s.phase[m]))
  {
  }

  /** A job counts as failed from the step that enters `Settling(false)` on, and no other job does. */
  lemma StepFailures(plan: Plan, limit: nat, s: State, n: Name, m: Name)
    requires s.phase.Keys == plan.Keys && Enabled(plan, s, n) && m in plan
    requires s.slots.waiting != [] ==>
      s.slots.waiting[0] in s.phase && s.slots.waiting[0] != n && Queued(s.phase[s.slots.waiting[0]])
    ensures var after := Step(plan, limit, s, n).phase;
      && m in after && (m != n ==> (Failed(after[m]) <==> Failed(s.phase[m])))
      && (m == n ==> (Failed(after[m]) <==> Failed(s.phase[m]) || after[m] == Settling(false)))
  {
    match s.phase[n]
    case PackEntered => LeaveFailsNobody(SetPhase(s, n, Settling(false)), m);
    case PackUnlocked =>
      LeaveFailsNobody(SetPhase(s, n, if PackSucceeds(plan[n]) then AwaitPrerequisites else Settling(false)), m);
    case Publishing => LeaveFailsNobody(EndPublish(s, n, plan[n].publishes), m);
    case _ =>
  }

  lemma {:induction false} FailedAreUnpublished(plan: Plan, jobs: seq<Job>, s: State, failed: set<Name>)
    requires Outcomes(plan, s) && AllSettled(s)
    requires forall n :: n in failed <==> n in s.phase && Failed(s.phase[n])
    requires forall i :: 0 <= i < |jobs| ==> jobs[i].name in plan
    ensures forall i :: 0 <= i < |jobs| ==> (jobs[i].name in failed <==> !MustPublish(plan, jobs[i].name))
  {
    forall i | 0 <= i < |jobs| ensures jobs[i].name in failed <==> !MustPublish(plan, jobs[i].name) {
      assert JobOutcome(plan, s, jobs[i].name);
    }
  }

  /** Giving a slot back moves nobody but the head of the queue. */
  lemma LeaveSparesOthers(s: State, n: Name)
    requires n in s.phase && (s.slots.waiting != [] ==> s.slots.waiting[0] in s.phase && s.slots.waiting[0] != n)
    ensures n in Leave(s).phase && Leave(s).phase[n] == s.phase[n]
  {
  }

  lemma EnterFailsNobody(limit: nat, s: State, n: Name, queued: Phase)
    requires Queued(queued)
    ensures n in Enter(limit, s, n, queued).phase && !Enter(limit, s, n, queued).phase[n].Settling?
  {
  }

  class Publisher {
    const plan: Plan
    const limit: nat
    var active: int
    var waiting: seq<Name>
    var tails: map<string, Name>
    var previous: map<Name, Option<Name>>
    var released: set<Name>
    var phase: map<Name, Phase>
    var failed: set<Name>
    ghost var arrivals: seq<Name>
    ghost var grants: seq<Name>
    ghost var requests: seq<Name>
    ghost var started: set<Name>
    ghost var published: set<Name>
    ghost var discarded: set<Name>
    ghost var schedule: seq<Name>

    ghost function View(): State
      reads this
    {
      State(
        Semaphore(active, waiting, arrivals, grants),
        KeyedMutex(tails, previous, released, requests),
        phase, started, published, discarded)
    }

    /** What has happened so far is a run of the protocol, and this is the state it has reached. */
    ghost predicate Running()
      reads this
    {
      IsRun(plan, limit, schedule) && Reached(plan, limit, schedule) == View()
    }

    /** The failed set holds exactly the jobs that ended in the error handler. */
    ghost predicate Valid()
      reads this
    {
      && Invariant(plan, limit, View())
      && (forall n :: n in failed <==> n in phase && Failed(phase[n]))
    }

    constructor (plan: Plan, limit: nat)
      ensures this.plan == plan && this.limit == limit
      ensures View() == Initial(plan, limit) && Valid() && Running()
    {
      this.plan, this.limit := plan, limit;
      active, waiting := 0, [];
      tails, previous, released := map[], map[], {};
      phase := map n | n in plan :: Start;
      failed := {};
      arrivals, grants, requests := [], [], [];
      started, published, discarded := {}, {}, {};
      schedule := [];
    }

    method Grant(n: Name, queued: Phase)
      modifies `phase, `started
      ensures View() == PublishProtocol.Grant(old(View()), n, queued)
    {
      phase := phase[n := Granted(queued)];
      if Granted(queued).Publishing? {
        started := started + {n};
      }
    }

    /** The semaphore's entry: take a free slot or queue. */
    method Enter(n: Name, queued: Phase)
      modifies `active, `waiting, `phase, `arrivals, `grants, `started
      ensures View() == PublishProtocol.Enter(limit, old(View()), n, queued)
    {
      arrivals := arrivals + [n];
      if active >= limit {
        waiting := waiting + [n];
        phase := phase[n := queued];
      } else {
        active := active + 1;
        grants := grants + [n];
        Grant(n, queued);
      }
    }

    /** The semaphore's exit: hand the slot to the queue or free it. */
    method Leave()
      requires waiting != [] ==> waiting[0] in phase
      modifies `active, `waiting, `phase, `grants, `started
      ensures View() == PublishProtocol.Leave(old(View()))
    {
      if waiting != [] {
        var next := waiting[0];
        waiting := waiting[1..];
        grants := grants + [next];
        Grant(next, phase[next]);
      } else {
        active := active - 1;
      }
    }

    method RequestLock(n: Name, key: string)
      modifies `tails, `previous, `phase, `requests
      ensures var before := old(View());
        View() == SetPhase(before, n, AwaitLock).(locks := Request(before.locks, n, key))
    {
      previous := previous[n := if key in tails then Some(tails[key]) else None];
      tails := tails[key := n];
      requests := requests + [n];
      phase := phase[n := AwaitLock];
    }

    method Fail(n: Name)
      modifies `phase, `failed
      ensures View() == SetPhase(old(View()), n, Settling(false)) && failed == old(failed) + {n}
    {
      failed := failed + {n};
      phase := phase[n := Settling(false)];
    }

    /** The publish action has ended: record it and give the slot back. */
    method FinishPublish(n: Name)
      requires n in plan && n in phase && HeadWaits(n)
      modifies this
      ensures View() == PublishProtocol.Leave(EndPublish(old(View()), n, plan[n].publishes))
      ensures failed == if plan[n].publishes then old(failed) else old(failed) + {n}
      ensures schedule == old(schedule)
    {
      if plan[n].publishes {
        published := published + {n};
        phase := phase[n := Settling(true)];
      } else {
        Fail(n);
      }
      Leave();
    }

    /** The pack action has ended: give the slot back, having gone on or failed. */
    method FinishPack(n: Name, packed: bool)
      requires n in phase && HeadWaits(n)
      modifies this
      ensures View() == PublishProtocol.Leave(SetPhase(old(View()), n, if packed then AwaitPrerequisites else Settling(false)))
      ensures n in phase && phase[n] == if packed then AwaitPrerequisites else Settling(false)
      ensures failed == if packed then old(failed) else old(failed) + {n}
      ensures schedule == old(schedule)
    {
      hide PublishProtocol.Leave;
      if packed {
        phase := phase[n := AwaitPrerequisites];
      } else {
        Fail(n);
      }
      LeaveSparesOthers(View(), n);
      Leave();
    }

    /** What the caller of a step knows of the head of the queue. */
    predicate HeadWaits(n: Name)
      reads this
    {
      waiting != [] ==> waiting[0] in phase && waiting[0] != n && Queued(phase[waiting[0]])
    }

    /** One step of the packing half of a job. */
    method AdvancePack(n: Name)
      requires Enabled(plan, View(), n) && HeadWaits(n)
      requires phase[n].PackEntered? || phase[n].AwaitLock? || phase[n].PackLocked? || phase[n].PackUnlocked?
      modifies this
      ensures View() == Step(plan, limit, old(View()), n)
      ensures failed == if phase[n] == Settling(false) then old(failed) + {n} else old(failed)
      ensures schedule == old(schedule)
    {
      hide PublishProtocol.Enter, PublishProtocol.Leave, PublishProtocol.Grant;
      var job := plan[n];
      match phase[n]
      case PackEntered =>
        if job.pack.Some? && job.pack.value.outcome == FailsBeforeLock {
          FinishPack(n, false);
        } else if job.pack.Some? && job.pack.value.lock.Some? {
          RequestLock(n, job.pack.value.lock.value);
        } else {
          phase := phase[n := PackUnlocked];
        }
      case AwaitLock => phase := phase[n := PackLocked];
      case PackLocked =>
        released := released + {n};
        phase := phase[n := PackUnlocked];
      case PackUnlocked =>
        FinishPack(n, PackSucceeds(job));
    }

    /** One step of a job that holds no pack slot. */
    method AdvancePublish(n: Name)
      requires Enabled(plan, View(), n) && HeadWaits(n)
      requires !(phase[n].PackEntered? || phase[n].AwaitLock? || phase[n].PackLocked? || phase[n].PackUnlocked?)
      modifies this
      ensures View() == Step(plan, limit, old(View()), n)
      ensures failed == if phase[n] == Settling(false) then old(failed) + {n} else old(failed)
      ensures schedule == old(schedule)
    {
      hide PublishProtocol.Enter, PublishProtocol.Leave, PublishProtocol.Grant;
      var job := plan[n];
      match phase[n]
      case Start =>
        if job.pack.Some? {
          EnterFailsNobody(limit, View(), n, AwaitPackSlot);
          Enter(n, AwaitPackSlot);
        } else {
          phase := phase[n := AwaitPrerequisites];
        }
      case AwaitPrerequisites =>
        var blocked := exists d :: d in job.dependsOn && Prerequisite(plan, n, d) && d in phase && phase[d] == Settled(false);
        if blocked {
          discarded := discarded + {n};
          phase := phase[n := Discarding];
        } else {
          EnterFailsNobody(limit, View(), n, AwaitPublishSlot);
          Enter(n, AwaitPublishSlot);
        }
      case Discarding => Fail(n);
      case Publishing =>
        LeaveSparesOthers(EndPublish(View(), n, job.publishes), n);
        FinishPublish(n);
      case Settling(ok) => phase := phase[n := Settled(ok)];
    }

    /** One step of one job. */
    method Advance(n: Name)
      requires Valid() && Running() && Enabled(plan, View(), n)
      modifies this
      ensures View() == Step(plan, limit, old(View()), n) && Valid()
      ensures Running() && schedule == old(schedule) + [n]
    {
      ghost var before, failedBefore := View(), failed;
      assert waiting != [] ==> waiting[0] in waiting;
      if phase[n].PackEntered? || phase[n].AwaitLock? || phase[n].PackLocked? || phase[n].PackUnlocked? {
        AdvancePack(n);
      } else {
        AdvancePublish(n);
      }
      StepKeepsInvariant(plan, limit, before, n);
      forall m ensures m in failed <==> m in phase && Failed(phase[m]) {
        assert m in failedBefore <==> m in before.phase && Failed(before.phase[m]);
        if m in plan {
          StepFailures(plan, limit, before, n, m);
        }
      }
      ScheduleSnoc(plan, limit, Initial(plan, limit), schedule, n);
      schedule := schedule + [n];
    }

    /** The jobs that can move now. */
    method Ready() returns (ready: set<Name>)
      ensures forall n :: n in ready <==> Enabled(plan, View(), n)
    {
      ready := set n | n in phase && n in plan && (
        match phase[n]
        case AwaitLock => n in previous && (previous[n].None? || previous[n].value in released)
        case AwaitPrerequisites =>
          (forall d :: d in plan[n].dependsOn && Prerequisite(plan, n, d) ==> d in phase && phase[d].Settled?)
        case AwaitPackSlot => false
        case AwaitPublishSlot => false
        case Settled(_) => false
        case _ => true);
    }

    /** One step of some job that can move, chosen arbitrarily. */
    method AdvanceAny(ready: set<Name>, ghost names: seq<Name>)
      requires Valid() && Running() && ready != {} && (forall n :: n in ready ==> Enabled(plan, View(), n))
      requires forall n :: n in plan ==> n in names
      modifies this
      ensures Valid() && Running() && Remaining(names, phase) < old(Remaining(names, phase))
    {
      var n :| n in ready;
      ghost var before := View();
      StepDescends(plan, limit, before, n);
      Advance(n);
      RemainingFalls(names, before.phase, phase, n);
    }

    /** Drives every job to its end, whatever the interleaving. */
    method RunToEnd(ghost names: seq<Name>)
      requires Valid() && Running() && limit >= 1
      requires exists order :: Topological(GraphOf(plan), order)
      requires forall n :: n in plan ==> n in names
      modifies this
      ensures Valid() && Running() && AllSettled(View())
    {
      var ready := Ready();
      while ready != {}
        invariant Valid() && Running()
        invariant forall n :: n in ready <==> Enabled(plan, View(), n)
        decreases Remaining(names, phase)
      {
        AdvanceAny(ready, names);
        ready := Ready();
      }
      StuckOnlyWhenSettled(plan, limit, View());
    }

    /** The failed names in input order. */
    method FailedNames(jobs: seq<Job>) returns (names: seq<Name>)
      requires Valid() && AllSettled(View())
      requires forall i :: 0 <= i < |jobs| ==> jobs[i].name in plan
      ensures names == Unpublished(plan, jobs)
    {
      FailedAreUnpublished(plan, jobs, View(), failed);
      names := [];
      for i := 0 to |jobs|
        invariant names == Unpublished(plan, jobs[..i])
      {
        if jobs[i].name in failed {
          names := names + [jobs[i].name];
        }
        assert jobs[..i + 1][..i] == jobs[..i];
      }
      assert jobs[..|jobs|] == jobs;
    }
  }

  /** The schedule is a run of the protocol from its start to its end. */
  ghost predicate FinishedRunOf(plan: Plan, limit: nat, schedule: seq<Name>) {
    IsRun(plan, limit, schedule) && AllSettled(Reached(plan, limit, schedule))
  }

  /**
   Runs every job to its end under an arbitrary scheduler. A dependency cycle
   is an error; otherwise the result lists, in input order, the jobs that did
   not publish: those whose own phases fail or that depend on such a job. What
   it did is a run of the protocol with as many slots as asked for, one at least.
   */
  method RunPublishJobs(jobs: seq<Job>, concurrency: int) returns (r: Result<seq<Name>, seq<Name>>, ghost schedule: seq<Name>)
    requires UniqueNames(jobs)
    ensures r.Err? <==> Cyclic(GraphOf(ByName(jobs)))
    ensures r.Err? ==> ClosesCycle(GraphOf(ByName(jobs)), r.error)
    ensures forall i :: 0 <= i < |jobs| ==> jobs[i].name in ByName(jobs)
    ensures r.Ok? ==> r.value == Unpublished(ByName(jobs), jobs)
    ensures r.Ok? ==> ListsFailures(ByName(jobs), jobs, r.value)
    ensures r.Ok? ==> FinishedRunOf(ByName(jobs), if concurrency < 1 then 1 else concurrency, schedule)
  {
    hide ListsFailures, Unpublished, ByName;
    var plan := ByName(jobs);
    ByNameFinds(jobs);
    var names := seq(|jobs|, i requires 0 <= i < |jobs| => jobs[i].name);
    assert forall i :: 0 <= i < |jobs| ==> names[i] == jobs[i].name;
    var cycle, order := AssertAcyclic(names, GraphOf(plan));
    if cycle.Some? {
      return Err(cycle.value), [];
    }
    var limit := if concurrency > 1 then concurrency else 1;
    var run := new Publisher(plan, limit);
    run.RunToEnd(names);
    var failed := run.FailedNames(jobs);
    UnpublishedFail(plan, jobs);
    return Ok(failed), run.schedule;
  }
}
