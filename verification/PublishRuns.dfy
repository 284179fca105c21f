/** Whole runs of the publisher: safety, progress, termination and schedule independence. */
module PublishRuns {
  import opened DependencyGraph
  import opened PublishProtocol
  import opened PublishSlots
  import opened PublishLocks
  import opened PublishRequests
  import opened PublishOutcome

  ghost predicate Invariant(plan: Plan, limit: nat, s: State) {
    && Slots(limit, s.phase, s.slots, 0)
    && Locks(plan, s.phase, s.locks)
    && Requested(plan, s.phase, s.locks.requests)
    && Outcomes(plan, s)
  }

  /** Every run starts here. */
  ghost function Initial(plan: Plan, limit: nat): (s: State)
    ensures Invariant(plan, limit, s)
  {
    assert Holders(Init(plan).phase) == {};
    Init(plan)
  }

  lemma StepKeepsInvariant(plan: Plan, limit: nat, s: State, n: Name)
    requires Invariant(plan, limit, s) && Enabled(plan, s, n)
    ensures Invariant(plan, limit, Step(plan, limit, s, n))
  {
    StepKeepsSlots(plan, limit, s, n);
    StepKeepsLocks(plan, limit, s, n);
    StepKeepsRequests(plan, limit, s, n);
    StepKeepsOutcomes(plan, limit, s, n);
  }

  // ---- schedules ----

  /** `schedule` names, step by step, an enabled job. */
  ghost predicate IsSchedule(plan: Plan, limit: nat, s: State, schedule: seq<Name>)
    requires Invariant(plan, limit, s)
    decreases |schedule|
  {
    schedule == [] ||
    (&& Enabled(plan, s, schedule[0])
     && (StepKeepsInvariant(plan, limit, s, schedule[0]);
         IsSchedule(plan, limit, Step(plan, limit, s, schedule[0]), schedule[1..])))
  }

  /** The state after a schedule. */
  ghost function After(plan: Plan, limit: nat, s: State, schedule: seq<Name>): (t: State)
    requires Invariant(plan, limit, s) && IsSchedule(plan, limit, s, schedule)
    ensures Invariant(plan, limit, t)
    decreases |schedule|
  {
    if schedule == [] then s
    else
      StepKeepsInvariant(plan, limit, s, schedule[0]);
      After(plan, limit, Step(plan, limit, s, schedule[0]), schedule[1..])
  }

  lemma HeadIsThere(plan: Plan, limit: nat, s: State)
    requires Invariant(plan, limit, s)
    ensures s.slots.waiting != [] ==> s.slots.waiting[0] in s.phase
  {
    hide Locks, Requested, Outcomes;
    assert s.slots.waiting != [] ==> s.slots.waiting[0] in s.slots.waiting;
  }

  lemma {:induction false} ScheduleSnoc(plan: Plan, limit: nat, s: State, schedule: seq<Name>, n: Name)
    requires Invariant(plan, limit, s) && IsSchedule(plan, limit, s, schedule)
    requires Enabled(plan, After(plan, limit, s, schedule), n)
    ensures Invariant(plan, limit, Step(plan, limit, After(plan, limit, s, schedule), n))
    ensures IsSchedule(plan, limit, s, schedule + [n])
    ensures After(plan, limit, s, schedule + [n]) == Step(plan, limit, After(plan, limit, s, schedule), n)
    decreases |schedule|
  {
    hide Step, Enabled, Slots, Locks, Requested, Outcomes;
    HeadIsThere(plan, limit, s);
    HeadIsThere(plan, limit, After(plan, limit, s, schedule));
    StepKeepsInvariant(plan, limit, After(plan, limit, s, schedule), n);
    var next := schedule + [n];
    if schedule == [] {
      assert next[1..] == [];
    } else {
      StepKeepsInvariant(plan, limit, s, schedule[0]);
      ScheduleSnoc(plan, limit, Step(plan, limit, s, schedule[0]), schedule[1..], n);
      assert next[1..] == schedule[1..] + [n];
    }
  }

  /** A run from the start, and the state it reaches. */
  ghost predicate IsRun(plan: Plan, limit: nat, schedule: seq<Name>) {
    IsSchedule(plan, limit, Initial(plan, limit), schedule)
  }

  ghost function Reached(plan: Plan, limit: nat, schedule: seq<Name>): (s: State)
    requires IsRun(plan, limit, schedule)
    ensures Invariant(plan, limit, s)
  {
    After(plan, limit, Initial(plan, limit), schedule)
  }

  ghost predicate Stuck(plan: Plan, s: State) {
    forall n :: !Enabled(plan, s, n)
  }

  // ---- progress ----

  /** With every slot free, the first unsettled job of a topological order can move. */
  lemma FirstUnsettledMoves(plan: Plan, s: State, order: seq<Name>, at: nat) returns (n: Name)
    requires s.phase.Keys == plan.Keys && DependenciesFirst(GraphOf(plan), order)
    requires forall k :: 0 <= k < |order| ==> order[k] in s.phase
    requires at < |order| && !s.phase[order[at]].Settled?
    requires forall m :: m in s.phase ==> !HoldsSlot(s.phase[m]) && !Queued(s.phase[m])
    ensures Enabled(plan, s, n)
  {
    var i := 0;
    while s.phase[order[i]].Settled?
      invariant 0 <= i <= at
      invariant forall k :: 0 <= k < i ==> s.phase[order[k]].Settled?
      decreases at - i
    {
      i := i + 1;
    }
    n := order[i];
    forall d | Prerequisite(plan, n, d) ensures s.phase[d].Settled? {
      assert Edge(GraphOf(plan), order[i], d);
      assert d in order[..i];
    }
  }

  lemma IndexOf(plan: Plan, order: seq<Name>, u: Name) returns (at: nat)
    requires Topological(GraphOf(plan), order) && u in plan
    ensures at < |order| && order[at] == u
    ensures forall k :: 0 <= k < |order| ==> order[k] in plan
  {
    assert u in order;
    at :| 0 <= at < |order| && order[at] == u;
    forall k | 0 <= k < |order| ensures order[k] in plan {
      assert order[k] in order;
    }
  }

  /** While some job has not settled, some job can move. */
  lemma Progress(plan: Plan, limit: nat, s: State, order: seq<Name>) returns (n: Name)
    requires Slots(limit, s.phase, s.slots, 0) && Locks(plan, s.phase, s.locks) && limit >= 1
    requires Topological(GraphOf(plan), order)
    requires !AllSettled(s)
    ensures Enabled(plan, s, n)
  {
    if c :| c in s.phase && Contends(s.phase[c]) {
      n := SomeContenderMoves(plan, s, c);
    } else if h :| h in s.phase && HoldsSlot(s.phase[h]) {
      n := h;
    } else {
      assert Holders(s.phase) == {};
      assert s.slots.waiting == [];
      var u :| u in s.phase && !s.phase[u].Settled?;
      var at := IndexOf(plan, order, u);
      n := FirstUnsettledMoves(plan, s, order, at);
    }
  }

  /** Without an enabled job everything has settled, although packing waits for a lock while it holds a slot. */
  lemma StuckOnlyWhenSettled(plan: Plan, limit: nat, s: State)
    requires Invariant(plan, limit, s) && limit >= 1
    requires exists order :: Topological(GraphOf(plan), order)
    ensures Stuck(plan, s) <==> AllSettled(s)
  {
    if !AllSettled(s) {
      var order :| Topological(GraphOf(plan), order);
      var n := Progress(plan, limit, s, order);
    }
  }

  // ---- termination ----

  const LONGEST_JOB := 11

  function Rank(p: Phase): nat {
    match p
    case Start => 11
    case AwaitPackSlot => 10
    case PackEntered => 9
    case AwaitLock => 8
    case PackLocked => 7
    case PackUnlocked => 6
    case AwaitPrerequisites => 5
    case AwaitPublishSlot => 4
    case Publishing => 3
    case Discarding => 3
    case Settling(_) => 2
    case Settled(_) => 0
  }

  /** What is left to do over the jobs listed in `names`. */
  ghost function Remaining(names: seq<Name>, phase: Phases): nat {
    if names == [] then 0
    else (if names[0] in phase then Rank(phase[names[0]]) else 0) + Remaining(names[1..], phase)
  }

  lemma {:induction false} RemainingFalls(names: seq<Name>, phase: Phases, after: Phases, n: Name)
    requires after.Keys == phase.Keys
    requires forall m :: m in phase ==> Rank(after[m]) <= Rank(phase[m])
    requires n in phase && Rank(after[n]) < Rank(phase[n])
    ensures Remaining(names, after) <= Remaining(names, phase)
    ensures n in names ==> Remaining(names, after) < Remaining(names, phase)
  {
    if names != [] {
      RemainingFalls(names[1..], phase, after, n);
    }
  }

  lemma {:induction false} RemainingBounded(names: seq<Name>, phase: Phases)
    ensures Remaining(names, phase) <= LONGEST_JOB * |names|
  {
    if names != [] {
      RemainingBounded(names[1..], phase);
    }
  }

  ghost predicate NoneRises(phase: Phases, after: Phases) {
    && after.Keys == phase.Keys
    && forall m :: m in phase ==> Rank(after[m]) <= Rank(phase[m])
  }

  lemma LeaveDescends(s: State)
    requires s.slots.waiting != [] ==> s.slots.waiting[0] in s.phase && Queued(s.phase[s.slots.waiting[0]])
    ensures NoneRises(s.phase, Leave(s).phase)
  {
  }

  lemma EnterDescends(limit: nat, s: State, n: Name, queued: Phase)
    requires n in s.phase && Queued(queued) && Rank(queued) < Rank(s.phase[n])
    ensures NoneRises(s.phase, Enter(limit, s, n, queued).phase)
    ensures Rank(Enter(limit, s, n, queued).phase[n]) < Rank(s.phase[n])
  {
  }

  lemma MoveDescends(phase: Phases, n: Name, p: Phase)
    requires n in phase && Rank(p) < Rank(phase[n])
    ensures NoneRises(phase, phase[n := p])
  {
  }

  lemma EndDescends(s: State, t: State, n: Name, p: Phase)
    requires QueueIs(s.phase, s.slots.waiting) && n in s.phase && n !in s.slots.waiting
    requires Rank(p) < Rank(s.phase[n]) && !Queued(p)
    requires t.phase == s.phase[n := p] && t.slots == s.slots
    ensures t.slots.waiting != [] ==> t.slots.waiting[0] in t.phase
    ensures NoneRises(s.phase, Leave(t).phase)
    ensures Rank(Leave(t).phase[n]) < Rank(s.phase[n])
  {
    MoveDescends(s.phase, n, p);
    assert s.slots.waiting != [] ==> s.slots.waiting[0] in s.slots.waiting;
    LeaveDescends(t);
  }

  lemma StepDescends(plan: Plan, limit: nat, s: State, n: Name)
    requires QueueIs(s.phase, s.slots.waiting) && Enabled(plan, s, n)
    ensures NoneRises(s.phase, Step(plan, limit, s, n).phase)
    ensures Rank(Step(plan, limit, s, n).phase[n]) < Rank(s.phase[n])
  {
    var job, ph := plan[n], s.phase;
    match s.phase[n]
    case Start =>
      EnterDescends(limit, s, n, AwaitPackSlot);
      MoveDescends(ph, n, AwaitPrerequisites);
    case PackEntered =>
      EndDescends(s, SetPhase(s, n, Settling(false)), n, Settling(false));
      MoveDescends(ph, n, AwaitLock);
      MoveDescends(ph, n, PackUnlocked);
    case AwaitLock => MoveDescends(ph, n, PackLocked);
    case PackLocked => MoveDescends(ph, n, PackUnlocked);
    case PackUnlocked =>
      var p := if PackSucceeds(job) then AwaitPrerequisites else Settling(false);
      EndDescends(s, SetPhase(s, n, p), n, p);
    case AwaitPrerequisites =>
      if Blocked(plan, s, n) {
        MoveDescends(ph, n, Discarding);
      } else {
        EnterDescends(limit, s, n, AwaitPublishSlot);
      }
    case Discarding => MoveDescends(ph, n, Settling(false));
    case Publishing => EndDescends(s, EndPublish(s, n, job.publishes), n, Settling(job.publishes));
    case Settling(ok) => MoveDescends(ph, n, Settled(ok));
    case _ =>
  }

  /** Every schedule is shorter than a fixed number of steps for each job. */
  lemma {:induction false} ScheduleShrinksWork(plan: Plan, limit: nat, s: State, schedule: seq<Name>, names: seq<Name>)
    requires Invariant(plan, limit, s) && IsSchedule(plan, limit, s, schedule)
    requires forall n :: n in plan ==> n in names
    ensures |schedule| + Remaining(names, After(plan, limit, s, schedule).phase) <= Remaining(names, s.phase)
    decreases |schedule|
  {
    if schedule != [] {
      var n := schedule[0];
      StepKeepsInvariant(plan, limit, s, n);
      StepDescends(plan, limit, s, n);
      RemainingFalls(names, s.phase, Step(plan, limit, s, n).phase, n);
      ScheduleShrinksWork(plan, limit, Step(plan, limit, s, n), schedule[1..], names);
    }
  }

  // ---- main results over all schedules ----

  /** Every run of an acyclic plan ends after at most eleven steps a job, with every job settled. */
  lemma RunsTerminate(plan: Plan, limit: nat, schedule: seq<Name>, names: seq<Name>)
    requires limit >= 1 && (exists order :: Topological(GraphOf(plan), order))
    requires forall n :: n in plan ==> n in names
    requires IsRun(plan, limit, schedule)
    ensures |schedule| <= LONGEST_JOB * |names|
    ensures Stuck(plan, Reached(plan, limit, schedule)) <==> AllSettled(Reached(plan, limit, schedule))
  {
    ScheduleShrinksWork(plan, limit, Initial(plan, limit), schedule, names);
    RemainingBounded(names, Initial(plan, limit).phase);
    StuckOnlyWhenSettled(plan, limit, Reached(plan, limit, schedule));
  }

  ghost predicate HoldsLock(plan: Plan, s: State, n: Name, key: string) {
    n in s.phase && s.phase[n].PackLocked? && Keyed(plan, n) && Key(plan, n) == key
  }

  /** In every reachable state: the slot bound, the queue order, the locks and the order of publishes. */
  lemma RunsAreSafe(plan: Plan, limit: nat, schedule: seq<Name>)
    requires IsRun(plan, limit, schedule)
    ensures var s := Reached(plan, limit, schedule);
      && |Holders(s.phase)| <= limit
      && s.slots.arrivals == s.slots.grants + s.slots.waiting
      && (forall key, a, b :: HoldsLock(plan, s, a, key) && HoldsLock(plan, s, b, key) ==> a == b)
      && (forall n :: n in s.phase && PacksUnderLock(plan, n) && !BeforeRequest(s.phase[n]) && !Contends(s.phase[n])
            ==> n in s.locks.requests && n in s.locks.released)
      && (forall n, k :: n in s.started && k != n && Reaches(GraphOf(plan), n, k) ==> k in s.published)
      && (forall n :: n in s.discarded ==> n !in s.started && n !in s.published)
  {
    var s := Reached(plan, limit, schedule);
    forall key, a, b | HoldsLock(plan, s, a, key) && HoldsLock(plan, s, b, key) ensures a == b {
      MutualExclusion(plan, s.phase, s.locks, a, b);
    }
    forall n | n in s.phase && PacksUnderLock(plan, n) && !BeforeRequest(s.phase[n]) && !Contends(s.phase[n])
      ensures n in s.locks.requests && n in s.locks.released
    {
      PackedUnderLock(plan, s.phase, s.locks, n);
    }
    forall n, k | n in s.started && k != n && Reaches(GraphOf(plan), n, k) ensures k in s.published {
      StartedAfterDependencies(plan, s, n, k);
    }
    forall n | n in s.discarded ensures n !in s.started && n !in s.published {
      DiscardedNeverStarts(plan, s, n);
    }
  }

  /** The outcome the plan promises, without any schedule. */
  ghost predicate AsPromised(plan: Plan, published: set<Name>, discarded: set<Name>) {
    && (forall n :: n in published <==> n in plan && MustPublish(plan, n))
    && (forall n :: n in discarded <==> n in plan && MustDiscard(plan, n))
  }

  lemma PromiseIsUnique(plan: Plan, p1: set<Name>, d1: set<Name>, p2: set<Name>, d2: set<Name>)
    requires AsPromised(plan, p1, d1) && AsPromised(plan, p2, d2)
    ensures p1 == p2 && d1 == d2
  {
  }

  /** A finished run published and discarded exactly what the plan promises. */
  lemma FinishedRun(plan: Plan, limit: nat, schedule: seq<Name>)
    requires IsRun(plan, limit, schedule) && AllSettled(Reached(plan, limit, schedule))
    ensures var s := Reached(plan, limit, schedule); AsPromised(plan, s.published, s.discarded)
  {
    SettledOutcome(plan, Reached(plan, limit, schedule));
  }

  /** Any two finished runs, at any two concurrencies, published and discarded the same jobs. */
  lemma ScheduleIndependence(plan: Plan, limit1: nat, schedule1: seq<Name>, limit2: nat, schedule2: seq<Name>)
    requires IsRun(plan, limit1, schedule1) && AllSettled(Reached(plan, limit1, schedule1))
    requires IsRun(plan, limit2, schedule2) && AllSettled(Reached(plan, limit2, schedule2))
    ensures Reached(plan, limit1, schedule1).published == Reached(plan, limit2, schedule2).published
    ensures Reached(plan, limit1, schedule1).discarded == Reached(plan, limit2, schedule2).discarded
  {
    FinishedRun(plan, limit1, schedule1);
    FinishedRun(plan, limit2, schedule2);
    var s1, s2 := Reached(plan, limit1, schedule1), Reached(plan, limit2, schedule2);
    PromiseIsUnique(plan, s1.published, s1.discarded, s2.published, s2.discarded);
  }
}
