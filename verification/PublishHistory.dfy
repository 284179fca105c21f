/** What every job of a run has been through: nothing packs without its slot and lock, and nothing publishes without a slot. */
module PublishHistory {
  import opened DependencyGraph
  import opened PublishProtocol
  import opened PublishSlots
  import opened PublishLocks
  import opened PublishRequests
  import opened PublishOutcome
  import opened PublishRuns

  /** The phases every job that comes so far must have been in. */
  datatype Gate = PackSlot | PackLock | PackEnd | PublishSlot

  predicate At(gate: Gate, p: Phase) {
    match gate
    case PackSlot => p.PackEntered?
    case PackLock => p.PackLocked?
    case PackEnd => p.PackUnlocked?
    case PublishSlot => p.Publishing?
  }

  /** The job is past the gate. */
  predicate Past(plan: Plan, gate: Gate, s: State, n: Name)
    requires n in plan && n in s.phase
  {
    var p := s.phase[n];
    match gate
    case PackSlot => plan[n].pack.Some? && !BeforeRequest(p)
    case PackLock => PacksUnderLock(plan, n) && !BeforeRequest(p) && !Contends(p)
    case PackEnd =>
      && plan[n].pack.Some? && !plan[n].pack.value.outcome.FailsBeforeLock?
      && !BeforeRequest(p) && !Contends(p) && !p.PackUnlocked?
    case PublishSlot => n in s.started && !p.Publishing?
  }

  /** What the step of another job, or the release of a slot, can do to this one: hand it the slot it is queued for. */
  ghost predicate AtMostGranted(s: State, after: State, n: Name)
    requires n in s.phase
  {
    && n in after.phase
    && (after.phase[n] == s.phase[n] || (Queued(s.phase[n]) && after.phase[n] == Granted(s.phase[n])))
    && (n in after.started && !after.phase[n].Publishing? ==> n in s.started)
    && (s.phase[n].Publishing? ==> after.phase[n].Publishing?)
  }

  lemma LeaveGrants(s: State, n: Name)
    requires n in s.phase
    requires s.slots.waiting != [] ==> s.slots.waiting[0] in s.phase && Queued(s.phase[s.slots.waiting[0]])
    ensures AtMostGranted(s, Leave(s), n)
  {
  }

  lemma EnterGrants(limit: nat, s: State, m: Name, queued: Phase, n: Name)
    requires n in s.phase && m != n
    ensures AtMostGranted(s, Enter(limit, s, m, queued), n)
  {
  }

  lemma OthersGranted(plan: Plan, limit: nat, s: State, m: Name, n: Name)
    requires Enabled(plan, s, m) && n in s.phase && m != n
    requires s.slots.waiting != [] ==> s.slots.waiting[0] in s.phase && Queued(s.phase[s.slots.waiting[0]]) && s.slots.waiting[0] != m
    ensures AtMostGranted(s, Step(plan, limit, s, m), n)
  {
    hide Leave, Enter;
    var job := plan[m];
    match s.phase[m]
    case Start => EnterGrants(limit, s, m, AwaitPackSlot, n);
    case PackEntered => LeaveGrants(SetPhase(s, m, Settling(false)), n);
    case PackUnlocked => LeaveGrants(SetPhase(s, m, if PackSucceeds(job) then AwaitPrerequisites else Settling(false)), n);
    case AwaitPrerequisites => EnterGrants(limit, s, m, AwaitPublishSlot, n);
    case Publishing => LeaveGrants(EndPublish(s, m, job.publishes), n);
    case _ =>
  }

  /** A step takes a job past a gate only from the gate. */
  lemma OnlyThroughGate(plan: Plan, limit: nat, gate: Gate, s: State, n: Name, m: Name)
    requires s.phase.Keys == plan.Keys && Enabled(plan, s, m) && n in plan
    requires s.slots.waiting != [] ==> s.slots.waiting[0] in s.phase && Queued(s.phase[s.slots.waiting[0]]) && s.slots.waiting[0] != m
    requires !Past(plan, gate, s, n) && !At(gate, s.phase[n])
    ensures n in Step(plan, limit, s, m).phase && !Past(plan, gate, Step(plan, limit, s, m), n)
  {
    if m != n {
      OthersGranted(plan, limit, s, m, n);
    } else {
      OwnStep(plan, limit, gate, s, n);
    }
  }

  lemma OwnStep(plan: Plan, limit: nat, gate: Gate, s: State, n: Name)
    requires s.phase.Keys == plan.Keys && Enabled(plan, s, n)
    requires s.slots.waiting != [] ==> s.slots.waiting[0] in s.phase && Queued(s.phase[s.slots.waiting[0]]) && s.slots.waiting[0] != n
    requires !Past(plan, gate, s, n) && !At(gate, s.phase[n])
    ensures n in Step(plan, limit, s, n).phase && !Past(plan, gate, Step(plan, limit, s, n), n)
  {
    hide Leave;
    var job := plan[n];
    match s.phase[n]
    case PackEntered => LeaveGrants(SetPhase(s, n, Settling(false)), n);
    case PackUnlocked => LeaveGrants(SetPhase(s, n, if PackSucceeds(job) then AwaitPrerequisites else Settling(false)), n);
    case Publishing => LeaveGrants(EndPublish(s, n, job.publishes), n);
    case _ =>
  }

  // ---- whole runs ----

  /** Some state of the run, after its first `i` steps, has the job at the gate. */
  ghost predicate WasAt(plan: Plan, limit: nat, s: State, schedule: seq<Name>, i: nat, gate: Gate, n: Name)
    requires Invariant(plan, limit, s)
  {
    && i <= |schedule| && IsSchedule(plan, limit, s, schedule[..i])
    && n in After(plan, limit, s, schedule[..i]).phase && At(gate, After(plan, limit, s, schedule[..i]).phase[n])
  }

  lemma {:induction false} PassedFrom(plan: Plan, limit: nat, s: State, schedule: seq<Name>, gate: Gate, n: Name) returns (i: nat)
    requires Invariant(plan, limit, s) && IsSchedule(plan, limit, s, schedule) && n in plan
    requires s.phase.Keys == plan.Keys && After(plan, limit, s, schedule).phase.Keys == plan.Keys
    requires !Past(plan, gate, s, n) && Past(plan, gate, After(plan, limit, s, schedule), n)
    ensures WasAt(plan, limit, s, schedule, i, gate, n)
    decreases |schedule|
  {
    hide Past, At, Step, Slots, Locks, Requested, Outcomes;
    i := 0;
    if At(gate, s.phase[n]) {
      assert schedule[..0] == [];
    } else {
      var m, rest := schedule[0], schedule[1..];
      HeadIsQueued(plan, limit, s, m);
      OnlyThroughGate(plan, limit, gate, s, n, m);
      StepKeepsInvariant(plan, limit, s, m);
      var next := Step(plan, limit, s, m);
      KeysStay(plan, limit, next);
      var j := PassedFrom(plan, limit, next, rest, gate, n);
      i := j + 1;
      assert schedule[..i][0] == m && schedule[..i][1..] == rest[..j];
    }
  }

  lemma HeadIsQueued(plan: Plan, limit: nat, s: State, m: Name)
    requires Invariant(plan, limit, s) && Enabled(plan, s, m)
    ensures s.phase.Keys == plan.Keys
    ensures s.slots.waiting != [] ==> s.slots.waiting[0] in s.phase && Queued(s.phase[s.slots.waiting[0]]) && s.slots.waiting[0] != m
  {
    hide Locks, Requested;
    assert s.slots.waiting != [] ==> s.slots.waiting[0] in s.slots.waiting;
  }

  lemma KeysStay(plan: Plan, limit: nat, s: State)
    requires Invariant(plan, limit, s)
    ensures s.phase.Keys == plan.Keys
  {
  }

  lemma NobodyIsPast(plan: Plan, limit: nat, gate: Gate, n: Name)
    requires n in plan
    ensures n in Initial(plan, limit).phase && !Past(plan, gate, Initial(plan, limit), n)
  {
  }

  /**
   In every run, a job that is past a gate was at it. So whatever has been
   packed was packed holding a slot, under the lock if the job has a key, and
   whatever was published was published holding a slot.
   */
  lemma EveryGateIsPassed(plan: Plan, limit: nat, schedule: seq<Name>, gate: Gate, n: Name) returns (i: nat)
    requires IsRun(plan, limit, schedule) && n in plan
    requires n in Reached(plan, limit, schedule).phase && Past(plan, gate, Reached(plan, limit, schedule), n)
    ensures WasAt(plan, limit, Initial(plan, limit), schedule, i, gate, n)
  {
    hide Past, At, Invariant, WasAt;
    NobodyIsPast(plan, limit, gate, n);
    KeysStay(plan, limit, Reached(plan, limit, schedule));
    KeysStay(plan, limit, Initial(plan, limit));
    i := PassedFrom(plan, limit, Initial(plan, limit), schedule, gate, n);
  }

  /** What has been published, and what was packed and is waiting or done, is past its gates. */
  lemma PublishedIsPast(plan: Plan, limit: nat, schedule: seq<Name>, n: Name)
    requires IsRun(plan, limit, schedule) && n in Reached(plan, limit, schedule).published
    ensures var s := Reached(plan, limit, schedule);
      && n in plan && n in s.phase && Past(plan, PublishSlot, s, n)
      && (plan[n].pack.Some? ==> Past(plan, PackSlot, s, n) && Past(plan, PackEnd, s, n))
      && (Keyed(plan, n) ==> Past(plan, PackLock, s, n))
  {
    hide Slots, Locks, Requested;
    var s := Reached(plan, limit, schedule);
    assert JobOutcome(plan, s, n);
    DiscardedNeverStarts(plan, s, n);
  }
}
