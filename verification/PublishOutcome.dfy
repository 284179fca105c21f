/** What every run of the publisher publishes, starts and discards. */
module PublishOutcome {
  import opened DependencyGraph
  import opened PublishProtocol
  import opened PublishSlots

  // ---- the promised outcome, one dependency at a time ----

  lemma ReachesSelf(g: Graph, n: Name)
    requires n in g
    ensures Reaches(g, n, n)
  {
    var p := [n];
    assert IsPath(g, p) && p[0] == n && Last(p) == n;
  }

  lemma ReachesThrough(g: Graph, a: Name, d: Name, b: Name)
    requires Edge(g, a, d) && Reaches(g, d, b)
    ensures Reaches(g, a, b)
  {
    var p :| IsPath(g, p) && p[0] == d && Last(p) == b;
    var q := [a] + p;
    forall i | 0 <= i < |q| - 1 ensures Edge(g, q[i], q[i + 1]) {
      if i > 0 {
        assert Edge(g, p[i - 1], p[i]);
      }
    }
    assert IsPath(g, q) && q[0] == a && Last(q) == b;
  }

  /** A path either stays at its start or leaves it through a prerequisite. */
  lemma {:induction false} PathLeaves(plan: Plan, p: seq<Name>)
    requires IsPath(GraphOf(plan), p)
    ensures Last(p) == p[0] || exists d :: Prerequisite(plan, p[0], d) && Reaches(GraphOf(plan), d, Last(p))
  {
    if |p| > 1 {
      var g := GraphOf(plan);
      assert Edge(g, p[0], p[1]);
      var rest := p[1..];
      forall k | 0 <= k < |rest| - 1 ensures Edge(g, rest[k], rest[k + 1]) {
        assert Edge(g, p[k + 1], p[k + 2]);
      }
      assert IsPath(g, rest) && Last(rest) == Last(p);
      if p[1] == p[0] {
        PathLeaves(plan, rest);
      } else {
        assert Reaches(g, p[1], Last(p));
        assert Prerequisite(plan, p[0], p[1]);
      }
    }
  }

  /** The transitive promise unfolds to the job's own phases and its direct prerequisites. */
  lemma MustPublishUnfolds(plan: Plan, n: Name)
    requires n in plan
    ensures MustPublish(plan, n) <==>
      OwnPhasesSucceed(plan[n]) && forall d :: Prerequisite(plan, n, d) && d in plan ==> MustPublish(plan, d)
  {
    var g := GraphOf(plan);
    if MustPublish(plan, n) {
      ReachesSelf(g, n);
      forall d | Prerequisite(plan, n, d) && d in plan ensures MustPublish(plan, d) {
        forall k | Reaches(g, d, k) && k in plan ensures OwnPhasesSucceed(plan[k]) {
          ReachesThrough(g, n, d, k);
        }
      }
    }
    if OwnPhasesSucceed(plan[n]) && forall d :: Prerequisite(plan, n, d) && d in plan ==> MustPublish(plan, d) {
      forall k | Reaches(g, n, k) && k in plan ensures OwnPhasesSucceed(plan[k]) {
        var p :| IsPath(g, p) && p[0] == n && Last(p) == k;
        PathLeaves(plan, p);
        if k != n {
          var d :| Prerequisite(plan, n, d) && Reaches(g, d, k);
          assert MustPublish(plan, d);
        }
      }
    }
  }

  // ---- the invariant ----

  ghost predicate Cleared(plan: Plan, phase: Phases, n: Name) {
    forall d :: Prerequisite(plan, n, d) ==> d in phase && phase[d] == Settled(true)
  }

  ghost predicate HasFailedPrerequisite(plan: Plan, phase: Phases, n: Name) {
    exists d :: Prerequisite(plan, n, d) && d in phase && phase[d] == Settled(false)
  }

  /** What is known of a job in each of its phases. */
  ghost predicate JobOutcome(plan: Plan, s: State, n: Name)
    requires n in plan && n in s.phase
  {
    var packs := PackSucceeds(plan[n]);
    match s.phase[n]
    case AwaitPrerequisites => packs && n !in s.started && n !in s.published && n !in s.discarded
    case AwaitPublishSlot =>
      packs && Cleared(plan, s.phase, n) && n !in s.started && n !in s.published && n !in s.discarded
    case Publishing =>
      packs && Cleared(plan, s.phase, n) && n in s.started && n !in s.published && n !in s.discarded
    case Discarding =>
      packs && HasFailedPrerequisite(plan, s.phase, n) && n !in s.started && n !in s.published && n in s.discarded
    case Settling(ok) => Concluded(plan, s, n, ok)
    case Settled(ok) => Concluded(plan, s, n, ok)
    case _ => n !in s.started && n !in s.published && n !in s.discarded
  }

  ghost predicate Concluded(plan: Plan, s: State, n: Name, ok: bool)
    requires n in plan
  {
    && (ok <==> MustPublish(plan, n))
    && (n in s.published <==> ok)
    && (n in s.started ==> PackSucceeds(plan[n]) && Cleared(plan, s.phase, n))
    && (n in s.discarded ==> PackSucceeds(plan[n]) && HasFailedPrerequisite(plan, s.phase, n))
    && (PackSucceeds(plan[n]) ==> n in s.started || n in s.discarded)
  }

  ghost predicate Outcomes(plan: Plan, s: State) {
    && s.phase.Keys == plan.Keys
    && (forall n :: n in plan ==> JobOutcome(plan, s, n))
    && (forall n :: n in s.started || n in s.published || n in s.discarded ==> n in plan)
  }

  /** `after` keeps every settled phase of `s` and differs for `n` at most in the recorded sets. */
  ghost predicate Frame(s: State, after: State, changed: set<Name>) {
    && after.phase.Keys == s.phase.Keys
    && (forall m :: m in s.phase && s.phase[m].Settled? ==> after.phase[m] == s.phase[m])
    && (forall m :: m in s.phase && m !in changed ==>
          && after.phase[m] == s.phase[m]
          && (m in after.started <==> m in s.started)
          && (m in after.published <==> m in s.published)
          && (m in after.discarded <==> m in s.discarded))
  }

  lemma FrameKeepsOutcome(plan: Plan, s: State, after: State, changed: set<Name>, m: Name)
    requires Frame(s, after, changed) && s.phase.Keys == plan.Keys
    requires m in plan && m !in changed && JobOutcome(plan, s, m)
    ensures JobOutcome(plan, after, m)
  {
    assert Cleared(plan, s.phase, m) ==> Cleared(plan, after.phase, m);
    assert HasFailedPrerequisite(plan, s.phase, m) ==> HasFailedPrerequisite(plan, after.phase, m);
  }

  /** The job at the head of the queue goes on with the slot it was handed. */
  lemma LeaveKeepsOutcomes(plan: Plan, s: State)
    requires Outcomes(plan, s)
    requires s.slots.waiting != [] ==> s.slots.waiting[0] in s.phase && Queued(s.phase[s.slots.waiting[0]])
    ensures Outcomes(plan, Leave(s))
  {
    if s.slots.waiting != [] {
      var w := s.slots.waiting[0];
      GrantKeepsOutcomes(plan, s, w, s.phase[w]);
      assert Frame(Grant(s, w, s.phase[w]), Leave(s), {});
      forall m | m in plan ensures JobOutcome(plan, Leave(s), m) {
        FrameKeepsOutcome(plan, Grant(s, w, s.phase[w]), Leave(s), {}, m);
      }
    } else {
      forall m | m in plan ensures JobOutcome(plan, Leave(s), m) {
        FrameKeepsOutcome(plan, s, Leave(s), {}, m);
      }
    }
  }

  lemma GrantKeepsOutcomes(plan: Plan, s: State, w: Name, queued: Phase)
    requires Outcomes(plan, s) && w in plan && Queued(queued)
    requires s.phase[w] == queued || (s.phase[w].Start? && queued.AwaitPackSlot?)
      || (s.phase[w].AwaitPrerequisites? && queued.AwaitPublishSlot? && Cleared(plan, s.phase, w))
    ensures Outcomes(plan, Grant(s, w, queued))
  {
    var after := Grant(s, w, queued);
    assert Frame(s, after, {w});
    forall m | m in plan ensures JobOutcome(plan, after, m) {
      if m == w {
        assert JobOutcome(plan, s, w);
        assert Cleared(plan, s.phase, w) ==> Cleared(plan, after.phase, w);
      } else {
        FrameKeepsOutcome(plan, s, after, {w}, m);
      }
    }
  }

  /** A step of one job that leaves the others alone. */
  lemma MoveKeepsOutcomes(plan: Plan, s: State, after: State, n: Name)
    requires Outcomes(plan, s) && n in plan && Frame(s, after, {n})
    requires JobOutcome(plan, after, n)
    requires forall m :: m in after.started || m in after.published || m in after.discarded ==> m in plan
    ensures Outcomes(plan, after)
  {
    forall m | m in plan ensures JobOutcome(plan, after, m) {
      if m != n {
        FrameKeepsOutcome(plan, s, after, {n}, m);
      }
    }
  }

  /** Settled prerequisites carry the promise of the prerequisites. */
  lemma SettledPrerequisites(plan: Plan, s: State, n: Name)
    requires Outcomes(plan, s) && n in plan
    ensures Cleared(plan, s.phase, n) ==> forall d :: Prerequisite(plan, n, d) && d in plan ==> MustPublish(plan, d)
    ensures HasFailedPrerequisite(plan, s.phase, n) ==> !MustPublish(plan, n)
    ensures Cleared(plan, s.phase, n) ==> (MustPublish(plan, n) <==> OwnPhasesSucceed(plan[n]))
  {
    MustPublishUnfolds(plan, n);
    forall d | Prerequisite(plan, n, d) && d in plan ensures JobOutcome(plan, s, d) {}
  }

  lemma EnterKeepsOutcomes(plan: Plan, limit: nat, s: State, n: Name, queued: Phase)
    requires Outcomes(plan, s) && n in plan
    requires || (s.phase[n].Start? && queued.AwaitPackSlot?)
             || (s.phase[n].AwaitPrerequisites? && queued.AwaitPublishSlot? && Cleared(plan, s.phase, n))
    ensures Outcomes(plan, Enter(limit, s, n, queued))
  {
    var asked := s.(slots := Acquire(limit, s.slots, n));
    forall m | m in plan ensures JobOutcome(plan, asked, m) {
      FrameKeepsOutcome(plan, s, asked, {}, m);
    }
    if s.slots.active >= limit {
      var after := SetPhase(asked, n, queued);
      assert Frame(s, after, {n});
      assert JobOutcome(plan, s, n);
      assert Cleared(plan, s.phase, n) ==> Cleared(plan, after.phase, n);
      MoveKeepsOutcomes(plan, s, after, n);
    } else {
      GrantKeepsOutcomes(plan, asked, n, queued);
    }
  }

  /** A job that has done nothing visible moves to a phase that promises no more than `PackSucceeds`. */
  lemma QuietMove(plan: Plan, s: State, n: Name, p: Phase)
    requires Outcomes(plan, s) && n in plan
    requires n !in s.started && n !in s.published && n !in s.discarded
    requires !(p.AwaitPublishSlot? || p.Publishing? || p.Discarding? || p.Settling? || p.Settled?)
    requires p.AwaitPrerequisites? ==> PackSucceeds(plan[n])
    requires !s.phase[n].Settled?
    ensures Outcomes(plan, SetPhase(s, n, p))
  {
    MoveKeepsOutcomes(plan, s, SetPhase(s, n, p), n);
  }

  lemma FailedPack(plan: Plan, s: State, n: Name)
    requires Outcomes(plan, s) && n in plan && !PackSucceeds(plan[n])
    requires n !in s.started && n !in s.published && n !in s.discarded
    requires !s.phase[n].Settled?
    ensures Outcomes(plan, SetPhase(s, n, Settling(false)))
  {
    MustPublishUnfolds(plan, n);
    MoveKeepsOutcomes(plan, s, SetPhase(s, n, Settling(false)), n);
  }

  lemma Discard(plan: Plan, s: State, n: Name)
    requires Outcomes(plan, s) && n in plan && s.phase[n].AwaitPrerequisites? && Blocked(plan, s, n)
    ensures Outcomes(plan, SetPhase(s, n, Discarding).(discarded := s.discarded + {n}))
  {
    var after := SetPhase(s, n, Discarding).(discarded := s.discarded + {n});
    assert JobOutcome(plan, s, n);
    var d :| Prerequisite(plan, n, d) && d in s.phase && s.phase[d] == Settled(false);
    assert after.phase[d] == Settled(false);
    MoveKeepsOutcomes(plan, s, after, n);
  }

  lemma Discarded(plan: Plan, s: State, n: Name)
    requires Outcomes(plan, s) && n in plan && s.phase[n].Discarding?
    ensures Outcomes(plan, SetPhase(s, n, Settling(false)))
  {
    var after := SetPhase(s, n, Settling(false));
    assert JobOutcome(plan, s, n);
    SettledPrerequisites(plan, s, n);
    var d :| Prerequisite(plan, n, d) && d in s.phase && s.phase[d] == Settled(false);
    assert after.phase[d] == Settled(false);
    MoveKeepsOutcomes(plan, s, after, n);
  }

  lemma Published(plan: Plan, s: State, n: Name)
    requires Outcomes(plan, s) && n in plan && s.phase[n].Publishing?
    ensures Outcomes(plan, EndPublish(s, n, plan[n].publishes))
  {
    var after := EndPublish(s, n, plan[n].publishes);
    assert JobOutcome(plan, s, n);
    SettledPrerequisites(plan, s, n);
    assert Cleared(plan, after.phase, n);
    MoveKeepsOutcomes(plan, s, after, n);
  }

  lemma Settle(plan: Plan, s: State, n: Name)
    requires Outcomes(plan, s) && n in plan && s.phase[n].Settling?
    ensures Outcomes(plan, SetPhase(s, n, Settled(s.phase[n].ok)))
  {
    var after := SetPhase(s, n, Settled(s.phase[n].ok));
    assert JobOutcome(plan, s, n);
    assert Cleared(plan, s.phase, n) ==> Cleared(plan, after.phase, n);
    assert HasFailedPrerequisite(plan, s.phase, n) ==> HasFailedPrerequisite(plan, after.phase, n);
    MoveKeepsOutcomes(plan, s, after, n);
  }

  lemma StepKeepsOutcomes(plan: Plan, limit: nat, s: State, n: Name)
    requires Outcomes(plan, s) && QueueIs(s.phase, s.slots.waiting) && Enabled(plan, s, n)
    ensures Outcomes(plan, Step(plan, limit, s, n))
  {
    var job := plan[n];
    assert JobOutcome(plan, s, n);
    match s.phase[n]
    case Start =>
      if job.pack.Some? {
        EnterKeepsOutcomes(plan, limit, s, n, AwaitPackSlot);
      } else {
        QuietMove(plan, s, n, AwaitPrerequisites);
      }
    case PackEntered =>
      if job.pack.Some? && job.pack.value.outcome == FailsBeforeLock {
        FailedPack(plan, s, n);
        LeaveKeepsOutcomes(plan, SetPhase(s, n, Settling(false)));
      } else if job.pack.Some? && job.pack.value.lock.Some? {
        MoveKeepsOutcomes(plan, s, Step(plan, limit, s, n), n);
      } else {
        QuietMove(plan, s, n, PackUnlocked);
      }
    case AwaitLock => QuietMove(plan, s, n, PackLocked);
    case PackLocked => MoveKeepsOutcomes(plan, s, Step(plan, limit, s, n), n);
    case PackUnlocked =>
      if PackSucceeds(job) {
        QuietMove(plan, s, n, AwaitPrerequisites);
        LeaveKeepsOutcomes(plan, SetPhase(s, n, AwaitPrerequisites));
      } else {
        FailedPack(plan, s, n);
        LeaveKeepsOutcomes(plan, SetPhase(s, n, Settling(false)));
      }
    case AwaitPrerequisites =>
      if Blocked(plan, s, n) {
        Discard(plan, s, n);
      } else {
        EnterKeepsOutcomes(plan, limit, s, n, AwaitPublishSlot);
      }
    case Discarding => Discarded(plan, s, n);
    case Publishing =>
      Published(plan, s, n);
      LeaveKeepsOutcomes(plan, EndPublish(s, n, job.publishes));
    case Settling(ok) => Settle(plan, s, n);
    case _ =>
  }

  // ---- what the invariant says ----

  /** Along a dependency path, success spreads from the dependent to everything it depends on. */
  lemma {:induction false} PublishedAlong(plan: Plan, s: State, p: seq<Name>)
    requires Outcomes(plan, s) && IsPath(GraphOf(plan), p) && p[0] in s.started
    ensures Last(p) != p[0] ==> Last(p) in s.published
  {
    if |p| > 1 {
      var g, rest := GraphOf(plan), p[1..];
      assert Edge(g, p[0], p[1]);
      forall k | 0 <= k < |rest| - 1 ensures Edge(g, rest[k], rest[k + 1]) {
        assert Edge(g, p[k + 1], p[k + 2]);
      }
      assert JobOutcome(plan, s, p[0]) && JobOutcome(plan, s, p[1]);
      if p[1] != p[0] {
        assert Prerequisite(plan, p[0], p[1]);
        assert p[1] in s.published;
        SettledPrerequisites(plan, s, p[1]);
        MustPublishUnfolds(plan, p[1]);
      }
      PublishedAlong(plan, s, rest);
    }
  }

  /** A publish starts only after everything the job depends on has been published. */
  lemma StartedAfterDependencies(plan: Plan, s: State, n: Name, k: Name)
    requires Outcomes(plan, s) && n in s.started
    requires k != n && Reaches(GraphOf(plan), n, k)
    ensures k in s.published
  {
    var p :| IsPath(GraphOf(plan), p) && p[0] == n && Last(p) == k;
    PublishedAlong(plan, s, p);
  }

  /** In terms of what a job lists: it starts only after each listed job of the run has been published. */
  lemma StartedAfterListed(plan: Plan, s: State, n: Name, d: Name)
    requires Outcomes(plan, s) && n in s.started
    requires n in plan && d in plan && d != n && d in plan[n].dependsOn
    ensures d in s.published
  {
    var g := GraphOf(plan);
    assert Edge(g, n, d);
    ReachesSelf(g, d);
    ReachesThrough(g, n, d, d);
    StartedAfterDependencies(plan, s, n, d);
  }

  /** The runner never discards a job whose publish it starts. */
  lemma DiscardedNeverStarts(plan: Plan, s: State, n: Name)
    requires Outcomes(plan, s)
    ensures !(n in s.started && n in s.discarded)
    ensures n in s.published ==> n in s.started
  {
    if n in s.started || n in s.discarded || n in s.published {
      assert JobOutcome(plan, s, n);
      SettledPrerequisites(plan, s, n);
      MustPublishUnfolds(plan, n);
    }
  }

  /** When every job has settled, the sets are the promised ones. */
  lemma SettledOutcome(plan: Plan, s: State)
    requires Outcomes(plan, s) && AllSettled(s)
    ensures forall n :: n in s.published <==> n in plan && MustPublish(plan, n)
    ensures forall n :: n in s.discarded <==> n in plan && MustDiscard(plan, n)
  {
    forall n | n in plan
      ensures n in s.published <==> MustPublish(plan, n)
      ensures n in s.discarded <==> MustDiscard(plan, n)
    {
      assert JobOutcome(plan, s, n);
      SettledPrerequisites(plan, s, n);
      forall d | Prerequisite(plan, n, d) && d in plan ensures s.phase[d].Settled? && (s.phase[d].ok <==> MustPublish(plan, d)) {
        assert JobOutcome(plan, s, d);
      }
      if MustDiscard(plan, n) {
        var d :| Prerequisite(plan, n, d) && d in plan && !MustPublish(plan, d);
        assert s.phase[d] == Settled(false);
        assert !Cleared(plan, s.phase, n);
      }
    }
  }

  // ---- failures ----

  predicate PackFails(job: Job) {
    job.pack.Some? && (job.pack.value.outcome.FailsBeforeLock? || job.pack.value.outcome.FailsAfterLock?)
  }

  /** The job fails by itself, or something it depends on does. */
  ghost predicate FailsSomewhere(plan: Plan, n: Name) {
    exists k :: Reaches(GraphOf(plan), n, k) && k in plan && (PackFails(plan[k]) || !plan[k].publishes)
  }

  /** The promise is kept back exactly where something fails. */
  lemma PromiseOrFailure(plan: Plan, n: Name)
    requires n in plan
    ensures MustPublish(plan, n) <==> !FailsSomewhere(plan, n)
  {
    forall k | k in plan ensures OwnPhasesSucceed(plan[k]) <==> !(PackFails(plan[k]) || !plan[k].publishes) {
    }
  }

  /** A job whose pack fails, before the lock or after it, is never started, and nothing that depends on it is. */
  lemma FailedPackStartsNothing(plan: Plan, s: State, n: Name, k: Name)
    requires Outcomes(plan, s) && n in plan && PackFails(plan[n])
    requires Reaches(GraphOf(plan), k, n)
    ensures k !in s.started && k !in s.published
    ensures n !in s.discarded
  {
    assert JobOutcome(plan, s, n);
    DiscardedNeverStarts(plan, s, n);
    DiscardedNeverStarts(plan, s, k);
    if k in s.started && k != n {
      StartedAfterDependencies(plan, s, k, n);
    }
  }
}
