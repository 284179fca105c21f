/**
 The publisher as a state machine. Every job packs, waits for its prerequisites
 and publishes; packing and publishing hold a slot of a FIFO semaphore, and
 packing may also hold a keyed lock. One step advances one job, so a run is a
 sequence of job names, and every interleaving is such a sequence.
 */
module PublishProtocol {
  import opened Wrappers
  import opened DependencyGraph

  datatype PackOutcome = Packs | FailsBeforeLock | FailsAfterLock

  datatype PackPlan = PackPlan(lock: Option<string>, outcome: PackOutcome)

  /** A job with the outcome its pack and publish actions have whenever they run. */
  datatype Job = Job(name: Name, dependsOn: seq<Name>, pack: Option<PackPlan>, publishes: bool)

  type Plan = map<Name, Job>

  function GraphOf(plan: Plan): Graph {
    map n | n in plan :: plan[n].dependsOn
  }

  /** The dependencies a job waits for. */
  predicate Prerequisite(plan: Plan, n: Name, d: Name) {
    d != n && Edge(GraphOf(plan), n, d)
  }

  predicate PackSucceeds(job: Job) {
    job.pack.Some? ==> job.pack.value.outcome == Packs
  }

  predicate OwnPhasesSucceed(job: Job) {
    PackSucceeds(job) && job.publishes
  }

  /**
   What the publisher promises, without any schedule: the job's own phases
   succeed, and so do those of everything it depends on.
   */
  ghost predicate MustPublish(plan: Plan, n: Name)
    requires n in plan
  {
    forall k :: Reaches(GraphOf(plan), n, k) && k in plan ==> OwnPhasesSucceed(plan[k])
  }

  /** A job whose tarball is dropped: packed, but some prerequisite does not publish. */
  ghost predicate MustDiscard(plan: Plan, n: Name)
    requires n in plan
  {
    PackSucceeds(plan[n]) && exists d :: Prerequisite(plan, n, d) && d in plan && !MustPublish(plan, d)
  }

  datatype Phase =
    | Start
    | AwaitPackSlot        // queued on the semaphore
    | PackEntered          // holds a slot
    | AwaitLock            // holds a slot, queued on the lock
    | PackLocked           // holds a slot and the lock
    | PackUnlocked         // holds a slot, past the lock
    | AwaitPrerequisites
    | AwaitPublishSlot     // queued on the semaphore
    | Publishing           // holds a slot
    | Discarding
    | Settling(ok: bool)
    | Settled(ok: bool)

  predicate Queued(p: Phase) {
    p.AwaitPackSlot? || p.AwaitPublishSlot?
  }

  predicate HoldsSlot(p: Phase) {
    p.PackEntered? || p.AwaitLock? || p.PackLocked? || p.PackUnlocked? || p.Publishing?
  }

  /** `arrivals` and `grants` record who asked for a slot and who got one, in order. */
  datatype Semaphore = Semaphore(active: int, waiting: seq<Name>, arrivals: seq<Name>, grants: seq<Name>)

  /**
   One promise chain per key: its `tails`, the request each one waits for
   (`previous`) and the `released` ones. `requests` records who asked, in order.
   */
  datatype KeyedMutex = KeyedMutex(
    tails: map<string, Name>,
    previous: map<Name, Option<Name>>,
    released: set<Name>,
    requests: seq<Name>)

  /** The last three fields record whose publish started or succeeded and whose tarball was discarded. */
  datatype State = State(
    slots: Semaphore,
    locks: KeyedMutex,
    phase: map<Name, Phase>,
    started: set<Name>,
    published: set<Name>,
    discarded: set<Name>)

  function Init(plan: Plan): State {
    State(Semaphore(0, [], [], []), KeyedMutex(map[], map[], {}, []), map n | n in plan :: Start, {}, {}, {})
  }

  function SetPhase(s: State, n: Name, p: Phase): State {
    s.(phase := s.phase[n := p])
  }

  /** A job whose section was granted a slot goes on from its queue. */
  function Granted(p: Phase): Phase {
    if p.AwaitPublishSlot? then Publishing else PackEntered
  }

  function Grant(s: State, n: Name, queued: Phase): State {
    var p := Granted(queued);
    SetPhase(s, n, p).(started := if p.Publishing? then s.started + {n} else s.started)
  }

  function Acquire(limit: nat, m: Semaphore, n: Name): Semaphore {
    var a := m.(arrivals := m.arrivals + [n]);
    if a.active >= limit then a.(waiting := a.waiting + [n])
    else a.(active := a.active + 1, grants := a.grants + [n])
  }

  /** A freed slot goes to the longest waiting section, if any. */
  function Release(m: Semaphore): Semaphore {
    if m.waiting == [] then m.(active := m.active - 1)
    else m.(waiting := m.waiting[1..], grants := m.grants + [m.waiting[0]])
  }

  /** Ask for a slot: take a free one, else queue. */
  function Enter(limit: nat, s: State, n: Name, queued: Phase): State {
    var after := s.(slots := Acquire(limit, s.slots, n));
    if s.slots.active >= limit then SetPhase(after, n, queued) else Grant(after, n, queued)
  }

  /** Give a slot back. */
  function Leave(s: State): State
    requires s.slots.waiting != [] ==> s.slots.waiting[0] in s.phase
  {
    var after := s.(slots := Release(s.slots));
    if s.slots.waiting == [] then after
    else Grant(after, s.slots.waiting[0], s.phase[s.slots.waiting[0]])
  }

  /** Join the promise chain of a key. */
  function Request(m: KeyedMutex, n: Name, key: string): KeyedMutex {
    KeyedMutex(
      m.tails[key := n],
      m.previous[n := if key in m.tails then Some(m.tails[key]) else None],
      m.released,
      m.requests + [n])
  }

  function Unlock(m: KeyedMutex, n: Name): KeyedMutex {
    m.(released := m.released + {n})
  }

  predicate LockFree(m: KeyedMutex, n: Name) {
    n in m.previous && (m.previous[n].None? || m.previous[n].value in m.released)
  }

  function EndPublish(s: State, n: Name, ok: bool): State {
    SetPhase(s, n, Settling(ok)).(published := if ok then s.published + {n} else s.published)
  }

  predicate PrerequisitesSettled(plan: Plan, s: State, n: Name)
    requires n in plan
  {
    forall d :: d in plan[n].dependsOn && Prerequisite(plan, n, d) ==> d in s.phase && s.phase[d].Settled?
  }

  predicate Blocked(plan: Plan, s: State, n: Name)
    requires n in plan
  {
    exists d :: d in plan[n].dependsOn && Prerequisite(plan, n, d) && d in s.phase && s.phase[d] == Settled(false)
  }

  /** A queued job moves only when a slot is handed to it; a settled one never. */
  predicate Enabled(plan: Plan, s: State, n: Name) {
    && n in plan
    && n in s.phase
    && match s.phase[n]
       case AwaitLock => LockFree(s.locks, n)
       case AwaitPrerequisites => PrerequisitesSettled(plan, s, n)
       case AwaitPackSlot => false
       case AwaitPublishSlot => false
       case Settled(_) => false
       case _ => true
  }

  function Step(plan: Plan, limit: nat, s: State, n: Name): State
    requires Enabled(plan, s, n)
    requires s.slots.waiting != [] ==> s.slots.waiting[0] in s.phase
  {
    var job := plan[n];
    match s.phase[n]
    case Start =>
      if job.pack.Some? then Enter(limit, s, n, AwaitPackSlot) else SetPhase(s, n, AwaitPrerequisites)
    case PackEntered =>
      if job.pack.Some? && job.pack.value.outcome == FailsBeforeLock then
        Leave(SetPhase(s, n, Settling(false)))
      else if job.pack.Some? && job.pack.value.lock.Some? then
        SetPhase(s, n, AwaitLock).(locks := Request(s.locks, n, job.pack.value.lock.value))
      else
        SetPhase(s, n, PackUnlocked)
    case AwaitLock => SetPhase(s, n, PackLocked)
    case PackLocked => SetPhase(s, n, PackUnlocked).(locks := Unlock(s.locks, n))
    case PackUnlocked =>
      Leave(SetPhase(s, n, if PackSucceeds(job) then AwaitPrerequisites else Settling(false)))
    case AwaitPrerequisites =>
      if Blocked(plan, s, n) then
        SetPhase(s, n, Discarding).(discarded := s.discarded + {n})
      else
        Enter(limit, s, n, AwaitPublishSlot)
    case Discarding => SetPhase(s, n, Settling(false))
    case Publishing =>
      Leave(EndPublish(s, n, job.publishes))
    case Settling(ok) => SetPhase(s, n, Settled(ok))
    case _ => s
  }

  ghost predicate AllSettled(s: State) {
    forall n :: n in s.phase ==> s.phase[n].Settled?
  }
}
