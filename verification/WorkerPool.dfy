/** Workers that take items in turn from a shared counter, interleaved in any way. */
module WorkerPool {

  datatype Worker = Idle | Busy(item: nat) | Finished

  datatype Pool<R> = Pool(next: nat, workers: seq<Worker>, results: map<nat, R>)

  /** A worker takes the next item, or the call for its item comes back with a result. */
  datatype Event<R> = Take(worker: nat) | Deliver(worker: nat, result: R)

  function Width(items: nat, limit: int): nat {
    var least := if limit < items then limit else items;
    if least < 1 then 1 else least
  }

  /** One worker at least, and no more than the limit and the items allow. */
  lemma WidthIs(items: nat, limit: int, n: nat)
    ensures n <= Width(items, limit) <==> n <= 1 || (n <= limit && n <= items)
  {
  }

  function Start<R>(items: nat, limit: int): Pool<R> {
    Pool(0, seq(Width(items, limit), _ => Idle), map[])
  }

  predicate Enabled<R>(pool: Pool<R>, e: Event<R>) {
    e.worker < |pool.workers| && if e.Take? then pool.workers[e.worker].Idle? else pool.workers[e.worker].Busy?
  }

  function Step<R>(pool: Pool<R>, items: nat, e: Event<R>): Pool<R>
    requires Enabled(pool, e)
  {
    match e
    case Take(w) =>
      pool.(next := pool.next + 1, workers := pool.workers[w := if pool.next < items then Busy(pool.next) else Finished])
    case Deliver(w, r) =>
      pool.(workers := pool.workers[w := Idle], results := pool.results[pool.workers[w].item := r])
  }

  predicate IsBusyWith(workers: seq<Worker>, w: nat, i: nat) {
    w < |workers| && workers[w] == Busy(i)
  }

  /** The item has been taken, by one worker who is still at it, or by one who has delivered. */
  ghost predicate InHand<R>(pool: Pool<R>, i: nat) {
    exists w :: IsBusyWith(pool.workers, w, i)
  }

  ghost predicate Taken<R>(pool: Pool<R>, items: nat, i: nat) {
    i < items && i < pool.next
  }

  ghost predicate Consistent<R(!new)>(pool: Pool<R>, items: nat) {
    && (forall i {:trigger InHand(pool, i)} {:trigger i in pool.results} ::
          Taken(pool, items, i) <==> InHand(pool, i) || i in pool.results)
    && (forall i {:trigger InHand(pool, i)} :: !(InHand(pool, i) && i in pool.results))
    && (forall v, w, i {:trigger IsBusyWith(pool.workers, v, i), IsBusyWith(pool.workers, w, i)} ::
          IsBusyWith(pool.workers, v, i) && IsBusyWith(pool.workers, w, i) ==> v == w)
    && (forall w {:trigger pool.workers[w]} :: 0 <= w < |pool.workers| && pool.workers[w].Finished? ==> pool.next > items)
  }

  lemma StartIsConsistent<R(!new)>(items: nat, limit: int)
    ensures Consistent(Start<R>(items, limit), items)
  {
    var pool := Start<R>(items, limit);
    forall i ensures !InHand(pool, i) {
    }
  }

  lemma TakeKeeps<R(!new)>(pool: Pool<R>, items: nat, w: nat)
    requires Consistent(pool, items) && Enabled(pool, Take(w))
    ensures Consistent(Step(pool, items, Take(w)), items)
  {
    var next := Step(pool, items, Take(w));
    assert !InHand(pool, pool.next) || pool.next >= items;
    forall v, i: nat ensures IsBusyWith(next.workers, v, i) <==>
        IsBusyWith(pool.workers, v, i) || (v == w && i == pool.next && pool.next < items)
    {
    }
    forall i: nat ensures InHand(next, i) <==> InHand(pool, i) || (i == pool.next && pool.next < items) {
      if InHand(pool, i) {
        var v :| IsBusyWith(pool.workers, v, i);
        assert IsBusyWith(next.workers, v, i);
      }
      if i == pool.next && pool.next < items {
        assert IsBusyWith(next.workers, w, i);
      }
      if InHand(next, i) {
        var v :| IsBusyWith(next.workers, v, i);
        assert IsBusyWith(pool.workers, v, i) || i == pool.next;
      }
    }
    forall v, u, i: nat | IsBusyWith(next.workers, v, i) && IsBusyWith(next.workers, u, i) ensures v == u {
      if i == pool.next && pool.next < items {
        assert !Taken(pool, items, i) && !InHand(pool, i);
      }
    }
  }

  lemma DeliverKeeps<R(!new)>(pool: Pool<R>, items: nat, w: nat, r: R)
    requires Consistent(pool, items) && Enabled(pool, Deliver(w, r))
    ensures Consistent(Step(pool, items, Deliver(w, r)), items)
  {
    var next := Step(pool, items, Deliver(w, r));
    var item := pool.workers[w].item;
    assert IsBusyWith(pool.workers, w, item) && InHand(pool, item);
    forall v, i: nat ensures IsBusyWith(next.workers, v, i) <==> IsBusyWith(pool.workers, v, i) && v != w {
    }
    forall i: nat ensures InHand(next, i) <==> InHand(pool, i) && i != item {
      if InHand(pool, i) && i != item {
        var v :| IsBusyWith(pool.workers, v, i);
        assert IsBusyWith(next.workers, v, i);
      }
      if InHand(next, i) {
        var v :| IsBusyWith(next.workers, v, i);
        assert IsBusyWith(pool.workers, v, i);
      }
    }
  }

  // ---- runs ----

  ghost predicate IsRun<R(!new)>(states: seq<Pool<R>>, events: seq<Event<R>>, items: nat) {
    && |states| == |events| + 1
    && forall k {:trigger events[k]} :: 0 <= k < |events| ==>
         Enabled(states[k], events[k]) && states[k + 1] == Step(states[k], items, events[k])
  }

  /** The event hands back the result of the item. */
  predicate Delivers<R>(pool: Pool<R>, e: Event<R>, i: nat) {
    e.Deliver? && IsBusyWith(pool.workers, e.worker, i)
  }

  ghost function Deliveries<R(!new)>(states: seq<Pool<R>>, events: seq<Event<R>>, items: nat, i: nat): nat
    requires IsRun(states, events, items)
    decreases |events|
  {
    if events == [] then 0
    else
      var n := |events| - 1;
      assert IsRun(states[..n + 1], events[..n], items) by { InitRun(states, events, items); }
      Deliveries(states[..n + 1], events[..n], items, i) + if Delivers(states[n], events[n], i) then 1 else 0
  }

  lemma InitRun<R(!new)>(states: seq<Pool<R>>, events: seq<Event<R>>, items: nat)
    requires IsRun(states, events, items) && events != []
    ensures |states| == |events| + 1 && IsRun(states[..|events|], events[..|events| - 1], items)
    ensures Enabled(states[|events| - 1], events[|events| - 1])
    ensures states[|events|] == Step(states[|events| - 1], items, events[|events| - 1])
  {
    hide Enabled, Step;
    var n := |events| - 1;
    var e := events[n];
    forall k | 0 <= k < n
      ensures Enabled(states[..n + 1][k], events[..n][k]) && states[..n + 1][k + 1] == Step(states[..n + 1][k], items, events[..n][k])
    {
      var f := events[k];
    }
  }

  lemma {:induction false} RunsStayConsistent<R(!new)>(states: seq<Pool<R>>, events: seq<Event<R>>, items: nat, limit: int)
    requires IsRun(states, events, items) && states[0] == Start(items, limit)
    ensures Consistent(states[|events|], items) && |states[|events|].workers| == Width(items, limit)
    decreases |events|
  {
    hide Consistent, IsRun;
    StartIsConsistent<R>(items, limit);
    if events != [] {
      var n := |events| - 1;
      InitRun(states, events, items);
      RunsStayConsistent(states[..n + 1], events[..n], items, limit);
      if events[n].Take? {
        TakeKeeps(states[n], items, events[n].worker);
      } else {
        DeliverKeeps(states[n], items, events[n].worker, events[n].result);
      }
    }
  }

  lemma OneDelivery<R(!new)>(pool: Pool<R>, items: nat, e: Event<R>, i: nat)
    requires Consistent(pool, items) && Enabled(pool, e)
    ensures i in Step(pool, items, e).results <==> i in pool.results || Delivers(pool, e, i)
    ensures Delivers(pool, e, i) ==> i !in pool.results
  {
    if Delivers(pool, e, i) {
      assert InHand(pool, i);
    }
  }

  /** However the workers interleave, an item is delivered once if its result is there, and otherwise not at all. */
  lemma {:induction false} DeliveredOnce<R(!new)>(states: seq<Pool<R>>, events: seq<Event<R>>, items: nat, limit: int, i: nat)
    requires IsRun(states, events, items) && states[0] == Start(items, limit)
    ensures Deliveries(states, events, items, i) == if i in states[|events|].results then 1 else 0
    decreases |events|
  {
    hide Consistent, Delivers, IsRun, Enabled;
    if events != [] {
      var n := |events| - 1;
      InitRun(states, events, items);
      DeliveredOnce(states[..n + 1], events[..n], items, limit, i);
      RunsStayConsistent(states[..n + 1], events[..n], items, limit);
      OneDelivery(states[n], items, events[n], i);
    }
  }

  /** The items that calls are under way for. */
  function Underway(workers: seq<Worker>): (r: set<nat>)
    ensures |r| <= |workers|
  {
    if workers == [] then {}
    else Underway(workers[1..]) + if workers[0].Busy? then {workers[0].item} else {}
  }

  lemma {:induction false} UnderwayAre(workers: seq<Worker>, i: nat)
    ensures i in Underway(workers) <==> exists w: nat :: IsBusyWith(workers, w, i)
  {
    if workers != [] {
      UnderwayAre(workers[1..], i);
      if w: nat :| IsBusyWith(workers[1..], w, i) {
        assert IsBusyWith(workers, w + 1, i);
      }
      if w: nat :| IsBusyWith(workers, w, i) {
        assert w > 0 ==> IsBusyWith(workers[1..], w - 1, i);
      }
      if workers[0] == Busy(i) {
        assert IsBusyWith(workers, 0, i);
      }
    }
  }

  /** At no time are calls under way for more items than the limit allows, one at least. */
  lemma LimitHolds<R(!new)>(states: seq<Pool<R>>, events: seq<Event<R>>, items: nat, limit: int)
    requires IsRun(states, events, items) && states[0] == Start(items, limit)
    ensures var busy := Underway(states[|events|].workers);
      && (forall i :: i in busy <==> InHand(states[|events|], i))
      && |busy| <= if limit < 1 then 1 else limit
  {
    hide Consistent, Underway;
    RunsStayConsistent(states, events, items, limit);
    WidthIs(items, limit, Width(items, limit));
    forall i ensures i in Underway(states[|events|].workers) <==> InHand(states[|events|], i) {
      UnderwayAre(states[|events|].workers, i);
    }
  }

  /** What each delivery keeps to, the results keep to. */
  lemma {:induction false} ResultsAreAllowed<R(!new)>(states: seq<Pool<R>>, events: seq<Event<R>>, items: nat, limit: int,
                                                      allowed: (nat, R) -> bool, i: nat)
    requires IsRun(states, events, items) && states[0] == Start(items, limit)
    requires forall k {:trigger events[k]} :: 0 <= k < |events| && events[k].Deliver? ==>
               states[k].workers[events[k].worker].Busy? && allowed(states[k].workers[events[k].worker].item, events[k].result)
    requires i in states[|events|].results
    ensures allowed(i, states[|events|].results[i])
    decreases |events|
  {
    if events != [] {
      var n := |events| - 1;
      InitRun(states, events, items);
      var e := events[n];
      if i in states[n].results && !(e.Deliver? && states[n].workers[e.worker].item == i) {
        assert forall k :: 0 <= k < n ==> events[..n][k] == events[k];
        ResultsAreAllowed(states[..n + 1], events[..n], items, limit, allowed, i);
      }
    }
  }

  // ---- the end of a run ----

  function Weight(w: Worker): nat {
    match w case Idle => 1 case Busy(_) => 2 case Finished => 0
  }

  function Weights(workers: seq<Worker>): nat {
    if workers == [] then 0 else Weights(workers[..|workers| - 1]) + Weight(workers[|workers| - 1])
  }

  function Work<R>(pool: Pool<R>, items: nat): nat {
    Weights(pool.workers) + if pool.next < items then 2 * (items - pool.next) else 0
  }

  lemma {:induction false} WeightUpdate(workers: seq<Worker>, w: nat, next: Worker)
    requires w < |workers|
    ensures Weights(workers[w := next]) == Weights(workers) - Weight(workers[w]) + Weight(next)
    decreases |workers|
  {
    var n := |workers| - 1;
    if w == n {
      assert workers[w := next][..n] == workers[..n];
    } else {
      assert workers[w := next][..n] == workers[..n][w := next];
      WeightUpdate(workers[..n], w, next);
    }
  }

  lemma StepWorks<R>(pool: Pool<R>, items: nat, e: Event<R>)
    requires Enabled(pool, e)
    ensures Work(Step(pool, items, e), items) < Work(pool, items)
  {
    hide Weights;
    WeightUpdate(pool.workers, e.worker, Step(pool, items, e).workers[e.worker]);
  }

  lemma {:induction false} StartWeights(n: nat)
    ensures Weights(seq(n, _ => Idle)) == n
  {
    if n > 0 {
      StartWeights(n - 1);
      assert seq(n, _ => Idle)[..n - 1] == seq(n - 1, _ => Idle);
    }
  }

  /** No run takes more than two steps for each item and one for each worker. */
  lemma {:induction false} RunsAreBounded<R(!new)>(states: seq<Pool<R>>, events: seq<Event<R>>, items: nat, limit: int)
    requires IsRun(states, events, items) && states[0] == Start(items, limit)
    ensures |events| + Work(states[|events|], items) <= 2 * items + Width(items, limit)
    decreases |events|
  {
    hide Weights, Enabled, Step, IsRun;
    if events == [] {
      StartWeights(Width(items, limit));
      SameStart<R>(items, limit);
    } else {
      var n := |events| - 1;
      InitRun(states, events, items);
      RunsAreBounded(states[..n + 1], events[..n], items, limit);
      StepWorks(states[n], items, events[n]);
    }
  }

  lemma SameStart<R>(items: nat, limit: int)
    ensures Start<R>(items, limit).workers == seq(Width(items, limit), _ => Idle)
  {
  }

  /** A run that can go no further has every worker finished, and exactly one result for each item. */
  lemma StuckMeansDone<R(!new)>(pool: Pool<R>, items: nat, some: R)
    requires Consistent(pool, items) && pool.workers != []
    requires forall e: Event<R> :: !Enabled(pool, e)
    ensures forall w :: 0 <= w < |pool.workers| ==> pool.workers[w].Finished?
    ensures forall i :: i in pool.results <==> 0 <= i < items
  {
    forall w: nat | w < |pool.workers| ensures pool.workers[w].Finished? {
      assert !Enabled(pool, Take(w)) && !Enabled(pool, Deliver(w, some));
    }
    assert pool.workers[0].Finished?;
    forall i: nat ensures i in pool.results <==> i < items {
      assert !InHand(pool, i);
      assert i < items ==> Taken(pool, items, i);
      assert i in pool.results ==> Taken(pool, items, i);
    }
  }
}
