/** A fixed-size reservoir over a stream, and why every stream item is equally likely to stay in it. */
module ReservoirSampling {

  // ---- which stream positions a sequence of draws keeps ----

  /**
   The stream positions held by a reservoir of `k` items after `k + |draws|`
   stream items, where the j-th draw was made for the item at position `k + j`.
   */
  function Positions(k: nat, draws: seq<nat>): (ps: seq<nat>)
    ensures |ps| == k
  {
    if draws == [] then seq(k, i => i)
    else
      var n := |draws| - 1;
      var before := Positions(k, draws[..n]);
      if draws[n] < k then before[draws[n] := k + n] else before
  }

  /** The positions held after `n` items, filled or not. */
  function Held(k: nat, n: nat, draws: seq<nat>): seq<nat> {
    if n <= k then seq(n, i => i) else Positions(k, draws)
  }

  ghost predicate DistinctBelow(ps: seq<nat>, n: nat) {
    && (forall i :: 0 <= i < |ps| ==> ps[i] < n)
    && (forall i, j :: 0 <= i < j < |ps| ==> ps[i] != ps[j])
  }

  lemma {:induction false} PositionsDistinct(k: nat, draws: seq<nat>)
    ensures DistinctBelow(Positions(k, draws), k + |draws|)
  {
    if draws != [] {
      PositionsDistinct(k, draws[..|draws| - 1]);
    }
  }

  /** One draw: item `k + |draws|` replaces the drawn slot, if the draw is a slot. */
  lemma PositionsSnoc(k: nat, draws: seq<nat>, c: nat)
    ensures Positions(k, draws + [c])
      == if c < k then Positions(k, draws)[c := k + |draws|] else Positions(k, draws)
  {
    assert (draws + [c])[..|draws|] == draws;
  }

  // ---- counting draw sequences ----

  type Outcome = seq<nat> -> bool

  /**
   How many ways there are to go on from `draws` with `m` more draws, each of
   them any number below the item's place in the stream, so that `good` holds.
   */
  ghost function Count(k: nat, draws: seq<nat>, m: nat, good: Outcome): nat
    decreases m, 1, 0
  {
    if m == 0 then (if good(draws) then 1 else 0) else CountNext(k, draws, m, good, k + |draws| + 1)
  }

  /** The ways whose next draw is below `c`. */
  ghost function CountNext(k: nat, draws: seq<nat>, m: nat, good: Outcome, c: nat): nat
    requires m > 0
    decreases m, 0, c
  {
    if c == 0 then 0 else CountNext(k, draws, m, good, c - 1) + Count(k, draws + [c - 1], m - 1, good)
  }

  function Any(): Outcome {
    (d: seq<nat>) => true
  }

  /** Stream position `i` is still in the reservoir. */
  function Keeps(k: nat, i: nat): Outcome {
    (d: seq<nat>) => i in Positions(k, d)
  }

  /** n (n + 1) ... (n + m - 1) */
  ghost function Rising(n: nat, m: nat): nat
    decreases m
  {
    if m == 0 then 1 else n * Rising(n + 1, m - 1)
  }

  lemma {:induction false} RisingLast(n: nat, m: nat)
    ensures Rising(n, m + 1) == Rising(n, m) * (n + m)
    decreases m
  {
    if m > 0 {
      RisingLast(n + 1, m - 1);
      Associate(n, Rising(n + 1, m - 1), n + m);
    }
  }

  lemma Associate(a: nat, b: nat, c: nat)
    ensures a * (b * c) == (a * b) * c && a * (b * c) == b * (a * c)
  {
  }

  lemma OneMore(a: nat, q: nat)
    ensures a * q + q == (a + 1) * q
  {
  }

  /** When every next draw leaves the same number of ways. */
  lemma {:induction false} EvenNext(k: nat, draws: seq<nat>, m: nat, good: Outcome, c: nat, each: nat)
    requires m > 0
    requires forall x :: 0 <= x < c ==> Count(k, draws + [x], m - 1, good) == each
    ensures CountNext(k, draws, m, good, c) == c * each
  {
    if c > 0 {
      EvenNext(k, draws, m, good, c - 1, each);
      OneMore(c - 1, each);
    }
  }

  /** When one draw, at most `c`, leaves no way and all others up to `c` the same number. */
  lemma {:induction false} AllButOneNext(k: nat, draws: seq<nat>, m: nat, good: Outcome, c: nat, s: nat, each: nat)
    requires m > 0 && s <= c
    requires forall x :: 0 <= x <= c && x != s ==> Count(k, draws + [x], m - 1, good) == each
    requires Count(k, draws + [s], m - 1, good) == 0
    ensures CountNext(k, draws, m, good, c + 1) == c * each
  {
    assert CountNext(k, draws, m, good, c + 1) == CountNext(k, draws, m, good, c) + Count(k, draws + [c], m - 1, good);
    if s == c {
      EvenNext(k, draws, m, good, c, each);
    } else {
      AllButOneNext(k, draws, m, good, c - 1, s, each);
      OneMore(c - 1, each);
    }
  }

  /** When only the draws below `k` leave any way. */
  lemma {:induction false} OnlySlotsNext(k: nat, draws: seq<nat>, m: nat, good: Outcome, c: nat, each: nat)
    requires m > 0 && c >= k
    requires forall x :: 0 <= x < k ==> Count(k, draws + [x], m - 1, good) == each
    requires forall x :: k <= x < c ==> Count(k, draws + [x], m - 1, good) == 0
    ensures CountNext(k, draws, m, good, c) == k * each
  {
    if c == k {
      EvenNext(k, draws, m, good, c, each);
    } else {
      OnlySlotsNext(k, draws, m, good, c - 1, each);
    }
  }

  lemma {:induction false} TotalCount(k: nat, draws: seq<nat>, m: nat)
    ensures Count(k, draws, m, Any()) == Rising(k + |draws| + 1, m)
    decreases m
  {
    if m > 0 {
      var n := k + |draws| + 1;
      forall x | 0 <= x < n ensures Count(k, draws + [x], m - 1, Any()) == Rising(n + 1, m - 1) {
        TotalCount(k, draws + [x], m - 1);
      }
      EvenNext(k, draws, m, Any(), n, Rising(n + 1, m - 1));
    }
  }

  // ---- uniformity ----

  /** An item that has been dropped never comes back. */
  lemma {:induction false} DroppedCount(k: nat, draws: seq<nat>, m: nat, i: nat)
    requires i < k + |draws| && i !in Positions(k, draws)
    ensures Count(k, draws, m, Keeps(k, i)) == 0
    decreases m
  {
    if m > 0 {
      var n := k + |draws| + 1;
      forall x | 0 <= x < n ensures Count(k, draws + [x], m - 1, Keeps(k, i)) == 0 {
        PositionsSnoc(k, draws, x);
        DroppedCount(k, draws + [x], m - 1, i);
      }
      EvenNext(k, draws, m, Keeps(k, i), n, 0);
    }
  }

  /** A kept item survives a draw unless the draw hits its slot. */
  lemma Survives(k: nat, draws: seq<nat>, i: nat, s: nat, c: nat)
    requires s < k && Positions(k, draws)[s] == i
    ensures i in Positions(k, draws + [c]) <==> c != s
  {
    PositionsDistinct(k, draws);
    PositionsSnoc(k, draws, c);
    if c != s {
      assert Positions(k, draws + [c])[s] == i;
    }
  }

  lemma {:induction false} KeptCount(k: nat, draws: seq<nat>, m: nat, i: nat)
    requires i in Positions(k, draws)
    ensures Count(k, draws, m, Keeps(k, i)) == Rising(k + |draws|, m)
    decreases m
  {
    if m > 0 {
      PositionsDistinct(k, draws);
      var s :| 0 <= s < k && Positions(k, draws)[s] == i;
      var n := k + |draws| + 1;
      var each := Rising(n, m - 1);
      forall x | 0 <= x < n && x != s ensures Count(k, draws + [x], m - 1, Keeps(k, i)) == each {
        Survives(k, draws, i, s, x);
        KeptCount(k, draws + [x], m - 1, i);
      }
      Survives(k, draws, i, s, s);
      DroppedCount(k, draws + [s], m - 1, i);
      AllButOneNext(k, draws, m, Keeps(k, i), n - 1, s, each);
    }
  }

  /** An item enters when its own draw hits a slot. */
  lemma Enters(k: nat, draws: seq<nat>, c: nat)
    ensures k + |draws| in Positions(k, draws + [c]) <==> c < k
  {
    PositionsDistinct(k, draws);
    PositionsSnoc(k, draws, c);
    if c < k {
      assert Positions(k, draws + [c])[c] == k + |draws|;
    }
  }

  /** The item comes next. */
  lemma ArrivingCount(k: nat, draws: seq<nat>, m: nat)
    requires m > 0
    ensures Count(k, draws, m, Keeps(k, k + |draws|)) == k * Rising(k + |draws| + 1, m - 1)
  {
    var i, n := k + |draws|, k + |draws| + 1;
    var each := Rising(n, m - 1);
    forall x | 0 <= x < k ensures Count(k, draws + [x], m - 1, Keeps(k, i)) == each {
      Enters(k, draws, x);
      KeptCount(k, draws + [x], m - 1, i);
    }
    forall x | k <= x < n ensures Count(k, draws + [x], m - 1, Keeps(k, i)) == 0 {
      Enters(k, draws, x);
      DroppedCount(k, draws + [x], m - 1, i);
    }
    OnlySlotsNext(k, draws, m, Keeps(k, i), n, each);
  }

  lemma {:induction false} FutureCount(k: nat, draws: seq<nat>, m: nat, i: nat)
    requires m > 0 && k + |draws| <= i < k + |draws| + m
    ensures Count(k, draws, m, Keeps(k, i)) == k * Rising(k + |draws| + 1, m - 1)
    decreases m
  {
    if i == k + |draws| {
      ArrivingCount(k, draws, m);
    } else {
      var n := k + |draws| + 1;
      var each := k * Rising(n + 1, m - 2);
      forall x | 0 <= x < n ensures Count(k, draws + [x], m - 1, Keeps(k, i)) == each {
        FutureCount(k, draws + [x], m - 1, i);
      }
      EvenNext(k, draws, m, Keeps(k, i), n, each);
      Associate(n, k, Rising(n + 1, m - 2));
    }
  }

  /**
   Uniformity: of the equally likely draw sequences of a stream of `n = k + m`
   items, exactly a `k / n` fraction leaves any given item in the reservoir.
   */
  lemma Uniform(k: nat, m: nat, i: nat)
    requires k >= 1 && i < k + m
    ensures Count(k, [], m, Keeps(k, i)) * (k + m) == k * Count(k, [], m, Any())
  {
    TotalCount(k, [], m);
    if i < k {
      assert Positions(k, [])[i] == i;
      KeptCount(k, [], m, i);
      RisingLast(k, m);
      assert Rising(k, m + 1) == k * Rising(k + 1, m);
    } else {
      FutureCount(k, [], m, i);
      RisingLast(k + 1, m - 1);
      Associate(k, Rising(k + 1, m - 1), k + m);
    }
  }

  // ---- the sampler ----

  lemma HeldAfterDraw(k: nat, n: nat, draws: seq<nat>, c: nat)
    requires n >= k && |draws| == n - k
    ensures Held(k, n + 1, draws + [c]) == if c < k then Held(k, n, draws)[c := n] else Held(k, n, draws)
    ensures DistinctBelow(Held(k, n, draws), n)
  {
    PositionsSnoc(k, draws, c);
    PositionsDistinct(k, draws);
  }

  class ReservoirSample<T> {
    const size: int
    var items: seq<T>
    var seen: nat
    ghost var stream: seq<T>
    ghost var draws: seq<nat>

    /** The reservoir holds the items at the positions its draws keep; a reservoir without room stays empty. */
    ghost predicate Valid()
      reads this
    {
      if size <= 0 then items == [] && seen == 0
      else
        && seen == |stream|
        && |draws| == (if seen <= size then 0 else seen - size)
        && (forall j :: 0 <= j < |draws| ==> draws[j] < size + j + 1)
        && ItemsAre(Held(size, seen, draws))
    }

    ghost predicate ItemsAre(ps: seq<nat>)
      reads this
    {
      |items| == |ps| && forall j :: 0 <= j < |ps| ==> ps[j] < |stream| && items[j] == stream[ps[j]]
    }

    constructor (size: int)
      ensures this.size == size && stream == [] && Valid()
    {
      this.size := size;
      items, seen := [], 0;
      stream, draws := [], [];
    }

    /** Any number below `n`. */
    method RandRange(n: nat) returns (index: nat)
      requires n >= 1
      ensures index < n
    {
      index :| index < n;
    }

    method Add(item: T)
      requires Valid()
      modifies this
      ensures Valid()
      ensures size > 0 ==> stream == old(stream) + [item] && old(draws) <= draws
      ensures size <= 0 ==> items == [] && seen == 0
    {
      if size <= 0 {
        return;
      }
      seen := seen + 1;
      stream := stream + [item];
      if |items| < size {
        items := items + [item];
        return;
      }
      var index := RandRange(seen);
      HeldAfterDraw(size, seen - 1, draws, index);
      draws := draws + [index];
      if index < size {
        items := items[index := item];
      }
    }

    /** The sample is min(size, seen) items from distinct stream positions. */
    method Positions() returns (ghost ps: seq<nat>, count: nat)
      requires Valid() && size > 0
      ensures count == |items| && count == (if seen < size then seen else size)
      ensures DistinctBelow(ps, seen) && ItemsAre(ps)
    {
      count := |items|;
      ps := Held(size, seen, draws);
      PositionsDistinct(size, draws);
    }
  }
}
