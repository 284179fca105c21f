/** Lists of closed line ranges: merging, containment, subtraction, chunking. */
module LineIntervals {
  import opened Wrappers

  datatype Interval = Interval(lo: int, hi: int)

  predicate Proper(iv: Interval) {
    iv.lo <= iv.hi
  }

  predicate Has(iv: Interval, x: int) {
    iv.lo <= x <= iv.hi
  }

  /** Some line lies between the two. */
  predicate Before(a: Interval, b: Interval) {
    a.hi + 1 < b.lo
  }

  ghost predicate Covers(ivs: seq<Interval>, x: int) {
    exists k :: 0 <= k < |ivs| && Has(ivs[k], x)
  }

  ghost predicate SameLines(a: seq<Interval>, b: seq<Interval>) {
    forall x :: Covers(a, x) <==> Covers(b, x)
  }

  ghost predicate AllProper(ivs: seq<Interval>) {
    forall k {:trigger Proper(ivs[k])} :: 0 <= k < |ivs| ==> Proper(ivs[k])
  }

  /** Sorted, and no two of them touch. */
  ghost predicate Normal(ivs: seq<Interval>) {
    && AllProper(ivs)
    && forall k, l {:trigger Before(ivs[k], ivs[l])} :: 0 <= k < l < |ivs| ==> Before(ivs[k], ivs[l])
  }

  lemma SnocCovers(ivs: seq<Interval>, iv: Interval, x: int)
    ensures Covers(ivs + [iv], x) <==> Covers(ivs, x) || Has(iv, x)
  {
    var all := ivs + [iv];
    if Covers(ivs, x) {
      var k :| 0 <= k < |ivs| && Has(ivs[k], x);
      assert Has(all[k], x);
    }
    if Has(iv, x) {
      assert Has(all[|ivs|], x);
    }
  }

  lemma ConcatCovers(a: seq<Interval>, b: seq<Interval>, x: int)
    ensures Covers(a + b, x) <==> Covers(a, x) || Covers(b, x)
  {
    var all := a + b;
    if Covers(a, x) {
      var k :| 0 <= k < |a| && Has(a[k], x);
      assert Has(all[k], x);
    }
    if Covers(b, x) {
      var k :| 0 <= k < |b| && Has(b[k], x);
      assert Has(all[|a| + k], x);
    }
    if Covers(all, x) {
      var k :| 0 <= k < |all| && Has(all[k], x);
      assert if k < |a| then Has(a[k], x) else Has(b[k - |a|], x);
    }
  }

  lemma SnocNormal(ivs: seq<Interval>, iv: Interval)
    requires Normal(ivs) && Proper(iv)
    requires ivs != [] ==> Before(ivs[|ivs| - 1], iv)
    ensures Normal(ivs + [iv])
  {
    var all := ivs + [iv];
    forall k | 0 <= k < |all| ensures Proper(all[k]) {
      assert k < |ivs| ==> Proper(ivs[k]);
    }
    forall k, l | 0 <= k < l < |all| ensures Before(all[k], all[l]) {
      if l < |ivs| {
        assert Before(ivs[k], ivs[l]);
      } else if k < |ivs| - 1 {
        assert Before(ivs[k], ivs[|ivs| - 1]) && Proper(ivs[|ivs| - 1]);
      }
    }
  }

  lemma InitNormal(ivs: seq<Interval>)
    requires Normal(ivs) && ivs != []
    ensures Normal(ivs[..|ivs| - 1]) && Proper(ivs[|ivs| - 1])
    ensures |ivs| > 1 ==> Before(ivs[|ivs| - 2], ivs[|ivs| - 1])
  {
    var init := ivs[..|ivs| - 1];
    forall k | 0 <= k < |init| ensures Proper(init[k]) {
      assert Proper(ivs[k]);
    }
    forall k, l | 0 <= k < l < |init| ensures Before(init[k], init[l]) {
      assert Before(ivs[k], ivs[l]);
    }
  }

  // ---- sorting ----

  predicate Le(a: Interval, b: Interval) {
    a.lo < b.lo || (a.lo == b.lo && a.hi <= b.hi)
  }

  ghost predicate Ordered(ivs: seq<Interval>) {
    forall k, l {:trigger Le(ivs[k], ivs[l])} :: 0 <= k < l < |ivs| ==> Le(ivs[k], ivs[l])
  }

  function Insert(iv: Interval, ivs: seq<Interval>): (r: seq<Interval>)
    ensures multiset(r) == multiset(ivs) + multiset{iv}
  {
    if ivs == [] || Le(iv, ivs[0]) then [iv] + ivs
    else
      assert ivs == [ivs[0]] + ivs[1..];
      [ivs[0]] + Insert(iv, ivs[1..])
  }

  lemma {:induction false} InsertOrdered(iv: Interval, ivs: seq<Interval>)
    requires Ordered(ivs)
    ensures Ordered(Insert(iv, ivs))
  {
    var r := Insert(iv, ivs);
    if ivs == [] {
    } else if Le(iv, ivs[0]) {
      forall k, l | 0 <= k < l < |r| ensures Le(r[k], r[l]) {
        if k > 0 {
          assert Le(ivs[k - 1], ivs[l - 1]);
        } else if l > 1 {
          assert Le(ivs[0], ivs[l - 1]);
        }
      }
    } else {
      var rest := Insert(iv, ivs[1..]);
      forall k, l | 0 <= k < l < |ivs[1..]| ensures Le(ivs[1..][k], ivs[1..][l]) {
        assert Le(ivs[k + 1], ivs[l + 1]);
      }
      InsertOrdered(iv, ivs[1..]);
      forall k, l | 0 <= k < l < |r| ensures Le(r[k], r[l]) {
        if k > 0 {
          assert Le(rest[k - 1], rest[l - 1]);
        } else {
          FromMultiset(rest, ivs[1..], iv, l - 1);
          if rest[l - 1] != iv {
            var j :| 0 <= j < |ivs[1..]| && ivs[1..][j] == rest[l - 1];
            assert Le(ivs[0], ivs[j + 1]);
          }
        }
      }
    }
  }

  lemma FromMultiset(r: seq<Interval>, ivs: seq<Interval>, iv: Interval, k: nat)
    requires multiset(r) == multiset(ivs) + multiset{iv} && k < |r|
    ensures r[k] == iv || r[k] in ivs
  {
    assert r[k] in multiset(r);
  }

  function Sorted(ivs: seq<Interval>): (r: seq<Interval>)
    ensures multiset(r) == multiset(ivs)
  {
    if ivs == [] then [] else
      assert ivs == ivs[..|ivs| - 1] + [ivs[|ivs| - 1]];
      Insert(ivs[|ivs| - 1], Sorted(ivs[..|ivs| - 1]))
  }

  lemma {:induction false} SortedOrdered(ivs: seq<Interval>)
    ensures Ordered(Sorted(ivs))
  {
    if ivs != [] {
      SortedOrdered(ivs[..|ivs| - 1]);
      InsertOrdered(ivs[|ivs| - 1], Sorted(ivs[..|ivs| - 1]));
    }
  }

  lemma PermutationLines(a: seq<Interval>, b: seq<Interval>, x: int)
    requires multiset(a) == multiset(b) && Covers(a, x)
    ensures Covers(b, x)
  {
    var k :| 0 <= k < |a| && Has(a[k], x);
    assert a[k] in multiset(b);
    var l :| 0 <= l < |b| && b[l] == a[k];
    assert Has(b[l], x);
  }

  lemma PermutationProper(a: seq<Interval>, b: seq<Interval>)
    requires multiset(a) == multiset(b) && AllProper(a)
    ensures AllProper(b)
  {
    forall l | 0 <= l < |b| ensures Proper(b[l]) {
      assert b[l] in multiset(a);
      var k :| 0 <= k < |a| && a[k] == b[l];
      assert Proper(a[k]);
    }
  }

  lemma SortedLines(ivs: seq<Interval>)
    requires AllProper(ivs)
    ensures SameLines(Sorted(ivs), ivs) && AllProper(Sorted(ivs))
  {
    forall x ensures Covers(Sorted(ivs), x) <==> Covers(ivs, x) {
      if Covers(ivs, x) {
        PermutationLines(ivs, Sorted(ivs), x);
      }
      if Covers(Sorted(ivs), x) {
        PermutationLines(Sorted(ivs), ivs, x);
      }
    }
    PermutationProper(ivs, Sorted(ivs));
  }

  // ---- merging ----

  /** Stretching the last range over one that starts in it or right after it. */
  lemma Stretch(out: seq<Interval>, iv: Interval)
    requires Normal(out) && out != [] && Proper(iv)
    requires out[|out| - 1].lo <= iv.lo <= out[|out| - 1].hi + 1
    ensures var last := out[|out| - 1];
            var next := out[..|out| - 1] + [Interval(last.lo, Max(last.hi, iv.hi))];
            Normal(next) && SameLines(next, out + [iv])
  {
    var init, last := out[..|out| - 1], out[|out| - 1];
    var wide := Interval(last.lo, Max(last.hi, iv.hi));
    InitNormal(out);
    SnocNormal(init, wide);
    forall x ensures Covers(init + [wide], x) <==> Covers(out + [iv], x) {
      SnocCovers(init, wide, x);
      SnocCovers(out, iv, x);
      assert out == init + [last];
      SnocCovers(init, last, x);
    }
  }

  method Merge(ivs: seq<Interval>) returns (out: seq<Interval>)
    requires AllProper(ivs)
    ensures Normal(out) && SameLines(out, ivs)
  {
    if ivs == [] {
      return [];
    }
    var sorted := Sorted(ivs);
    SortedOrdered(ivs);
    SortedLines(ivs);
    assert |sorted| == |multiset(sorted)| == |ivs|;
    assert Proper(sorted[0]);
    out := [sorted[0]];
    assert sorted[..1] == out;
    for i := 1 to |sorted|
      invariant out != [] && Normal(out) && out[|out| - 1].lo <= sorted[i - 1].lo
      invariant SameLines(out, sorted[..i])
    {
      assert Le(sorted[i - 1], sorted[i]) && Proper(sorted[i]);
      var s, e := sorted[i].lo, sorted[i].hi;
      var last := out[|out| - 1];
      ghost var before := out;
      if s <= last.hi + 1 {
        Stretch(out, sorted[i]);
        out := out[..|out| - 1] + [Interval(last.lo, Max(last.hi, e))];
      } else {
        SnocNormal(out, Interval(s, e));
        out := out + [Interval(s, e)];
      }
      assert sorted[..i + 1] == sorted[..i] + [sorted[i]];
      forall x ensures Covers(out, x) <==> Covers(sorted[..i + 1], x) {
        SnocCovers(before, sorted[i], x);
        SnocCovers(sorted[..i], sorted[i], x);
      }
    }
    assert sorted[..|sorted|] == sorted;
  }

  lemma TailCovers(ivs: seq<Interval>, x: int)
    requires Normal(ivs) && ivs != []
    ensures Covers(ivs[1..], x) <==> Covers(ivs, x) && !Has(ivs[0], x)
  {
    if Covers(ivs[1..], x) {
      var k :| 0 <= k < |ivs[1..]| && Has(ivs[1..][k], x);
      assert Has(ivs[k + 1], x) && Before(ivs[0], ivs[k + 1]);
    }
    if Covers(ivs, x) && !Has(ivs[0], x) {
      var k :| 0 <= k < |ivs| && Has(ivs[k], x);
      assert Has(ivs[1..][k - 1], x);
    }
  }

  /** The first line of a normal list is its smallest; the line after its first range is not in it. */
  lemma FirstRange(ivs: seq<Interval>, x: int)
    requires Normal(ivs) && Covers(ivs, x)
    ensures ivs[0].lo <= x && x != ivs[0].hi + 1
    ensures Covers(ivs, ivs[0].lo)
  {
    var k :| 0 <= k < |ivs| && Has(ivs[k], x);
    assert k > 0 ==> Before(ivs[0], ivs[k]);
    assert Proper(ivs[0]) && Has(ivs[0], ivs[0].lo);
  }

  lemma FirstRangeWithin(a: seq<Interval>, b: seq<Interval>)
    requires Normal(a) && Normal(b) && SameLines(a, b) && a != [] && b != []
    ensures b[0].lo <= a[0].lo && (a[0].lo == b[0].lo ==> a[0].hi <= b[0].hi)
  {
    assert Proper(a[0]) && Proper(b[0]) && Has(a[0], a[0].lo);
    FirstRange(b, a[0].lo);
    if a[0].lo == b[0].lo && b[0].hi < a[0].hi {
      assert Has(a[0], b[0].hi + 1);
      FirstRange(b, b[0].hi + 1);
    }
  }

  /** A set of lines has one normal list: merging is canonical. */
  lemma {:induction false} NormalIsUnique(a: seq<Interval>, b: seq<Interval>)
    requires Normal(a) && Normal(b) && SameLines(a, b)
    ensures a == b
  {
    if a == [] || b == [] {
      if a != [] {
        assert Proper(a[0]) && Has(a[0], a[0].lo);
        assert Covers(a, a[0].lo) && !Covers(b, a[0].lo);
      } else if b != [] {
        assert Proper(b[0]) && Has(b[0], b[0].lo);
        assert Covers(b, b[0].lo) && !Covers(a, b[0].lo);
      }
    } else {
      FirstRangeWithin(a, b);
      FirstRangeWithin(b, a);
      assert a[0] == b[0];
      TailNormal(a);
      TailNormal(b);
      forall x ensures Covers(a[1..], x) <==> Covers(b[1..], x) {
        TailCovers(a, x);
        TailCovers(b, x);
      }
      NormalIsUnique(a[1..], b[1..]);
      assert a == [a[0]] + a[1..] && b == [b[0]] + b[1..];
    }
  }

  lemma TailNormal(ivs: seq<Interval>)
    requires Normal(ivs) && ivs != []
    ensures Normal(ivs[1..])
  {
    var tail := ivs[1..];
    forall k | 0 <= k < |tail| ensures Proper(tail[k]) {
      assert Proper(ivs[k + 1]);
    }
    forall k, l | 0 <= k < l < |tail| ensures Before(tail[k], tail[l]) {
      assert Before(ivs[k + 1], ivs[l + 1]);
    }
  }

  // ---- containment ----

  method Contained(s: int, e: int, ivs: seq<Interval>) returns (r: bool)
    ensures r <==> exists k :: 0 <= k < |ivs| && ivs[k].lo <= s && ivs[k].hi >= e
  {
    for i := 0 to |ivs|
      invariant forall k :: 0 <= k < i ==> !(ivs[k].lo <= s && ivs[k].hi >= e)
    {
      if ivs[i].lo <= s && ivs[i].hi >= e {
        return true;
      }
    }
    return false;
  }

  /** On a merged list, lying within one range is the same as having every line covered. */
  lemma ContainedMeansCovered(s: int, e: int, ivs: seq<Interval>)
    requires Normal(ivs) && s <= e
    ensures (exists k :: 0 <= k < |ivs| && ivs[k].lo <= s && ivs[k].hi >= e)
       <==> (forall x :: s <= x <= e ==> Covers(ivs, x))
  {
    if k :| 0 <= k < |ivs| && ivs[k].lo <= s && ivs[k].hi >= e {
      forall x | s <= x <= e ensures Covers(ivs, x) {
        assert Has(ivs[k], x);
      }
    }
    if forall x :: s <= x <= e ==> Covers(ivs, x) {
      assert Covers(ivs, s);
      var k :| 0 <= k < |ivs| && Has(ivs[k], s);
      if ivs[k].hi < e {
        assert Covers(ivs, ivs[k].hi + 1);
        var l :| 0 <= l < |ivs| && Has(ivs[l], ivs[k].hi + 1);
        assert k < l ==> Before(ivs[k], ivs[l]);
        assert l < k ==> Before(ivs[l], ivs[k]);
      }
    }
  }

  // ---- subtraction ----

  /** What is left of one range when another is cut out of it. */
  ghost predicate Left(iv: Interval, cut: Interval, x: int) {
    Has(iv, x) && !Has(cut, x)
  }

  ghost predicate LeftOf(ivs: seq<Interval>, cut: Interval, x: int) {
    Covers(ivs, x) && !Has(cut, x)
  }

  method CutFrom(out: seq<Interval>, cut: Interval) returns (rest: seq<Interval>)
    requires Normal(out) && Proper(cut)
    ensures Normal(rest) && forall x :: Covers(rest, x) <==> LeftOf(out, cut, x)
  {
    rest := [];
    for i := 0 to |out|
      invariant Normal(rest) && (i > 0 && rest != [] ==> rest[|rest| - 1].hi <= out[i - 1].hi) && (i == 0 ==> rest == [])
      invariant forall x :: Covers(rest, x) <==> LeftOf(out[..i], cut, x)
    {
      ghost var before := rest;
      var a, b := out[i].lo, out[i].hi;
      assert Proper(out[i]);
      assert i > 0 ==> Before(out[i - 1], out[i]);
      if cut.hi < a || cut.lo > b {
        SnocNormal(rest, Interval(a, b));
        rest := rest + [Interval(a, b)];
        forall x ensures Covers(rest, x) <==> Covers(before, x) || Left(out[i], cut, x) {
          SnocCovers(before, Interval(a, b), x);
        }
      } else {
        if cut.lo > a {
          SnocNormal(rest, Interval(a, cut.lo - 1));
          rest := rest + [Interval(a, cut.lo - 1)];
        }
        ghost var middle := rest;
        if cut.hi < b {
          SnocNormal(rest, Interval(cut.hi + 1, b));
          rest := rest + [Interval(cut.hi + 1, b)];
        }
        forall x ensures Covers(rest, x) <==> Covers(before, x) || Left(out[i], cut, x) {
          SnocCovers(before, Interval(a, cut.lo - 1), x);
          SnocCovers(middle, Interval(cut.hi + 1, b), x);
        }
      }
      assert out[..i + 1] == out[..i] + [out[i]];
      forall x ensures Covers(rest, x) <==> LeftOf(out[..i + 1], cut, x) {
        SnocCovers(out[..i], out[i], x);
      }
    }
    assert out[..|out|] == out;
  }

  method Subtract(s: int, e: int, ivs: seq<Interval>) returns (out: seq<Interval>)
    requires s <= e && AllProper(ivs)
    ensures Normal(out)
    ensures forall x :: Covers(out, x) <==> s <= x <= e && !Covers(ivs, x)
  {
    out := [Interval(s, e)];
    forall x ensures Covers(out, x) <==> s <= x <= e {
      SnocCovers([], Interval(s, e), x);
      assert [] + [Interval(s, e)] == out;
    }
    var i := 0;
    while i < |ivs|
      invariant 0 <= i <= |ivs| && Normal(out)
      invariant forall x :: Covers(out, x) <==> s <= x <= e && !Covers(ivs[..i], x)
    {
      assert Proper(ivs[i]);
      out := CutFrom(out, ivs[i]);
      assert ivs[..i + 1] == ivs[..i] + [ivs[i]];
      forall x ensures Covers(out, x) <==> s <= x <= e && !Covers(ivs[..i + 1], x) {
        SnocCovers(ivs[..i], ivs[i], x);
      }
      i := i + 1;
      if out == [] {
        forall x | s <= x <= e ensures Covers(ivs, x) {
          assert !Covers(out, x) && Covers(ivs[..i], x);
          assert ivs == ivs[..i] + ivs[i..];
          ConcatCovers(ivs[..i], ivs[i..], x);
        }
        return;
      }
    }
    assert ivs[..i] == ivs;
  }

  // ---- sizes ----

  function Size(iv: Interval): int {
    iv.hi - iv.lo + 1
  }

  ghost function LineCount(ivs: seq<Interval>): int {
    if ivs == [] then 0 else LineCount(ivs[..|ivs| - 1]) + Size(ivs[|ivs| - 1])
  }

  lemma SnocCount(ivs: seq<Interval>, iv: Interval)
    ensures LineCount(ivs + [iv]) == LineCount(ivs) + Size(iv)
  {
    assert (ivs + [iv])[..|ivs|] == ivs;
  }

  ghost function Lines(lo: int, hi: int): (s: set<int>)
    requires lo <= hi + 1
    ensures |s| == hi + 1 - lo && forall x :: x in s <==> lo <= x <= hi
    decreases hi - lo + 1
  {
    if lo == hi + 1 then {} else Lines(lo, hi - 1) + {hi}
  }

  lemma BeforeLast(ivs: seq<Interval>, x: int)
    requires Normal(ivs) && ivs != [] && Covers(ivs[..|ivs| - 1], x)
    ensures x < ivs[|ivs| - 1].lo
  {
    var k :| 0 <= k < |ivs| - 1 && Has(ivs[..|ivs| - 1][k], x);
    assert Before(ivs[k], ivs[|ivs| - 1]);
  }

  /** The lines of a normal list as a set: there are as many as its ranges are long together. */
  lemma {:induction false} LineSet(ivs: seq<Interval>) returns (lines: set<int>)
    requires Normal(ivs)
    ensures forall x :: x in lines <==> Covers(ivs, x)
    ensures |lines| == LineCount(ivs)
  {
    if ivs == [] {
      lines := {};
    } else {
      var init, last := ivs[..|ivs| - 1], ivs[|ivs| - 1];
      InitNormal(ivs);
      var inner := LineSet(init);
      lines := inner + Lines(last.lo, last.hi);
      assert ivs == init + [last];
      forall x ensures x in lines <==> Covers(ivs, x) {
        SnocCovers(init, last, x);
      }
      forall x | x in inner ensures x !in Lines(last.lo, last.hi) {
        BeforeLast(ivs, x);
      }
      assert inner !! Lines(last.lo, last.hi);
    }
  }

  // ---- chunking ----

  /** Full chunks from the first line on, and what is left over at the end. */
  ghost function Chunking(s: int, e: int, cap: int): seq<Interval>
    requires cap >= 1
    decreases e - s
  {
    if s > e then [] else [Interval(s, Min(s + cap - 1, e))] + Chunking(s + cap, e, cap)
  }

  method ChunkRange(s: int, e: int, cap: int) returns (out: seq<Interval>)
    requires cap >= 1
    ensures out == Chunking(s, e, cap)
  {
    out := [];
    var cur := s;
    while cur <= e
      invariant out + Chunking(cur, e, cap) == Chunking(s, e, cap)
      decreases e - cur
    {
      var end := Min(cur + cap - 1, e);
      assert end < e ==> end + 1 == cur + cap;
      assert end == e ==> Chunking(cur + cap, e, cap) == [] == Chunking(end + 1, e, cap);
      out := out + [Interval(cur, end)];
      cur := end + 1;
    }
  }

  /** Chunks are never empty, never above the cap, and hold each line of the range once, in order. */
  lemma {:induction false} ChunksPartition(s: int, e: int, cap: int)
    requires cap >= 1 && s <= e + 1
    ensures var c := Chunking(s, e, cap);
            && (forall k :: 0 <= k < |c| ==> s <= c[k].lo && Proper(c[k]) && c[k].hi <= e && Size(c[k]) <= cap)
            && (forall k :: 0 <= k < |c| ==> c[k].lo == if k == 0 then s else c[k - 1].hi + 1)
            && (c != [] ==> c[|c| - 1].hi == e)
    decreases e - s
  {
    if s <= e {
      var c, rest := Chunking(s, e, cap), Chunking(s + cap, e, cap);
      if s + cap <= e {
        ChunksPartition(s + cap, e, cap);
        forall k | 0 < k < |c|
          ensures s <= c[k].lo && Proper(c[k]) && c[k].hi <= e && Size(c[k]) <= cap && c[k].lo == c[k - 1].hi + 1
        {
          assert c[k] == rest[k - 1];
        }
      } else {
        assert rest == [];
      }
    }
  }

  /** No smaller number of calls could return the range. */
  lemma {:induction false} ChunkNumber(s: int, e: int, cap: int)
    requires cap >= 1 && s <= e
    ensures var n := |Chunking(s, e, cap)|; (n - 1) * cap < e - s + 1 <= n * cap
    decreases e - s
  {
    if s + cap <= e {
      ChunkNumber(s + cap, e, cap);
    } else {
      assert Chunking(s + cap, e, cap) == [];
    }
  }
}
