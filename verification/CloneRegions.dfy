/** Cutting the window indices of one cluster in one file into regions. */
module CloneRegions {

  const CLONE_WINDOW: nat := 7

  /** The first and the last window index of a region. */
  datatype Region = Region(start: nat, end: nat)

  ghost predicate Increasing(idxs: seq<nat>) {
    forall i, j :: 0 <= i < j < |idxs| ==> idxs[i] < idxs[j]
  }

  predicate Within(r: Region, x: nat) {
    r.start <= x <= r.end
  }

  /** From here the region goes on with the next index, which is within the window size. */
  predicate Continues(idxs: seq<nat>, j: nat) {
    j + 1 < |idxs| && idxs[j + 1] <= idxs[j] + CLONE_WINDOW
  }

  ghost predicate Bounded(idxs: seq<nat>, r: Region) {
    r.start in idxs && r.end in idxs && r.start <= r.end
  }

  ghost predicate SomeWithin(regions: seq<Region>, x: nat) {
    exists k :: 0 <= k < |regions| && Within(regions[k], x)
  }

  ghost predicate EndsAreIndices(idxs: seq<nat>, regions: seq<Region>) {
    forall k :: 0 <= k < |regions| ==> Bounded(idxs, regions[k])
  }

  predicate Apart(r: Region, s: Region) {
    r.end + CLONE_WINDOW < s.start
  }

  ghost predicate FarApart(regions: seq<Region>) {
    forall k, l {:trigger Apart(regions[k], regions[l])} :: 0 <= k < l < |regions| ==> Apart(regions[k], regions[l])
  }

  ghost predicate AllWithin(idxs: seq<nat>, regions: seq<Region>) {
    forall j {:trigger SomeWithin(regions, idxs[j])} :: 0 <= j < |idxs| ==> SomeWithin(regions, idxs[j])
  }

  ghost predicate NoGapInside(idxs: seq<nat>, r: Region) {
    forall j {:trigger Within(r, idxs[j])} ::
      0 <= j < |idxs| && Within(r, idxs[j]) && idxs[j] < r.end ==> Continues(idxs, j)
  }

  ghost predicate NoGaps(idxs: seq<nat>, regions: seq<Region>) {
    forall k {:trigger NoGapInside(idxs, regions[k])} :: 0 <= k < |regions| ==> NoGapInside(idxs, regions[k])
  }

  /**
   The regions begin and end at indices, hold every index, have no gap above
   the window size inside, and have one between any two of them.
   */
  ghost predicate IsCut(idxs: seq<nat>, regions: seq<Region>) {
    EndsAreIndices(idxs, regions) && FarApart(regions) && AllWithin(idxs, regions) && NoGaps(idxs, regions)
  }

  // ---- the scan ----

  lemma SnocBounded(idxs: seq<nat>, r: Region, x: nat)
    requires Bounded(idxs, r)
    ensures Bounded(idxs + [x], r)
    ensures r.start <= x ==> Bounded(idxs + [x], Region(r.start, x))
  {
    assert (idxs + [x])[|idxs|] == x;
  }

  lemma AtMostLast(idxs: seq<nat>, x: nat)
    requires Increasing(idxs) && x in idxs
    ensures x <= idxs[|idxs| - 1]
  {
  }

  lemma SnocIncreasing(idxs: seq<nat>, x: nat)
    requires Increasing(idxs + [x])
    ensures Increasing(idxs)
  {
    forall i, j | 0 <= i < j < |idxs| ensures idxs[i] < idxs[j] {
      assert (idxs + [x])[i] < (idxs + [x])[j];
    }
  }

  /** A region that ends before the new index keeps having no gap. */
  lemma SnocNoGapBefore(idxs: seq<nat>, r: Region, x: nat)
    requires NoGapInside(idxs, r) && r.end < x
    ensures NoGapInside(idxs + [x], r)
  {
    var all := idxs + [x];
    forall j | 0 <= j < |all| && Within(r, all[j]) && all[j] < r.end ensures Continues(all, j) {
      assert Within(r, idxs[j]) && Continues(idxs, j);
    }
  }

  /** The region that ended at the last index stretches to a new index near it. */
  lemma SnocNoGapLast(idxs: seq<nat>, r: Region, x: nat)
    requires NoGapInside(idxs, r) && Increasing(idxs)
    requires idxs != [] && r.end == idxs[|idxs| - 1] < x <= r.end + CLONE_WINDOW
    ensures NoGapInside(idxs + [x], Region(r.start, x))
  {
    var all := idxs + [x];
    forall j | 0 <= j < |all| && Within(Region(r.start, x), all[j]) && all[j] < x ensures Continues(all, j) {
      if j < |idxs| - 1 {
        assert idxs[j] < idxs[|idxs| - 1];
        assert Within(r, idxs[j]) && Continues(idxs, j);
      }
    }
  }

  lemma ExtendLast(idxs: seq<nat>, done: seq<Region>, start: nat, prev: nat, x: nat)
    requires IsCut(idxs, done + [Region(start, prev)])
    requires Increasing(idxs + [x]) && idxs != [] && idxs[|idxs| - 1] == prev
    requires prev < x <= prev + CLONE_WINDOW
    ensures IsCut(idxs + [x], done + [Region(start, x)])
  {
    var before, after, all := done + [Region(start, prev)], done + [Region(start, x)], idxs + [x];
    var n := |done|;
    SnocIncreasing(idxs, x);
    forall k | 0 <= k < |after| ensures Bounded(all, after[k]) && NoGapInside(all, after[k]) {
      assert Bounded(idxs, before[k]) && NoGapInside(idxs, before[k]);
      AtMostLast(idxs, before[k].end);
      SnocBounded(idxs, before[k], x);
      if k == n {
        SnocNoGapLast(idxs, before[n], x);
      } else {
        SnocNoGapBefore(idxs, before[k], x);
      }
    }
    forall k, l | 0 <= k < l < |after| ensures Apart(after[k], after[l]) {
      assert Apart(before[k], before[l]);
    }
    assert Bounded(idxs, before[n]);
    ExtendHolds(idxs, done, start, prev, x);
  }

  lemma ExtendHolds(idxs: seq<nat>, done: seq<Region>, start: nat, prev: nat, x: nat)
    requires AllWithin(idxs, done + [Region(start, prev)]) && start <= prev < x
    ensures AllWithin(idxs + [x], done + [Region(start, x)])
  {
    var before, after, all := done + [Region(start, prev)], done + [Region(start, x)], idxs + [x];
    forall j | 0 <= j < |all| ensures SomeWithin(after, all[j]) {
      if j == |idxs| {
        assert Within(after[|done|], x);
      } else {
        assert SomeWithin(before, idxs[j]);
        var k :| 0 <= k < |before| && Within(before[k], idxs[j]);
        assert Within(after[k], all[j]);
      }
    }
  }

  lemma OpenHolds(idxs: seq<nat>, regions: seq<Region>, x: nat)
    requires AllWithin(idxs, regions)
    ensures AllWithin(idxs + [x], regions + [Region(x, x)])
  {
    var after, all := regions + [Region(x, x)], idxs + [x];
    forall j | 0 <= j < |all| ensures SomeWithin(after, all[j]) {
      if j == |idxs| {
        assert Within(after[|regions|], x);
      } else {
        assert SomeWithin(regions, idxs[j]);
        var k :| 0 <= k < |regions| && Within(regions[k], idxs[j]);
        assert Within(after[k], all[j]);
      }
    }
  }

  lemma OpenRegion(idxs: seq<nat>, regions: seq<Region>, x: nat)
    requires IsCut(idxs, regions) && Increasing(idxs + [x])
    requires idxs != [] && idxs[|idxs| - 1] + CLONE_WINDOW < x
    ensures IsCut(idxs + [x], regions + [Region(x, x)])
  {
    var after, all := regions + [Region(x, x)], idxs + [x];
    var n := |regions|;
    SnocIncreasing(idxs, x);
    forall k | 0 <= k < n
      ensures Apart(regions[k], Region(x, x)) && Bounded(all, regions[k]) && NoGapInside(all, regions[k])
    {
      assert Bounded(idxs, regions[k]) && NoGapInside(idxs, regions[k]);
      AtMostLast(idxs, regions[k].end);
      SnocBounded(idxs, regions[k], x);
      SnocNoGapBefore(idxs, regions[k], x);
    }
    assert all[|idxs|] == x;
    assert Bounded(all, Region(x, x)) && NoGapInside(all, Region(x, x));
    OpenHolds(idxs, regions, x);
    forall k, l | 0 <= k < l < |after| ensures Apart(after[k], after[l]) {
      if l < n {
        assert Apart(regions[k], regions[l]);
      }
    }
  }

  /** The scan starts with one region holding the first index. */
  lemma FirstRegion(x: nat)
    ensures IsCut([x], [Region(x, x)])
  {
    assert Within([Region(x, x)][0], x);
    assert SomeWithin([Region(x, x)], [x][0]);
    assert NoGapInside([x], Region(x, x));
  }

  function Size(r: Region): int {
    r.end + CLONE_WINDOW - r.start
  }

  ghost function TotalSize(regions: seq<Region>): int {
    if regions == [] then 0 else TotalSize(regions[..|regions| - 1]) + Size(regions[|regions| - 1])
  }

  lemma SnocSize(regions: seq<Region>, r: Region)
    ensures TotalSize(regions + [r]) == TotalSize(regions) + Size(r)
  {
    assert (regions + [r])[..|regions|] == regions;
  }

  /** One step of the scan keeps the cut of the indices seen so far. */
  lemma ScanStep(idxs: seq<nat>, k: nat, regions: seq<Region>, start: nat, prev: nat)
    requires Increasing(idxs) && 0 < k < |idxs| && prev == idxs[k - 1]
    requires IsCut(idxs[..k], regions + [Region(start, prev)])
    ensures idxs[k] > prev + CLONE_WINDOW
        ==> IsCut(idxs[..k + 1], regions + [Region(start, prev)] + [Region(idxs[k], idxs[k])])
    ensures idxs[k] <= prev + CLONE_WINDOW ==> IsCut(idxs[..k + 1], regions + [Region(start, idxs[k])])
  {
    assert idxs[..k + 1] == idxs[..k] + [idxs[k]];
    assert Increasing(idxs[..k] + [idxs[k]]);
    if idxs[k] > prev + CLONE_WINDOW {
      OpenRegion(idxs[..k], regions + [Region(start, prev)], idxs[k]);
    } else {
      ExtendLast(idxs[..k], regions, start, prev, idxs[k]);
    }
  }

  method MergeWindows(idxs: seq<nat>) returns (regions: seq<Region>, sigLines: int)
    requires idxs != [] && Increasing(idxs)
    ensures IsCut(idxs, regions)
    ensures sigLines == |Covered(idxs)|
  {
    regions, sigLines := [], 0;
    var start, prev := idxs[0], idxs[0];
    FirstRegion(idxs[0]);
    assert idxs[..1] == [idxs[0]] && [] + [Region(start, prev)] == [Region(start, prev)];
    for k := 1 to |idxs|
      invariant prev == idxs[k - 1]
      invariant IsCut(idxs[..k], regions + [Region(start, prev)])
      invariant sigLines == TotalSize(regions)
    {
      ScanStep(idxs, k, regions, start, prev);
      if idxs[k] > prev + CLONE_WINDOW {
        SnocSize(regions, Region(start, prev));
        sigLines := sigLines + (prev + CLONE_WINDOW - start);
        regions := regions + [Region(start, prev)];
        start := idxs[k];
      }
      prev := idxs[k];
    }
    assert idxs[..|idxs|] == idxs;
    SnocSize(regions, Region(start, prev));
    sigLines := sigLines + (prev + CLONE_WINDOW - start);
    regions := regions + [Region(start, prev)];
    CutCountsLines(idxs, regions);
  }

  // ---- what the cut means ----

  /** Every index lies in exactly one region. */
  lemma EachIndexOnce(idxs: seq<nat>, regions: seq<Region>, x: nat)
    requires IsCut(idxs, regions) && x in idxs
    ensures exists k :: && 0 <= k < |regions| && Within(regions[k], x)
                        && forall l :: 0 <= l < |regions| && Within(regions[l], x) ==> l == k
  {
    var j :| 0 <= j < |idxs| && idxs[j] == x;
    assert SomeWithin(regions, idxs[j]);
    var k :| 0 <= k < |regions| && Within(regions[k], x);
    forall l | 0 <= l < |regions| && Within(regions[l], x) ensures l == k {
      assert l < k ==> Apart(regions[l], regions[k]);
      assert k < l ==> Apart(regions[k], regions[l]);
    }
  }

  /** The significant lines of a window or of a region. */
  ghost function Range(lo: nat, hi: nat): (s: set<nat>)
    requires lo <= hi
    ensures |s| == hi - lo && forall l :: l in s <==> lo <= l < hi
    decreases hi - lo
  {
    if lo == hi then {} else Range(lo, hi - 1) + {hi - 1}
  }

  predicate InWindow(x: nat, line: nat) {
    x <= line < x + CLONE_WINDOW
  }

  predicate SomeWindow(idxs: seq<nat>, line: nat) {
    exists j :: 0 <= j < |idxs| && InWindow(idxs[j], line)
  }

  /** The significant lines all windows cover together. */
  ghost function Covered(idxs: seq<nat>): set<nat> {
    if idxs == [] then {}
    else Covered(idxs[..|idxs| - 1]) + Range(idxs[|idxs| - 1], idxs[|idxs| - 1] + CLONE_WINDOW)
  }

  lemma SnocWindow(idxs: seq<nat>, line: nat)
    requires idxs != []
    ensures SomeWindow(idxs, line) <==> SomeWindow(idxs[..|idxs| - 1], line) || InWindow(idxs[|idxs| - 1], line)
  {
    var n := |idxs| - 1;
    if SomeWindow(idxs, line) {
      var j :| 0 <= j < |idxs| && InWindow(idxs[j], line);
      assert j < n ==> InWindow(idxs[..n][j], line);
    }
    if SomeWindow(idxs[..n], line) {
      var j :| 0 <= j < n && InWindow(idxs[..n][j], line);
      assert InWindow(idxs[j], line);
    }
  }

  lemma {:induction false} InCovered(idxs: seq<nat>, line: nat)
    ensures line in Covered(idxs) <==> SomeWindow(idxs, line)
  {
    if idxs != [] {
      InCovered(idxs[..|idxs| - 1], line);
      SnocWindow(idxs, line);
    }
  }

  predicate HasLine(r: Region, line: nat) {
    r.start <= line < r.end + CLONE_WINDOW
  }

  ghost function LinesOf(regions: seq<Region>): set<nat>
    requires forall k :: 0 <= k < |regions| ==> regions[k].start <= regions[k].end
  {
    if regions == [] then {}
    else
      var last := regions[|regions| - 1];
      LinesOf(regions[..|regions| - 1]) + Range(last.start, last.end + CLONE_WINDOW)
  }

  predicate SomeHasLine(regions: seq<Region>, line: nat) {
    exists k :: 0 <= k < |regions| && HasLine(regions[k], line)
  }

  lemma SnocHasLine(regions: seq<Region>, line: nat)
    requires regions != []
    ensures SomeHasLine(regions, line)
       <==> SomeHasLine(regions[..|regions| - 1], line) || HasLine(regions[|regions| - 1], line)
  {
    var n := |regions| - 1;
    if SomeHasLine(regions, line) {
      var k :| 0 <= k < |regions| && HasLine(regions[k], line);
      assert k < n ==> HasLine(regions[..n][k], line);
    }
    if SomeHasLine(regions[..n], line) {
      var k :| 0 <= k < n && HasLine(regions[..n][k], line);
      assert HasLine(regions[k], line);
    }
  }

  lemma {:induction false} InLinesOf(regions: seq<Region>, line: nat)
    requires forall k :: 0 <= k < |regions| ==> regions[k].start <= regions[k].end
    ensures line in LinesOf(regions) <==> SomeHasLine(regions, line)
  {
    if regions != [] {
      InLinesOf(regions[..|regions| - 1], line);
      SnocHasLine(regions, line);
    }
  }

  /** Regions apart from each other share no line. */
  lemma {:induction false} LinesOfSize(regions: seq<Region>)
    requires forall k :: 0 <= k < |regions| ==> regions[k].start <= regions[k].end
    requires FarApart(regions)
    ensures |LinesOf(regions)| == TotalSize(regions)
  {
    if regions != [] {
      var n := |regions| - 1;
      forall k, l | 0 <= k < l < n ensures Apart(regions[..n][k], regions[..n][l]) {
        assert Apart(regions[k], regions[l]);
      }
      LinesOfSize(regions[..n]);
      var last := Range(regions[n].start, regions[n].end + CLONE_WINDOW);
      forall line: nat | line in LinesOf(regions[..n]) ensures line !in last {
        InLinesOf(regions[..n], line);
        var k :| 0 <= k < n && HasLine(regions[..n][k], line);
        assert Apart(regions[k], regions[n]);
      }
      assert LinesOf(regions[..n]) !! last;
    }
  }

  /** A line inside a region belongs to some window of it. */
  lemma {:induction false} WindowOfLine(idxs: seq<nat>, regions: seq<Region>, k: nat, j: nat, line: nat) returns (i: nat)
    requires IsCut(idxs, regions) && Increasing(idxs) && k < |regions| && j < |idxs|
    requires Within(regions[k], idxs[j]) && idxs[j] <= line < regions[k].end + CLONE_WINDOW
    ensures i < |idxs| && InWindow(idxs[i], line)
    decreases |idxs| - j
  {
    i := j;
    if line >= idxs[j] + CLONE_WINDOW {
      assert NoGapInside(idxs, regions[k]);
      assert Bounded(idxs, regions[k]);
      var e :| 0 <= e < |idxs| && idxs[e] == regions[k].end;
      assert e >= j + 1;
      i := WindowOfLine(idxs, regions, k, j + 1, line);
    }
  }

  lemma WindowInRegion(idxs: seq<nat>, regions: seq<Region>, line: nat)
    requires IsCut(idxs, regions) && SomeWindow(idxs, line)
    ensures SomeHasLine(regions, line)
  {
    var j :| 0 <= j < |idxs| && InWindow(idxs[j], line);
    assert SomeWithin(regions, idxs[j]);
    var k :| 0 <= k < |regions| && Within(regions[k], idxs[j]);
    assert HasLine(regions[k], line);
  }

  lemma RegionLineInWindow(idxs: seq<nat>, regions: seq<Region>, line: nat)
    requires IsCut(idxs, regions) && Increasing(idxs) && SomeHasLine(regions, line)
    ensures SomeWindow(idxs, line)
  {
    var k: nat :| 0 <= k < |regions| && HasLine(regions[k], line);
    assert Bounded(idxs, regions[k]);
    var j: nat :| 0 <= j < |idxs| && idxs[j] == regions[k].start;
    var i := WindowOfLine(idxs, regions, k, j, line);
  }

  /** The lines of the regions are the lines of the windows. */
  lemma SameLines(idxs: seq<nat>, regions: seq<Region>, line: nat)
    requires IsCut(idxs, regions) && Increasing(idxs)
    requires forall k :: 0 <= k < |regions| ==> regions[k].start <= regions[k].end
    ensures line in Covered(idxs) <==> line in LinesOf(regions)
  {
    InLinesOf(regions, line);
    InCovered(idxs, line);
    if SomeWindow(idxs, line) {
      WindowInRegion(idxs, regions, line);
    }
    if SomeHasLine(regions, line) {
      RegionLineInWindow(idxs, regions, line);
    }
  }

  /** The reported line count is the number of distinct lines the windows cover. */
  lemma CutCountsLines(idxs: seq<nat>, regions: seq<Region>)
    requires IsCut(idxs, regions) && Increasing(idxs)
    ensures TotalSize(regions) == |Covered(idxs)|
  {
    forall k | 0 <= k < |regions| ensures regions[k].start <= regions[k].end {
      assert Bounded(idxs, regions[k]);
    }
    forall line: nat ensures line in Covered(idxs) <==> line in LinesOf(regions) {
      SameLines(idxs, regions, line);
    }
    assert Covered(idxs) == LinesOf(regions);
    LinesOfSize(regions);
  }
}
