/** From window hashes to reported clones: each class of windows, file by file, as regions. */
module CloneDetection {
  import opened CloneClusters
  import opened CloneRegions

  datatype FileRegion = FileRegion(file: nat, region: Region)

  datatype Report = Report(regions: seq<FileRegion>, sigLines: int)

  // ---- the windows of a class in one file ----

  /** The window indices of the positions in a file, in the order of the positions. */
  function IndicesIn(positions: seq<nat>, file: nat): seq<nat> {
    if positions == [] then []
    else
      var last := positions[|positions| - 1];
      IndicesIn(positions[..|positions| - 1], file) + if last / POS == file then [last % POS] else []
  }

  lemma NoIndices()
    ensures forall f: nat :: IndicesIn([], f) == []
  {
  }

  function WithIndex(list: seq<nat>, p: nat, file: nat): seq<nat> {
    if p / POS == file then list + [p % POS] else list
  }

  lemma SnocIndices(positions: seq<nat>, k: nat)
    requires k < |positions|
    ensures forall f: nat :: IndicesIn(positions[..k + 1], f) == WithIndex(IndicesIn(positions[..k], f), positions[k], f)
  {
    assert positions[..k + 1][..k] == positions[..k];
  }

  method SplitByFile(positions: seq<nat>) returns (perFile: map<nat, seq<nat>>)
    ensures forall f: nat :: f in perFile <==> IndicesIn(positions, f) != []
    ensures forall f: nat :: f in perFile ==> perFile[f] == IndicesIn(positions, f)
  {
    hide IndicesIn;
    perFile := map[];
    NoIndices();
    for k := 0 to |positions|
      invariant forall f: nat :: f in perFile <==> IndicesIn(positions[..k], f) != []
      invariant forall f: nat :: f in perFile ==> perFile[f] == IndicesIn(positions[..k], f)
    {
      SnocIndices(positions, k);
      var f := positions[k] / POS;
      var list := if f in perFile then perFile[f] else [];
      perFile := perFile[f := list + [positions[k] % POS]];
    }
    assert positions[..|positions|] == positions;
  }

  function Insert(x: nat, sorted: seq<nat>): seq<nat> {
    if sorted == [] || x <= sorted[0] then [x] + sorted else [sorted[0]] + Insert(x, sorted[1..])
  }

  function Sort(s: seq<nat>): seq<nat> {
    if s == [] then [] else Insert(s[|s| - 1], Sort(s[..|s| - 1]))
  }

  lemma {:induction false} InsertElements(x: nat, sorted: seq<nat>)
    ensures forall y :: y in Insert(x, sorted) <==> y == x || y in sorted
  {
    if sorted != [] && x > sorted[0] {
      InsertElements(x, sorted[1..]);
      assert sorted == [sorted[0]] + sorted[1..];
    }
  }

  lemma {:induction false} InsertIncreasing(x: nat, sorted: seq<nat>)
    requires Increasing(sorted) && x !in sorted
    ensures Increasing(Insert(x, sorted))
  {
    if sorted != [] && x > sorted[0] {
      var rest := sorted[1..];
      assert forall i, j :: 0 <= i < j < |rest| ==> rest[i] == sorted[i + 1] && rest[j] == sorted[j + 1];
      InsertIncreasing(x, rest);
      InsertElements(x, rest);
      var next := Insert(x, rest);
      forall j | 0 <= j < |next| ensures sorted[0] < next[j] {
        assert next[j] in next;
        if next[j] != x {
          var k :| 0 <= k < |rest| && rest[k] == next[j];
          assert sorted[0] < sorted[k + 1];
        }
      }
    }
  }

  lemma {:induction false} SortElements(s: seq<nat>)
    ensures forall y :: y in Sort(s) <==> y in s
  {
    if s != [] {
      SortElements(s[..|s| - 1]);
      InsertElements(s[|s| - 1], Sort(s[..|s| - 1]));
      assert s == s[..|s| - 1] + [s[|s| - 1]];
    }
  }

  ghost predicate AllDifferent(s: seq<nat>) {
    forall k, l :: 0 <= k < l < |s| ==> s[k] != s[l]
  }

  lemma {:induction false} SortIncreasing(s: seq<nat>)
    requires AllDifferent(s)
    ensures Increasing(Sort(s))
  {
    if s != [] {
      var init := s[..|s| - 1];
      assert forall k :: 0 <= k < |init| ==> init[k] == s[k];
      SortIncreasing(init);
      SortElements(init);
      InsertIncreasing(s[|s| - 1], Sort(init));
    }
  }

  /** The position of a window of a file. */
  function Position(file: nat, i: nat): nat {
    file * POS + i
  }

  lemma PositionOf(p: nat)
    ensures Position(p / POS, p % POS) == p
  {
  }

  lemma {:induction false} IndicesElements(positions: seq<nat>, file: nat)
    ensures forall i: nat :: i in IndicesIn(positions, file) <==> i < POS && Position(file, i) in positions
  {
    hide Position;
    if positions != [] {
      var n := |positions| - 1;
      var last := positions[n];
      IndicesElements(positions[..n], file);
      PositionOf(last);
      forall i: nat ensures i in IndicesIn(positions, file) <==> i < POS && Position(file, i) in positions {
        assert Position(file, i) in positions <==> Position(file, i) in positions[..n] || Position(file, i) == last by {
          assert positions == positions[..n] + [last];
        }
        assert i < POS && Position(file, i) == last <==> last / POS == file && last % POS == i by {
          if i < POS {
            DecodePosition(file, i);
          }
        }
      }
    }
  }

  lemma DecodePosition(file: nat, i: nat)
    requires i < POS
    ensures Position(file, i) / POS == file && Position(file, i) % POS == i
  {
    EncodeDecode(file, i);
  }

  lemma {:induction false} IndicesDiffer(positions: seq<nat>, file: nat)
    requires AllDifferent(positions)
    ensures AllDifferent(IndicesIn(positions, file))
  {
    hide Position;
    if positions != [] {
      var n := |positions| - 1;
      var last, init := positions[n], positions[..n];
      assert forall k :: 0 <= k < n ==> init[k] == positions[k];
      PositionOf(last);
      IndicesDiffer(init, file);
      IndicesElements(init, file);
      var list := IndicesIn(init, file);
      if last / POS == file {
        assert last !in init;
        forall k | 0 <= k < |list| ensures list[k] != last % POS {
          assert list[k] in list;
        }
      }
    }
  }

  /** The sorted window indices of the class in the file. */
  function Sorted(positions: seq<nat>, file: nat): seq<nat> {
    Sort(IndicesIn(positions, file))
  }

  lemma SortedIs(positions: seq<nat>, file: nat)
    requires AllDifferent(positions)
    ensures Increasing(Sorted(positions, file))
    ensures forall i: nat :: i in Sorted(positions, file) <==> i < POS && Position(file, i) in positions
    ensures IndicesIn(positions, file) == [] <==> Sorted(positions, file) == []
  {
    IndicesDiffer(positions, file);
    SortIncreasing(IndicesIn(positions, file));
    SortElements(IndicesIn(positions, file));
    IndicesElements(positions, file);
    SortEmpty(IndicesIn(positions, file));
  }

  lemma SortEmpty(s: seq<nat>)
    ensures Sort(s) == [] <==> s == []
  {
  }

  // ---- the regions of a class ----

  /** The regions of a report that lie in the file. */
  function RegionsIn(regions: seq<FileRegion>, file: nat): seq<Region> {
    if regions == [] then []
    else
      var last := regions[|regions| - 1];
      RegionsIn(regions[..|regions| - 1], file) + if last.file == file then [last.region] else []
  }

  function InFile(file: nat, regions: seq<Region>): (r: seq<FileRegion>)
    ensures |r| == |regions|
    ensures forall k :: 0 <= k < |r| ==> r[k] == FileRegion(file, regions[k])
  {
    seq(|regions|, k requires 0 <= k < |regions| => FileRegion(file, regions[k]))
  }

  lemma {:induction false} RegionsConcat(a: seq<FileRegion>, b: seq<FileRegion>, file: nat)
    ensures RegionsIn(a + b, file) == RegionsIn(a, file) + RegionsIn(b, file)
  {
    if b == [] {
      assert a + b == a && RegionsIn(a, file) + [] == RegionsIn(a, file);
    } else {
      assert (a + b)[..|a + b| - 1] == a + b[..|b| - 1];
      RegionsConcat(a, b[..|b| - 1], file);
    }
  }

  lemma {:induction false} RegionsOfFile(file: nat, regions: seq<Region>, other: nat)
    ensures RegionsIn(InFile(file, regions), other) == if other == file then regions else []
  {
    if regions != [] {
      var n := |regions| - 1;
      assert InFile(file, regions)[..n] == InFile(file, regions[..n]);
      RegionsOfFile(file, regions[..n], other);
      assert regions == regions[..n] + [regions[n]];
    }
  }

  /** Some window of the class covers the line of the file. */
  predicate CoversLine(positions: seq<nat>, file: nat, line: nat) {
    exists k :: 0 <= k < |positions| && positions[k] / POS == file && InWindow(positions[k] % POS, line)
  }

  lemma SortedCovers(positions: seq<nat>, file: nat, line: nat)
    requires AllDifferent(positions)
    ensures line in Covered(Sorted(positions, file)) <==> CoversLine(positions, file, line)
  {
    hide InWindow, Position, Sorted;
    var idxs := Sorted(positions, file);
    SortedIs(positions, file);
    InCovered(idxs, line);
    if SomeWindow(idxs, line) {
      var j :| 0 <= j < |idxs| && InWindow(idxs[j], line);
      assert idxs[j] in idxs;
      var k :| 0 <= k < |positions| && positions[k] == Position(file, idxs[j]);
      DecodePosition(file, idxs[j]);
    }
    if CoversLine(positions, file, line) {
      var k :| 0 <= k < |positions| && positions[k] / POS == file && InWindow(positions[k] % POS, line);
      PositionOf(positions[k]);
      assert positions[k] % POS in idxs;
      var j :| 0 <= j < |idxs| && idxs[j] == positions[k] % POS;
    }
  }

  /**
   In each file the regions are the cut of the class's windows there, and the
   count is that of the distinct lines of files the windows cover.
   */
  ghost predicate IsReport(positions: seq<nat>, report: Report, lines: set<(nat, nat)>) {
    && (forall f: nat {:trigger RegionsIn(report.regions, f)} :: IsCut(Sorted(positions, f), RegionsIn(report.regions, f)))
    && (forall f: nat, line: nat {:trigger CoversLine(positions, f, line)} :: (f, line) in lines <==> CoversLine(positions, f, line))
    && report.sigLines == |lines|
  }

  lemma NothingCut()
    ensures IsCut([], [])
  {
  }

  lemma TagSize(file: nat, lines: set<nat>) returns (tagged: set<(nat, nat)>)
    ensures |tagged| == |lines| && forall f: nat, line: nat :: (f, line) in tagged <==> f == file && line in lines
    decreases |lines|
  {
    if lines == {} {
      tagged := {};
    } else {
      var line :| line in lines;
      var rest := TagSize(file, lines - {line});
      tagged := rest + {(file, line)};
    }
  }

  /** What the loop over the files has so far. */
  ghost predicate Progress(positions: seq<nat>, done: set<nat>, regions: seq<FileRegion>, lines: set<(nat, nat)>) {
    && (forall f: nat {:trigger RegionsIn(regions, f)} ::
          if f in done then IsCut(Sorted(positions, f), RegionsIn(regions, f)) else RegionsIn(regions, f) == [])
    && (forall f: nat, line: nat {:trigger CoversLine(positions, f, line)} ::
          (f, line) in lines <==> f in done && CoversLine(positions, f, line))
    && (forall x :: x in lines ==> x.0 in done)
  }

  lemma OneFile(positions: seq<nat>, done: set<nat>, regions: seq<FileRegion>, lines: set<(nat, nat)>, file: nat, cut: seq<Region>)
    returns (more: set<(nat, nat)>)
    requires Progress(positions, done, regions, lines) && file !in done && AllDifferent(positions)
    requires IsCut(Sorted(positions, file), cut)
    ensures Progress(positions, done + {file}, regions + InFile(file, cut), more)
    ensures |more| == |lines| + |Covered(Sorted(positions, file))|
  {
    hide IsCut, CoversLine, RegionsIn, Sorted, Covered;
    var tagged := TagSize(file, Covered(Sorted(positions, file)));
    more := lines + tagged;
    assert lines !! tagged;
    var next := regions + InFile(file, cut);
    forall f: nat
      ensures if f in done + {file} then IsCut(Sorted(positions, f), RegionsIn(next, f)) else RegionsIn(next, f) == []
    {
      RegionsConcat(regions, InFile(file, cut), f);
      RegionsOfFile(file, cut, f);
      assert RegionsIn(regions, f) + [] == RegionsIn(regions, f) && [] + cut == cut;
    }
    forall f: nat, line: nat ensures (f, line) in more <==> f in done + {file} && CoversLine(positions, f, line) {
      SortedCovers(positions, file, line);
      assert (f, line) in lines <==> f in done && CoversLine(positions, f, line);
    }
  }

  method ClusterReport(positions: seq<nat>) returns (report: Report, ghost lines: set<(nat, nat)>)
    requires AllDifferent(positions)
    ensures IsReport(positions, report, lines)
  {
    hide IsCut, CoversLine, IndicesIn, Sort, Covered;
    var perFile := SplitByFile(positions);
    var regions: seq<FileRegion>, sigLines := [], 0;
    lines := {};
    var todo: set<nat> := perFile.Keys;
    ghost var done: set<nat> := {};
    while todo != {}
      invariant todo <= perFile.Keys && done == perFile.Keys - todo
      invariant Progress(positions, done, regions, lines) && sigLines == |lines|
      decreases todo
    {
      var f: nat :| f in todo;
      SortedIs(positions, f);
      var cut, count := MergeWindows(Sort(perFile[f]));
      ghost var more := OneFile(positions, done, regions, lines, f, cut);
      regions, sigLines, lines := regions + InFile(f, cut), sigLines + count, more;
      todo, done := todo - {f}, done + {f};
    }
    report := Report(regions, sigLines);
    NothingCut();
    forall f: nat ensures IsCut(Sorted(positions, f), RegionsIn(regions, f)) {
      SortedIs(positions, f);
    }
    forall f: nat, line: nat ensures (f, line) in lines <==> CoversLine(positions, f, line) {
      if f !in done {
        SortedIs(positions, f);
        SortedCovers(positions, f, line);
        NothingCovered();
      }
    }
  }

  lemma NothingCovered()
    ensures Covered([]) == {}
  {
  }

  // ---- the whole detection ----

  ghost predicate HasReport(positions: seq<nat>, report: Report) {
    exists lines :: IsReport(positions, report, lines)
  }

  /** The class makes up a single region. */
  ghost predicate TooFew(positions: seq<nat>) {
    exists report :: HasReport(positions, report) && |report.regions| < 2
  }

  /** The reports are those of the classes with two regions or more, each once. */
  ghost predicate Reported(reports: seq<Report>, origins: seq<nat>, clusters: map<nat, seq<nat>>, done: set<nat>) {
    && |origins| == |reports| && AllDifferent(origins)
    && (forall j {:trigger origins[j]} :: 0 <= j < |reports| ==>
          origins[j] in done && origins[j] in clusters
          && HasReport(clusters[origins[j]], reports[j]) && |reports[j].regions| >= 2)
    && (forall r {:trigger r in done} :: r in done && r in clusters && r !in origins ==> TooFew(clusters[r]))
  }

  ghost predicate AreReports(reports: seq<Report>, hashes: Hashes) {
    exists origins, clusters :: IsClustering(clusters, hashes) && Reported(reports, origins, clusters, clusters.Keys)
  }

  lemma ClusterDiffers(clusters: map<nat, seq<nat>>, hashes: Hashes, r: nat)
    requires IsClustering(clusters, hashes) && r in clusters
    ensures AllDifferent(clusters[r])
  {
  }

  lemma IsOne(positions: seq<nat>, report: Report, lines: set<(nat, nat)>)
    requires IsReport(positions, report, lines)
    ensures HasReport(positions, report)
  {
    hide IsReport;
  }

  lemma NoReports(clusters: map<nat, seq<nat>>)
    ensures Reported([], [], clusters, {})
  {
  }

  lemma OneMoreReport(reports: seq<Report>, origins: seq<nat>, clusters: map<nat, seq<nat>>, done: set<nat>, r: nat, report: Report)
    requires Reported(reports, origins, clusters, done) && r in clusters && r !in done && HasReport(clusters[r], report)
    ensures if |report.regions| >= 2 then Reported(reports + [report], origins + [r], clusters, done + {r})
            else Reported(reports, origins, clusters, done + {r})
  {
    hide HasReport, TooFew;
    assert forall j :: 0 <= j < |origins| ==> origins[j] in done;
    if |report.regions| >= 2 {
      var more, next := reports + [report], origins + [r];
      forall j | 0 <= j < |more| ensures next[j] in done + {r} && next[j] in clusters
        && HasReport(clusters[next[j]], more[j]) && |more[j].regions| >= 2
      {
        assert j < |origins| ==> next[j] == origins[j] && more[j] == reports[j];
      }
      forall q | q in done + {r} && q in clusters && q !in next ensures TooFew(clusters[q]) {
        assert next[|origins|] == r && q in done;
      }
    } else {
      FewerThanTwo(clusters[r], report);
      NoMoreReport(reports, origins, clusters, done, r);
    }
  }

  lemma NoMoreReport(reports: seq<Report>, origins: seq<nat>, clusters: map<nat, seq<nat>>, done: set<nat>, r: nat)
    requires Reported(reports, origins, clusters, done) && r in clusters && TooFew(clusters[r])
    ensures Reported(reports, origins, clusters, done + {r})
  {
    hide HasReport, TooFew, AllDifferent;
    var more := done + {r};
    forall j | 0 <= j < |reports|
      ensures origins[j] in more && origins[j] in clusters && HasReport(clusters[origins[j]], reports[j]) && |reports[j].regions| >= 2
    {
      assert origins[j] in done;
    }
    forall q | q in more && q in clusters && q !in origins ensures TooFew(clusters[q]) {
      assert q != r ==> q in done;
    }
  }

  lemma FewerThanTwo(positions: seq<nat>, report: Report)
    requires HasReport(positions, report) && |report.regions| < 2
    ensures TooFew(positions)
  {
    hide HasReport;
  }

  method DetectClones(hashes: Hashes) returns (reports: seq<Report>)
    requires Encodable(hashes)
    ensures AreReports(reports, hashes)
  {
    hide HasReport, IsClustering, Reported, AllDifferent;
    var clusters := Clusters(hashes);
    reports := [];
    var todo: set<nat> := clusters.Keys;
    ghost var done: set<nat>, origins: seq<nat> := {}, [];
    NoReports(clusters);
    while todo != {}
      invariant todo <= clusters.Keys && done == clusters.Keys - todo
      invariant Reported(reports, origins, clusters, done)
      decreases todo
    {
      var r: nat :| r in todo;
      ClusterDiffers(clusters, hashes, r);
      var report, lines := ClusterReport(clusters[r]);
      IsOne(clusters[r], report, lines);
      OneMoreReport(reports, origins, clusters, done, r, report);
      if |report.regions| >= 2 {
        reports := reports + [report];
        origins := origins + [r];
      }
      todo, done := todo - {r}, done + {r};
    }
    assert done == clusters.Keys;
  }

  // ---- what a reader of a report may rely on ----

  /** The region holds the window. */
  predicate HoldsWindow(r: FileRegion, p: nat) {
    r.file == p / POS && Within(r.region, p % POS)
  }

  lemma {:induction false} RegionAt(regions: seq<FileRegion>, file: nat, k: nat) returns (i: nat)
    requires k < |RegionsIn(regions, file)|
    ensures i < |regions| && regions[i] == FileRegion(file, RegionsIn(regions, file)[k])
  {
    var n := |regions| - 1;
    if k < |RegionsIn(regions[..n], file)| {
      i := RegionAt(regions[..n], file, k);
    } else {
      i := n;
    }
  }

  /** Every window of a reported class lies in a region of the report. */
  lemma WindowInReport(positions: seq<nat>, report: Report, p: nat) returns (i: nat)
    requires HasReport(positions, report) && AllDifferent(positions) && p in positions
    ensures i < |report.regions| && HoldsWindow(report.regions[i], p)
  {
    hide RegionsIn, Sorted;
    var lines :| IsReport(positions, report, lines);
    var f, x := p / POS, p % POS;
    SortedIs(positions, f);
    PositionOf(p);
    var regions := RegionsIn(report.regions, f);
    EachIndexOnce(Sorted(positions, f), regions, x);
    var k :| 0 <= k < |regions| && Within(regions[k], x);
    i := RegionAt(report.regions, f, k);
  }

  /** Windows next to each other lie in one region. */
  lemma NeighboursInOneRegion(hashes: Hashes, positions: seq<nat>, report: Report, p: nat) returns (i: nat)
    requires Encodable(hashes) && HasReport(positions, report) && AllDifferent(positions)
    requires p in positions && p + 1 in positions && IsWindow(hashes, p) && IsWindow(hashes, p + 1)
    ensures i < |report.regions| && HoldsWindow(report.regions[i], p) && HoldsWindow(report.regions[i], p + 1)
  {
    hide RegionsIn, Sorted;
    var lines :| IsReport(positions, report, lines);
    NeighboursShareFile(hashes, p);
    var f, x := p / POS, p % POS;
    SortedIs(positions, f);
    PositionOf(p);
    PositionOf(p + 1);
    var regions := RegionsIn(report.regions, f);
    var k := TogetherInCut(Sorted(positions, f), regions, x);
    i := RegionAt(report.regions, f, k);
  }

  lemma TogetherInCut(idxs: seq<nat>, regions: seq<Region>, x: nat) returns (k: nat)
    requires IsCut(idxs, regions) && Increasing(idxs) && x in idxs && x + 1 in idxs
    ensures k < |regions| && Within(regions[k], x) && Within(regions[k], x + 1)
  {
    EachIndexOnce(idxs, regions, x);
    EachIndexOnce(idxs, regions, x + 1);
    k :| 0 <= k < |regions| && Within(regions[k], x);
    var l :| 0 <= l < |regions| && Within(regions[l], x + 1);
    assert k < l ==> Apart(regions[k], regions[l]);
    assert l < k ==> Apart(regions[l], regions[k]);
    assert Bounded(idxs, regions[k]) && Bounded(idxs, regions[l]);
  }

  /** The positions are the matched windows akin to `p`, each once. */
  ghost predicate IsClass(hashes: Hashes, positions: seq<nat>, p: nat) {
    AllDifferent(positions) && forall q: nat {:trigger q in positions} :: q in positions <==> Matched(hashes, q) && Akin(hashes, p, q)
  }

  lemma ClusterIsClass(clusters: map<nat, seq<nat>>, hashes: Hashes, r: nat, p: nat)
    requires IsClustering(clusters, hashes) && r in clusters && p in clusters[r]
    ensures IsClass(hashes, clusters[r], p)
  {
    hide Akin, Matched;
    var k :| 0 <= k < |clusters[r]| && clusters[r][k] == p;
    forall q: nat ensures q in clusters[r] <==> Matched(hashes, q) && Akin(hashes, p, q) {
      if q in clusters[r] {
        var l :| 0 <= l < |clusters[r]| && clusters[r][l] == q;
        assert Matched(hashes, clusters[r][l]) && Akin(hashes, clusters[r][k], clusters[r][l]);
      }
      if Matched(hashes, q) && Akin(hashes, p, q) {
        var t :| t in clusters && q in clusters[t];
        var l :| 0 <= l < |clusters[t]| && clusters[t][l] == q;
        assert Akin(hashes, clusters[r][k], clusters[t][l]);
      }
    }
  }

  /**
   Every matched window is reported with all windows akin to it and no
   others, in one report, exactly if they make up two regions or more.
   */
  lemma ClassIsReported(reports: seq<Report>, hashes: Hashes, p: nat) returns (positions: seq<nat>, report: Report)
    requires AreReports(reports, hashes) && Matched(hashes, p)
    ensures IsClass(hashes, positions, p) && HasReport(positions, report)
    ensures report in reports <==> |report.regions| >= 2
  {
    hide HasReport, Akin, Matched, IsClass;
    var origins, clusters :| IsClustering(clusters, hashes) && Reported(reports, origins, clusters, clusters.Keys);
    var r :| r in clusters && p in clusters[r];
    ClusterIsClass(clusters, hashes, r, p);
    positions := clusters[r];
    forall j | 0 <= j < |reports| ensures |reports[j].regions| >= 2 {
      assert origins[j] in origins;
    }
    if r in origins {
      var j :| 0 <= j < |origins| && origins[j] == r;
      report := reports[j];
    } else {
      report :| HasReport(clusters[r], report) && |report.regions| < 2;
    }
  }
}
