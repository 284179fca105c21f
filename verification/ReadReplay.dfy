/** Replaying the observed reads of one file under another read configuration. */
module ReadReplay {
  import opened LineIntervals
  import opened Wrappers

  const ROUNDTRIP_OVERHEAD := 200.0

  datatype Kind = Bare | Ranged | Raw | Conflicts | Other

  datatype Intent = Intent(kind: Kind, start: Option<int>, end: Option<int>)

  datatype ReadCall = ReadCall(intent: Intent, actualA: Option<int>, actualB: Option<int>)

  datatype FileStats = FileStats(sizeLines: int, tokensPerLine: real, bytesPerLine: real)

  datatype Config = Config(defaultPage: int, lineCap: int, byteCap: int, summarizeMin: int)

  /** The byte cap as a number of lines; casting to int rounds toward zero, and negative quotients end up as one line. */
  function ByteLines(fs: FileStats, cfg: Config): int
    requires fs.bytesPerLine > 0.0
  {
    Max(1, (cfg.byteCap as real / fs.bytesPerLine).Floor)
  }

  /** As many lines as the byte cap has room for, and at least one. */
  lemma RoomForLines(fs: FileStats, cfg: Config, n: int)
    requires fs.bytesPerLine > 0.0 && n > 1
    ensures n <= ByteLines(fs, cfg) <==> n as real * fs.bytesPerLine <= cfg.byteCap as real
  {
    var q := cfg.byteCap as real / fs.bytesPerLine;
    assert q * fs.bytesPerLine == cfg.byteCap as real;
    assert n as real <= q <==> n as real * fs.bytesPerLine <= q * fs.bytesPerLine;
  }

  /** A line after the first is within the file, the line cap and, where the length of a line is known, the byte cap. */
  predicate Fits(first: int, x: int, fs: FileStats, cfg: Config) {
    && (x <= fs.sizeLines || x <= 1)
    && x - first + 1 <= cfg.lineCap
    && (fs.bytesPerLine > 0.0 ==> (x - first + 1) as real * fs.bytesPerLine <= cfg.byteCap as real)
  }

  /** The line a call starts with: the one asked for, if one is, and else the first; zero counts as not asked for. */
  function FirstLine(intent: Intent): int {
    if intent.kind.Ranged? && intent.start.Some? && intent.start.value != 0 then intent.start.value else 1
  }

  /** The call wants the line: a bare call a page of lines, a ranged call up to its end or a page, a raw call all. */
  predicate Asks(intent: Intent, cfg: Config, x: int) {
    match intent.kind
    case Bare => x <= cfg.defaultPage
    case Ranged => if intent.end.Some? then x <= intent.end.value else x - FirstLine(intent) < cfg.defaultPage
    case Raw => true
    case Conflicts => false
    case Other => false
  }

  /** The lines a call returns: always its first one, and those after it that it asks for and that fit. */
  predicate Returns(rc: ReadCall, fs: FileStats, cfg: Config, x: int) {
    var first := FirstLine(rc.intent);
    && !rc.intent.kind.Conflicts? && !rc.intent.kind.Other?
    && (x == first || (x > first && Asks(rc.intent, cfg, x) && Fits(first, x, fs, cfg)))
  }

  function Bound(start: int, wanted: int, size: int, fs: FileStats, cfg: Config): Interval {
    var capped := Min(wanted, Min(size, start + cfg.lineCap - 1));
    var end := if fs.bytesPerLine > 0.0 then Min(capped, start + ByteLines(fs, cfg) - 1) else capped;
    Interval(start, Max(end, start))
  }

  lemma BoundHas(start: int, wanted: int, fs: FileStats, cfg: Config)
    ensures var r := Bound(start, wanted, Max(fs.sizeLines, 1), fs, cfg);
      && Proper(r)
      && forall x :: Has(r, x) <==> x == start || (x > start && x <= wanted && Fits(start, x, fs, cfg))
  {
    hide ByteLines;
    var r := Bound(start, wanted, Max(fs.sizeLines, 1), fs, cfg);
    forall x ensures Has(r, x) <==> x == start || (x > start && x <= wanted && Fits(start, x, fs, cfg)) {
      if x > start && fs.bytesPerLine > 0.0 {
        RoomForLines(fs, cfg, x - start + 1);
      }
    }
  }

  /** The range one observed call returns under the configuration; none for intents without lines. */
  function EffectiveReturned(rc: ReadCall, fs: FileStats, cfg: Config): (r: Option<Interval>)
    ensures r.Some? ==> Proper(r.value)
    ensures forall x :: Returns(rc, fs, cfg, x) <==> r.Some? && Has(r.value, x)
    ensures r.None? <==> rc.intent.kind.Conflicts? || rc.intent.kind.Other?
  {
    hide Bound, Fits;
    var size := Max(fs.sizeLines, 1);
    match rc.intent.kind
    case Bare =>
      BoundHas(1, cfg.defaultPage, fs, cfg);
      Some(Bound(1, cfg.defaultPage, size, fs, cfg))
    case Ranged =>
      var start := if rc.intent.start == None || rc.intent.start == Some(0) then 1 else rc.intent.start.value;
      var end := if rc.intent.end.Some? then rc.intent.end.value else start + cfg.defaultPage - 1;
      BoundHas(start, end, fs, cfg);
      Some(Bound(start, end, size, fs, cfg))
    case Raw =>
      BoundHas(1, size, fs, cfg);
      assert forall x :: x > 1 && Fits(1, x, fs, cfg) ==> x <= size;
      Some(Bound(1, size, size, fs, cfg))
    case Conflicts => None
    case Other => None
  }

  function CostOfChunk(start: int, end: int, fs: FileStats, kind: Kind, cfg: Config): real {
    var raw := Max(end - start + 1, 0) as real * fs.tokensPerLine;
    if kind == Bare && cfg.summarizeMin >= 0 && fs.sizeLines >= cfg.summarizeMin then raw * 0.35 else raw
  }

  function ChunkCap(fs: FileStats, cfg: Config): int {
    if fs.bytesPerLine > 0.0 then Min(cfg.lineCap, ByteLines(fs, cfg)) else cfg.lineCap
  }

  /** The largest chunk within both caps. */
  lemma ChunkCapIs(fs: FileStats, cfg: Config, n: int)
    requires n > 1
    ensures n <= ChunkCap(fs, cfg)
       <==> n <= cfg.lineCap && (fs.bytesPerLine > 0.0 ==> n as real * fs.bytesPerLine <= cfg.byteCap as real)
  {
    hide ByteLines;
    if fs.bytesPerLine > 0.0 {
      RoomForLines(fs, cfg, n);
    }
  }

  // ---- what the replay is to compute ----

  predicate Saw(rc: ReadCall, x: int) {
    rc.actualA.Some? && rc.actualB.Some? && rc.actualA.value <= x <= rc.actualB.value
  }

  /** Some call returns the line under the configuration. */
  ghost predicate Served(log: seq<ReadCall>, fs: FileStats, cfg: Config, x: int) {
    exists k :: 0 <= k < |log| && Returns(log[k], fs, cfg, x)
  }

  /** Some call really returned the line. */
  ghost predicate Needed(log: seq<ReadCall>, x: int) {
    exists k :: 0 <= k < |log| && Saw(log[k], x)
  }

  ghost predicate Missed(log: seq<ReadCall>, fs: FileStats, cfg: Config, x: int) {
    Needed(log, x) && !Served(log, fs, cfg, x)
  }

  /** The call returns a line that no call before it returns. */
  ghost predicate Kept(before: seq<ReadCall>, rc: ReadCall, fs: FileStats, cfg: Config) {
    exists x :: Returns(rc, fs, cfg, x) && !Served(before, fs, cfg, x)
  }

  ghost function CallCost(rc: ReadCall, fs: FileStats, cfg: Config): real {
    var ret := EffectiveReturned(rc, fs, cfg);
    if ret.None? then 0.0
    else CostOfChunk(ret.value.lo, ret.value.hi, fs, rc.intent.kind, cfg) + ROUNDTRIP_OVERHEAD
  }

  /** A bare read of a file that is long enough to be summarised. */
  predicate Summarised(rc: ReadCall, fs: FileStats, cfg: Config) {
    rc.intent.kind.Bare? && 0 <= cfg.summarizeMin <= fs.sizeLines
  }

  /** The charge for so many lines: about a third of the rate if they are summarised, and the round trip. */
  ghost function Charge(lines: nat, rc: ReadCall, fs: FileStats, cfg: Config): real {
    if Summarised(rc, fs, cfg) then lines as real * fs.tokensPerLine * 0.35 + 200.0
    else lines as real * fs.tokensPerLine + 200.0
  }

  /** A call costs the charge for the lines it returns, each once; a call that returns none costs nothing. */
  lemma CallCostIs(rc: ReadCall, fs: FileStats, cfg: Config) returns (lines: set<int>)
    ensures forall x :: x in lines <==> Returns(rc, fs, cfg, x)
    ensures lines == {} <==> rc.intent.kind.Conflicts? || rc.intent.kind.Other?
    ensures CallCost(rc, fs, cfg) == if lines == {} then 0.0 else Charge(|lines|, rc, fs, cfg)
  {
    hide Returns, CallCost, Summarised, Charge;
    var ret := EffectiveReturned(rc, fs, cfg);
    lines := {};
    if ret.Some? {
      lines := RangeSet(ret.value);
    }
    ChargeOf(rc, fs, cfg);
  }

  lemma ChargeOf(rc: ReadCall, fs: FileStats, cfg: Config)
    ensures var ret := EffectiveReturned(rc, fs, cfg);
      CallCost(rc, fs, cfg) == if ret.None? then 0.0 else Charge(Size(ret.value), rc, fs, cfg)
  {
    hide EffectiveReturned, Returns;
    var ret := EffectiveReturned(rc, fs, cfg);
    if ret.Some? {
      assert Max(ret.value.hi - ret.value.lo + 1, 0) == Size(ret.value);
    }
  }

  lemma RangeSet(iv: Interval) returns (lines: set<int>)
    requires Proper(iv)
    ensures lines != {} && |lines| == iv.hi - iv.lo + 1 && forall x :: x in lines <==> Has(iv, x)
  {
    lines := LineSet([iv]);
    SnocCount([], iv);
    assert [] + [iv] == [iv];
    forall x ensures x in lines <==> Has(iv, x) {
      SnocCovers([], iv, x);
    }
    assert iv.lo in lines;
  }

  ghost function KeptCalls(log: seq<ReadCall>, fs: FileStats, cfg: Config): nat {
    if log == [] then 0
    else
      var before, rc := log[..|log| - 1], log[|log| - 1];
      KeptCalls(before, fs, cfg) + if Kept(before, rc, fs, cfg) then 1 else 0
  }

  ghost function KeptCost(log: seq<ReadCall>, fs: FileStats, cfg: Config): real {
    if log == [] then 0.0
    else
      var before, rc := log[..|log| - 1], log[|log| - 1];
      KeptCost(before, fs, cfg) + if Kept(before, rc, fs, cfg) then CallCost(rc, fs, cfg) else 0.0
  }

  /** The calls filling the gaps takes. */
  ghost function FillCalls(gaps: seq<Interval>, cap: int): nat
    requires cap >= 1
  {
    if gaps == [] then 0
    else
      var last := gaps[|gaps| - 1];
      FillCalls(gaps[..|gaps| - 1], cap) + |Chunking(last.lo, last.hi, cap)|
  }

  // ---- phase one ----

  lemma SnocServed(log: seq<ReadCall>, rc: ReadCall, fs: FileStats, cfg: Config, x: int)
    ensures Served(log + [rc], fs, cfg, x) <==> Served(log, fs, cfg, x) || Returns(rc, fs, cfg, x)
  {
    var all := log + [rc];
    if Served(log, fs, cfg, x) {
      var k :| 0 <= k < |log| && Returns(log[k], fs, cfg, x);
      assert Returns(all[k], fs, cfg, x);
    }
    if Returns(rc, fs, cfg, x) {
      assert Returns(all[|log|], fs, cfg, x);
    }
  }

  lemma SnocNeeded(log: seq<ReadCall>, rc: ReadCall, x: int)
    ensures Needed(log + [rc], x) <==> Needed(log, x) || Saw(rc, x)
  {
    var all := log + [rc];
    if Needed(log, x) {
      var k :| 0 <= k < |log| && Saw(log[k], x);
      assert Saw(all[k], x);
    }
    if Saw(rc, x) {
      assert Saw(all[|log|], x);
    }
  }

  ghost predicate CoversServed(covered: seq<Interval>, log: seq<ReadCall>, fs: FileStats, cfg: Config) {
    forall x :: Covers(covered, x) <==> Served(log, fs, cfg, x)
  }

  ghost predicate CoversNeeded(needed: seq<Interval>, log: seq<ReadCall>) {
    forall x :: Covers(needed, x) <==> Needed(log, x)
  }

  /** The containment test finds exactly the calls that bring nothing new. */
  lemma DroppedBringsNothing(log: seq<ReadCall>, rc: ReadCall, fs: FileStats, cfg: Config, covered: seq<Interval>)
    requires Normal(covered) && CoversServed(covered, log, fs, cfg)
    requires EffectiveReturned(rc, fs, cfg).Some?
    ensures (exists k :: && 0 <= k < |covered|
                         && covered[k].lo <= EffectiveReturned(rc, fs, cfg).value.lo
                         && covered[k].hi >= EffectiveReturned(rc, fs, cfg).value.hi)
       <==> !Kept(log, rc, fs, cfg)
  {
    var iv := EffectiveReturned(rc, fs, cfg).value;
    ContainedMeansCovered(iv.lo, iv.hi, covered);
    if forall x :: iv.lo <= x <= iv.hi ==> Covers(covered, x) {
      forall x | Returns(rc, fs, cfg, x) ensures Served(log, fs, cfg, x) {
        assert Covers(covered, x);
      }
    } else {
      var x :| iv.lo <= x <= iv.hi && !Covers(covered, x);
      assert Returns(rc, fs, cfg, x) && !Served(log, fs, cfg, x);
    }
  }

  /** Dropping a covered call, or one without lines, leaves the served lines as they are. */
  lemma StepDrops(log: seq<ReadCall>, rc: ReadCall, fs: FileStats, cfg: Config, covered: seq<Interval>)
    requires CoversServed(covered, log, fs, cfg) && !Kept(log, rc, fs, cfg)
    ensures CoversServed(covered, log + [rc], fs, cfg)
  {
    forall x ensures Covers(covered, x) <==> Served(log + [rc], fs, cfg, x) {
      SnocServed(log, rc, fs, cfg, x);
    }
  }

  lemma StepServes(log: seq<ReadCall>, rc: ReadCall, fs: FileStats, cfg: Config,
                   covered: seq<Interval>, next: seq<Interval>)
    requires CoversServed(covered, log, fs, cfg) && EffectiveReturned(rc, fs, cfg).Some?
    requires SameLines(next, covered + [EffectiveReturned(rc, fs, cfg).value])
    ensures CoversServed(next, log + [rc], fs, cfg)
  {
    forall x ensures Covers(next, x) <==> Served(log + [rc], fs, cfg, x) {
      SnocServed(log, rc, fs, cfg, x);
      SnocCovers(covered, EffectiveReturned(rc, fs, cfg).value, x);
    }
  }

  lemma StepCounts(log: seq<ReadCall>, i: nat, fs: FileStats, cfg: Config)
    requires i < |log|
    ensures log[..i + 1] == log[..i] + [log[i]]
    ensures KeptCalls(log[..i + 1], fs, cfg)
         == KeptCalls(log[..i], fs, cfg) + if Kept(log[..i], log[i], fs, cfg) then 1 else 0
    ensures KeptCost(log[..i + 1], fs, cfg)
         == KeptCost(log[..i], fs, cfg) + if Kept(log[..i], log[i], fs, cfg) then CallCost(log[i], fs, cfg) else 0.0
  {
    assert log[..i + 1][..i] == log[..i];
  }

  method NoteObserved(needed: seq<Interval>, rc: ReadCall) returns (next: seq<Interval>)
    requires AllProper(needed)
    ensures AllProper(next)
    ensures forall x :: Covers(next, x) <==> Covers(needed, x) || Saw(rc, x)
  {
    next := needed;
    if rc.actualA.Some? && rc.actualB.Some? && rc.actualB.value >= rc.actualA.value {
      var iv := Interval(rc.actualA.value, rc.actualB.value);
      next := needed + [iv];
      forall k | 0 <= k < |next| ensures Proper(next[k]) {
        assert k < |needed| ==> Proper(needed[k]);
      }
      forall x ensures Covers(next, x) <==> Covers(needed, x) || Saw(rc, x) {
        SnocCovers(needed, iv, x);
      }
    }
  }

  method AddRange(covered: seq<Interval>, iv: Interval) returns (next: seq<Interval>)
    requires Normal(covered) && Proper(iv)
    ensures Normal(next) && SameLines(next, covered + [iv])
  {
    var all := covered + [iv];
    forall k | 0 <= k < |all| ensures Proper(all[k]) {
      assert k < |covered| ==> Proper(covered[k]);
    }
    next := Merge(all);
  }

  method ReplayObserved(log: seq<ReadCall>, fs: FileStats, cfg: Config)
    returns (total: real, kept: nat, covered: seq<Interval>, needed: seq<Interval>)
    ensures total == KeptCost(log, fs, cfg) && kept == KeptCalls(log, fs, cfg)
    ensures Normal(covered) && CoversServed(covered, log, fs, cfg)
    ensures AllProper(needed) && CoversNeeded(needed, log)
  {
    total, kept, covered, needed := 0.0, 0, [], [];
    for i := 0 to |log|
      invariant total == KeptCost(log[..i], fs, cfg) && kept == KeptCalls(log[..i], fs, cfg)
      invariant Normal(covered) && CoversServed(covered, log[..i], fs, cfg)
      invariant AllProper(needed) && CoversNeeded(needed, log[..i])
    {
      var rc := log[i];
      StepCounts(log, i, fs, cfg);
      needed := NoteObserved(needed, rc);
      forall x ensures Covers(needed, x) <==> Needed(log[..i + 1], x) {
        SnocNeeded(log[..i], rc, x);
      }
      var ret := EffectiveReturned(rc, fs, cfg);
      if ret.Some? {
        var s, e := ret.value.lo, ret.value.hi;
        var inside := Contained(s, e, covered);
        DroppedBringsNothing(log[..i], rc, fs, cfg, covered);
        if inside {
          StepDrops(log[..i], rc, fs, cfg, covered);
        } else {
          total := total + CostOfChunk(s, e, fs, rc.intent.kind, cfg);
          total := total + ROUNDTRIP_OVERHEAD;
          kept := kept + 1;
          var next := AddRange(covered, Interval(s, e));
          StepServes(log[..i], rc, fs, cfg, covered, next);
          covered := next;
        }
      } else {
        StepDrops(log[..i], rc, fs, cfg, covered);
      }
    }
    assert log[..|log|] == log;
  }

  // ---- phase two ----

  lemma ConcatNormal(a: seq<Interval>, b: seq<Interval>)
    requires Normal(a) && Normal(b)
    requires forall x, y :: Covers(a, x) && Covers(b, y) ==> x + 1 < y
    ensures Normal(a + b)
  {
    var all := a + b;
    forall k | 0 <= k < |all| ensures Proper(all[k]) {
      assert if k < |a| then Proper(a[k]) else Proper(b[k - |a|]);
    }
    forall k, l | 0 <= k < l < |all| ensures Before(all[k], all[l]) {
      if l < |a| {
        assert Before(a[k], a[l]);
      } else if k < |a| {
        assert Proper(a[k]) && Proper(b[l - |a|]);
        assert Has(a[k], a[k].hi) && Has(b[l - |a|], b[l - |a|].lo);
        assert Covers(a, a[k].hi) && Covers(b, b[l - |a|].lo);
      } else {
        assert Before(b[k - |a|], b[l - |a|]);
      }
    }
  }

  /** The lines covered before the i-th range lie below it, with a line in between. */
  lemma PrefixBefore(ivs: seq<Interval>, i: nat, x: int, y: int)
    requires Normal(ivs) && i < |ivs| && Covers(ivs[..i], x) && Has(ivs[i], y)
    ensures x + 1 < y
  {
    var k :| 0 <= k < i && Has(ivs[..i][k], x);
    assert Before(ivs[k], ivs[i]);
  }

  method Gaps(needed: seq<Interval>, covered: seq<Interval>) returns (gaps: seq<Interval>)
    requires Normal(needed) && AllProper(covered)
    ensures Normal(gaps)
    ensures forall x :: Covers(gaps, x) <==> Covers(needed, x) && !Covers(covered, x)
  {
    gaps := [];
    for i := 0 to |needed|
      invariant Normal(gaps)
      invariant forall x :: Covers(gaps, x) <==> Covers(needed[..i], x) && !Covers(covered, x)
    {
      assert Proper(needed[i]);
      var rest := Subtract(needed[i].lo, needed[i].hi, covered);
      forall x, y | Covers(gaps, x) && Covers(rest, y) ensures x + 1 < y {
        PrefixBefore(needed, i, x, y);
      }
      ConcatNormal(gaps, rest);
      assert needed[..i + 1] == needed[..i] + [needed[i]];
      forall x ensures Covers(gaps + rest, x) <==> Covers(needed[..i + 1], x) && !Covers(covered, x) {
        ConcatCovers(gaps, rest, x);
        SnocCovers(needed[..i], needed[i], x);
      }
      gaps := gaps + rest;
    }
    assert needed[..|needed|] == needed;
  }

  lemma CostSplits(a: int, b: int, rate: real)
    ensures (a + b) as real * rate == a as real * rate + b as real * rate
  {
  }

  /** The cost and the calls of filling the first gaps and the first chunks of the next one. */
  ghost function FillCost(lines: int, calls: int, fs: FileStats): real {
    lines as real * fs.tokensPerLine + calls as real * ROUNDTRIP_OVERHEAD
  }

  lemma OneMoreChunk(lines: int, calls: int, cs: int, ce: int, fs: FileStats, cfg: Config)
    requires cs <= ce
    ensures FillCost(lines, calls, fs) + CostOfChunk(cs, ce, fs, Ranged, cfg) + ROUNDTRIP_OVERHEAD
         == FillCost(lines + (ce - cs + 1), calls + 1, fs)
  {
    CostSplits(lines, ce - cs + 1, fs.tokensPerLine);
  }

  lemma ChunkCovers(c: seq<Interval>, k: nat, x: int)
    requires k < |c| && Proper(c[k]) && (forall j :: 0 < j < |c| ==> c[j].lo == c[j - 1].hi + 1)
    requires forall j :: 0 <= j < |c| ==> Proper(c[j])
    ensures c[0].lo <= x <= c[k].hi <==> Covers(c[..k + 1], x)
  {
    if k == 0 {
      assert c[..1] == [c[0]];
      SnocCovers([], c[0], x);
      assert [] + [c[0]] == [c[0]];
    } else {
      ChunkCovers(c, k - 1, x);
      assert c[..k + 1] == c[..k] + [c[k]];
      SnocCovers(c[..k], c[k], x);
      FirstBelow(c, k - 1);
    }
  }

  lemma FirstBelow(c: seq<Interval>, k: nat)
    requires k < |c| && (forall j :: 0 < j < |c| ==> c[j].lo == c[j - 1].hi + 1)
    requires forall j :: 0 <= j < |c| ==> Proper(c[j])
    ensures c[0].lo <= c[k].hi
  {
    if k > 0 {
      FirstBelow(c, k - 1);
    }
  }

  lemma ChunksCover(s: int, e: int, cap: int, x: int)
    requires cap >= 1 && s <= e
    ensures Covers(Chunking(s, e, cap), x) <==> s <= x <= e
  {
    var c := Chunking(s, e, cap);
    ChunksPartition(s, e, cap);
    assert c != [];
    ChunkCovers(c, |c| - 1, x);
    assert c[..|c|] == c;
  }

  method FillGap(gap: Interval, fs: FileStats, cfg: Config, total0: real, kept0: nat, covered0: seq<Interval>,
                 ghost lines: int, ghost calls: int, ghost base: real)
    returns (total: real, kept: nat, covered: seq<Interval>)
    requires cfg.lineCap >= 1 && Proper(gap) && Normal(covered0)
    requires total0 == base + FillCost(lines, calls, fs)
    ensures var n := |Chunking(gap.lo, gap.hi, ChunkCap(fs, cfg))|;
            total == base + FillCost(lines + Size(gap), calls + n, fs) && kept == kept0 + n
    ensures Normal(covered) && forall x :: Covers(covered, x) <==> Covers(covered0, x) || Has(gap, x)
  {
    total, kept, covered := total0, kept0, covered0;
    var cap := ChunkCap(fs, cfg);
    var chunks := ChunkRange(gap.lo, gap.hi, cap);
    ChunksPartition(gap.lo, gap.hi, cap);
    assert chunks != [];
    for k := 0 to |chunks|
      invariant covered == covered0 + chunks[..k]
      invariant kept == kept0 + k
      invariant total == base + FillCost(lines + (if k == 0 then 0 else chunks[k - 1].hi + 1 - gap.lo), calls + k, fs)
    {
      var cs, ce := chunks[k].lo, chunks[k].hi;
      OneMoreChunk(lines + (if k == 0 then 0 else chunks[k - 1].hi + 1 - gap.lo), calls + k, cs, ce, fs, cfg);
      total := total + CostOfChunk(cs, ce, fs, Ranged, cfg);
      total := total + ROUNDTRIP_OVERHEAD;
      kept := kept + 1;
      covered := covered + [Interval(cs, ce)];
      assert chunks[..k + 1] == chunks[..k] + [chunks[k]];
    }
    assert chunks[..|chunks|] == chunks;
    ghost var filled := covered;
    forall k | 0 <= k < |covered| ensures Proper(covered[k]) {
      assert if k < |covered0| then Proper(covered0[k]) else Proper(chunks[k - |covered0|]);
    }
    covered := Merge(covered);
    forall x ensures Covers(covered, x) <==> Covers(covered0, x) || Has(gap, x) {
      ConcatCovers(covered0, chunks, x);
      ChunksCover(gap.lo, gap.hi, cap, x);
      assert Covers(covered, x) <==> Covers(filled, x);
    }
  }

  lemma SnocFill(gaps: seq<Interval>, i: nat, cap: int)
    requires i < |gaps| && cap >= 1
    ensures gaps[..i + 1] == gaps[..i] + [gaps[i]]
    ensures LineCount(gaps[..i + 1]) == LineCount(gaps[..i]) + Size(gaps[i])
    ensures FillCalls(gaps[..i + 1], cap) == FillCalls(gaps[..i], cap) + |Chunking(gaps[i].lo, gaps[i].hi, cap)|
  {
    SnocCount(gaps[..i], gaps[i]);
    assert gaps[..i + 1][..i] == gaps[..i];
  }

  /**
   The replay of one session's reads of one file. Coverage ends as the served
   and the observed lines together. Phase one charges exactly the calls that
   bring a line no earlier call brought. Phase two charges each observed line
   that phase one missed once, in as few calls as the cap allows.
   */
  method ReplayPair(log: seq<ReadCall>, fs: FileStats, cfg: Config)
    returns (total: real, kept: nat, ghost covered: seq<Interval>, ghost gaps: seq<Interval>)
    requires cfg.lineCap >= 1
    ensures Normal(gaps) && forall x :: Covers(gaps, x) <==> Missed(log, fs, cfg, x)
    ensures total == KeptCost(log, fs, cfg) + FillCost(LineCount(gaps), FillCalls(gaps, ChunkCap(fs, cfg)), fs)
    ensures kept == KeptCalls(log, fs, cfg) + FillCalls(gaps, ChunkCap(fs, cfg))
    ensures Normal(covered) && forall x :: Covers(covered, x) <==> Served(log, fs, cfg, x) || Needed(log, x)
  {
    var cover, needed;
    total, kept, cover, needed := ReplayObserved(log, fs, cfg);
    var merged := Merge(needed);
    var holes := Gaps(merged, cover);
    gaps := holes;
    assert MissedLines: forall x :: Covers(gaps, x) <==> Missed(log, fs, cfg, x);
    ghost var served := cover;
    var i := 0;
    while i < |holes|
      invariant 0 <= i <= |holes|
      invariant total == KeptCost(log, fs, cfg)
                       + FillCost(LineCount(holes[..i]), FillCalls(holes[..i], ChunkCap(fs, cfg)), fs)
      invariant kept == KeptCalls(log, fs, cfg) + FillCalls(holes[..i], ChunkCap(fs, cfg))
      invariant Normal(cover) && forall x :: Covers(cover, x) <==> Covers(served, x) || Covers(holes[..i], x)
    {
      assert Proper(holes[i]);
      SnocFill(holes, i, ChunkCap(fs, cfg));
      ghost var was := cover;
      total, kept, cover := FillGap(holes[i], fs, cfg, total, kept, cover,
                                    LineCount(holes[..i]), FillCalls(holes[..i], ChunkCap(fs, cfg)), KeptCost(log, fs, cfg));
      forall x ensures Covers(cover, x) <==> Covers(served, x) || Covers(holes[..i + 1], x) {
        SnocCovers(holes[..i], holes[i], x);
        assert Covers(cover, x) <==> Covers(was, x) || Has(holes[i], x);
      }
      i := i + 1;
    }
    assert holes[..i] == holes;
    covered := cover;
  }

  /** What the charge means: the lines phase two pays for are the missed lines, each once. */
  lemma PaysForMissedLines(log: seq<ReadCall>, fs: FileStats, cfg: Config, gaps: seq<Interval>) returns (missed: set<int>)
    requires Normal(gaps) && forall x :: Covers(gaps, x) <==> Missed(log, fs, cfg, x)
    ensures forall x :: x in missed <==> Missed(log, fs, cfg, x)
    ensures LineCount(gaps) == |missed|
  {
    missed := LineSet(gaps);
  }

  /** Phase two makes enough calls for the missed lines, and at most one of them per gap is not full. */
  lemma {:induction false} FillCallsBound(gaps: seq<Interval>, cap: int)
    requires cap >= 1 && AllProper(gaps)
    ensures LineCount(gaps) <= FillCalls(gaps, cap) * cap
    ensures (FillCalls(gaps, cap) - |gaps|) * cap <= LineCount(gaps) - |gaps|
  {
    if gaps != [] {
      var n := |gaps| - 1;
      forall k | 0 <= k < n ensures Proper(gaps[..n][k]) {
        assert Proper(gaps[k]);
      }
      FillCallsBound(gaps[..n], cap);
      assert Proper(gaps[n]);
      ChunkNumber(gaps[n].lo, gaps[n].hi, cap);
      var f, c := FillCalls(gaps[..n], cap), |Chunking(gaps[n].lo, gaps[n].hi, cap)|;
      Distribute(f, c, cap);
      Distribute(f - n, c - 1, cap);
    }
  }

  lemma Distribute(a: int, b: int, c: int)
    ensures (a + b) * c == a * c + b * c
  {
  }
}
