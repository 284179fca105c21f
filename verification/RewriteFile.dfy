/** The rewriting of a whole file through the pool of requests, whatever they come back with and however they interleave. */
module RewriteFile {
  import opened RewritePlan
  import opened RewriteRun
  import opened WorkerPool
  import opened Wrappers
  import Text = ChangelogText

  // ---- what a file becomes ----

  /** What a request for some items comes back with: texts by line, or nothing if it throws. Nothing is said about the texts. */
  type Rewriter = seq<Item> -> Option<map<int, string>>

  datatype Options = Options(chunkSize: int, concurrency: int, limit: int)

  function Attempted(lines: seq<string>, syntax: Syntax, limit: int): seq<Entry> {
    var prose := Plan(lines, |lines|, syntax);
    if 0 < limit < |prose| then prose[..limit] else prose
  }

  function GroupsOf(lines: seq<string>, syntax: Syntax, opts: Options): (r: seq<seq<Entry>>)
    ensures Flat(r) == Attempted(lines, syntax, opts.limit)
  {
    Groups(Attempted(lines, syntax, opts.limit), opts.chunkSize)
  }

  /** The texts for a group; a request that throws has none. */
  function Returned(rewriter: Rewriter, group: seq<Entry>): map<int, string> {
    rewriter(ItemsOf(group)).GetOr(map[])
  }

  function GroupOutcomes(rewriter: Rewriter, groups: seq<seq<Entry>>): (r: seq<seq<Outcome>>)
    ensures |r| == |groups|
    ensures forall g :: 0 <= g < |r| ==> r[g] == OutcomesOf(groups[g], Returned(rewriter, groups[g]))
  {
    seq(|groups|, g requires 0 <= g < |groups| => OutcomesOf(groups[g], Returned(rewriter, groups[g])))
  }

  function FileOutcomes(lines: seq<string>, syntax: Syntax, opts: Options, rewriter: Rewriter): seq<Outcome> {
    Flat(GroupOutcomes(rewriter, GroupsOf(lines, syntax, opts)))
  }

  // ---- outcomes and entries ----

  lemma {:induction false} FlatOutcomes(rewriter: Rewriter, groups: seq<seq<Entry>>)
    ensures var outcomes := Flat(GroupOutcomes(rewriter, groups));
      |outcomes| == |Flat(groups)| && forall k :: 0 <= k < |outcomes| ==> outcomes[k].entry == Flat(groups)[k]
    decreases |groups|
  {
    hide Returned;
    if groups != [] {
      assert GroupOutcomes(rewriter, groups)[1..] == GroupOutcomes(rewriter, groups[1..]);
      FlatOutcomes(rewriter, groups[1..]);
    }
  }

  /** The attempted entries are those of rewritable lines, in line order. */
  lemma AttemptedFit(lines: seq<string>, syntax: Syntax, limit: int)
    ensures var entries := Attempted(lines, syntax, limit);
      && (forall k {:trigger entries[k]} :: 0 <= k < |entries| ==> Fits(entries[k], lines, |lines|, syntax))
      && (forall k, l {:trigger entries[k], entries[l]} :: 0 <= k < l < |entries| ==> entries[k].line < entries[l].line)
  {
    hide Plan, Fits, HasEntry;
    PlanIsPlan(lines, |lines|, syntax);
    var prose := Plan(lines, |lines|, syntax);
    var entries := Attempted(lines, syntax, limit);
    forall k | 0 <= k < |entries| ensures Fits(entries[k], lines, |lines|, syntax) {
      assert entries[k] == prose[k];
    }
    forall k, l | 0 <= k < l < |entries| ensures entries[k].line < entries[l].line {
      assert prose[k].line < prose[l].line;
    }
  }

  /** So are the entries of the outcomes. */
  lemma OutcomesFit(lines: seq<string>, syntax: Syntax, opts: Options, rewriter: Rewriter)
    ensures var outcomes := FileOutcomes(lines, syntax, opts, rewriter);
      && |outcomes| == |Attempted(lines, syntax, opts.limit)| && InOrder(outcomes, |lines|)
      && (forall k {:trigger outcomes[k]} :: 0 <= k < |outcomes| ==>
            outcomes[k].entry == Attempted(lines, syntax, opts.limit)[k] && Fits(outcomes[k].entry, lines, |lines|, syntax))
  {
    hide Plan, Fits, Attempted, Rewritable, EntryOf;
    AttemptedFit(lines, syntax, opts.limit);
    FlatOutcomes(rewriter, GroupsOf(lines, syntax, opts));
    var outcomes := FileOutcomes(lines, syntax, opts, rewriter);
    forall k | 0 <= k < |outcomes| ensures outcomes[k].entry.line < |lines| {
      FitsBound(outcomes[k].entry, lines, syntax);
    }
  }

  lemma FitsBound(e: Entry, lines: seq<string>, syntax: Syntax)
    requires Fits(e, lines, |lines|, syntax)
    ensures e.line < |lines| && e == EntryOf(lines, e.line, syntax) && e.prefix + e.core + e.suffix == lines[e.line]
    ensures Rewritable(lines, e.line, syntax)
  {
  }

  ghost function RewrittenLines(lines: seq<string>, syntax: Syntax, opts: Options, rewriter: Rewriter): (r: seq<string>)
    ensures |r| == |lines|
  {
    OutcomesFit(lines, syntax, opts, rewriter);
    PutBack(lines, FileOutcomes(lines, syntax, opts, rewriter))
  }

  /** How many lines have a new text. */
  ghost function ChangedCount(lines: seq<string>, syntax: Syntax, opts: Options, rewriter: Rewriter): nat {
    OutcomesFit(lines, syntax, opts, rewriter);
    Changed(FileOutcomes(lines, syntax, opts, rewriter), lines)
  }

  // ---- any interleaving of the requests ----

  /** Each delivery hands over what the request for its group came back with. */
  ghost predicate DeliversOutcomes(states: seq<Pool<seq<Outcome>>>, events: seq<Event<seq<Outcome>>>, rewriter: Rewriter, groups: seq<seq<Entry>>)
    requires |states| == |events| + 1
  {
    forall k {:trigger events[k]} :: 0 <= k < |events| && events[k].Deliver? ==>
      events[k].worker < |states[k].workers| && states[k].workers[events[k].worker].Busy?
      && IsOutcome(rewriter, groups)(states[k].workers[events[k].worker].item, events[k].result)
  }

  function IsOutcome(rewriter: Rewriter, groups: seq<seq<Entry>>): (nat, seq<Outcome>) -> bool {
    (g: nat, r: seq<Outcome>) => g < |groups| ==> r == OutcomesOf(groups[g], Returned(rewriter, groups[g]))
  }

  function Results(pool: Pool<seq<Outcome>>, count: nat): (r: seq<seq<Outcome>>)
    requires forall g :: 0 <= g < count ==> g in pool.results
  {
    seq(count, g requires 0 <= g < count => pool.results[g])
  }

  /**
   However the requests interleave and however many run at a time: when no
   worker can go on, the pool holds the outcomes of every group, in order.
   */
  lemma AnyRunResolves(states: seq<Pool<seq<Outcome>>>, events: seq<Event<seq<Outcome>>>, rewriter: Rewriter,
                       groups: seq<seq<Entry>>, concurrency: int)
    requires IsRun(states, events, |groups|) && states[0] == Start(|groups|, concurrency)
    requires DeliversOutcomes(states, events, rewriter, groups)
    requires forall e: Event<seq<Outcome>> :: !Enabled(states[|events|], e)
    ensures forall g :: 0 <= g < |groups| ==> g in states[|events|].results
    ensures Results(states[|events|], |groups|) == GroupOutcomes(rewriter, groups)
  {
    hide Consistent, Enabled, Returned;
    var last := states[|events|];
    RunsStayConsistent(states, events, |groups|, concurrency);
    StuckMeansDone(last, |groups|, []);
    forall g: nat | g < |groups| ensures last.results[g] == OutcomesOf(groups[g], Returned(rewriter, groups[g])) {
      ResultsAreAllowed(states, events, |groups|, concurrency, IsOutcome(rewriter, groups), g);
    }
  }

  /** The pool in place: shared counter and results, the next worker to move being anyone who is not finished. */
  method MapPool(groups: seq<seq<Entry>>, concurrency: int, rewriter: Rewriter) returns (resolved: seq<seq<Outcome>>)
    ensures resolved == GroupOutcomes(rewriter, groups)
  {
    hide Returned, Consistent;
    var next: nat, results: map<nat, seq<Outcome>> := 0, map[];
    var workers := seq(Width(|groups|, concurrency), _ => Idle);
    StartIsConsistent<seq<Outcome>>(|groups|, concurrency);
    assert Pool(next, workers, results) == Start<seq<Outcome>>(|groups|, concurrency);
    while exists w :: 0 <= w < |workers| && !workers[w].Finished?
      invariant |workers| == Width(|groups|, concurrency) && Consistent(Pool(next, workers, results), |groups|)
      invariant forall g :: g in results ==> g < |groups| && results[g] == OutcomesOf(groups[g], Returned(rewriter, groups[g]))
      decreases Work(Pool(next, workers, results), |groups|)
    {
      var w: nat :| w < |workers| && !workers[w].Finished?;
      ghost var before := Pool(next, workers, results);
      if workers[w].Idle? {
        TakeKeeps(before, |groups|, w);
        StepWorks(before, |groups|, Take(w));
        workers := workers[w := if next < |groups| then Busy(next) else Finished];
        next := next + 1;
        assert Pool(next, workers, results) == WorkerPool.Step(before, |groups|, Take(w));
      } else {
        var g := workers[w].item;
        BusyIsTaken(before, |groups|, w);
        var outcomes := OutcomesOf(groups[g], Returned(rewriter, groups[g]));
        DeliverKeeps(before, |groups|, w, outcomes);
        StepWorks(before, |groups|, Deliver(w, outcomes));
        results, workers := results[g := outcomes], workers[w := Idle];
        assert Pool(next, workers, results) == WorkerPool.Step(before, |groups|, Deliver(w, outcomes));
      }
    }
    NothingEnabled(Pool(next, workers, results));
    StuckMeansDone(Pool(next, workers, results), |groups|, []);
    resolved := Results(Pool(next, workers, results), |groups|);
  }

  lemma BusyIsTaken(pool: Pool<seq<Outcome>>, items: nat, w: nat)
    requires Consistent(pool, items) && w < |pool.workers| && pool.workers[w].Busy?
    ensures pool.workers[w].item < items
  {
    assert IsBusyWith(pool.workers, w, pool.workers[w].item);
    assert InHand(pool, pool.workers[w].item);
  }

  lemma NothingEnabled(pool: Pool<seq<Outcome>>)
    requires forall w :: 0 <= w < |pool.workers| ==> pool.workers[w].Finished?
    ensures forall e: Event<seq<Outcome>> :: !Enabled(pool, e)
  {
  }

  /** The whole rewriting: from the content of a file to its new content, with the counts it reports. */
  method RewriteAll(content: string, syntax: Syntax, opts: Options, rewriter: Rewriter)
    returns (r: string, attempted: nat, changed: nat, fallback: nat)
    ensures var lines := Text.Split(content);
      && r == Text.Join(RewrittenLines(lines, syntax, opts, rewriter))
      && attempted == |Attempted(lines, syntax, opts.limit)| && changed == ChangedCount(lines, syntax, opts, rewriter)
      && fallback == Fallbacks(FileOutcomes(lines, syntax, opts, rewriter)) && changed + fallback <= attempted
  {
    hide Plan, Flat, Fallbacks, Changed, PutBack, GroupOutcomes, Groups;
    var lines := Text.Split(content);
    var prose := PlanRewrite(lines, syntax);
    var toRewrite := if 0 < opts.limit < |prose| then prose[..opts.limit] else prose;
    var groups := Chunk(toRewrite, opts.chunkSize);
    var resolved := MapPool(groups, opts.concurrency, rewriter);
    OutcomesFit(lines, syntax, opts, rewriter);
    var rewritten;
    rewritten, changed, fallback := Reassemble(lines, resolved);
    attempted := |toRewrite|;
    CountsAddUp(Flat(resolved), lines);
    r := Text.Join(rewritten);
  }

  lemma {:induction false} CountsAddUp(outcomes: seq<Outcome>, lines: seq<string>)
    requires forall k :: 0 <= k < |outcomes| ==> outcomes[k].entry.line < |lines|
    ensures Changed(outcomes, lines) + Fallbacks(outcomes) <= |outcomes|
    decreases |outcomes|
  {
    if outcomes != [] {
      CountsAddUp(outcomes[..|outcomes| - 1], lines);
    }
  }

  /** Every finished run of the pool, whatever the order and the concurrency, gives the file that the rewriting writes. */
  lemma AnyRunSameFile(lines: seq<string>, syntax: Syntax, opts: Options, rewriter: Rewriter,
                       states: seq<Pool<seq<Outcome>>>, events: seq<Event<seq<Outcome>>>, concurrency: int)
    requires var groups := GroupsOf(lines, syntax, opts);
      && IsRun(states, events, |groups|) && states[0] == Start(|groups|, concurrency)
      && DeliversOutcomes(states, events, rewriter, groups)
    requires forall e: Event<seq<Outcome>> :: !Enabled(states[|events|], e)
    ensures var groups := GroupsOf(lines, syntax, opts);
      && (forall g :: 0 <= g < |groups| ==> g in states[|events|].results)
      && InOrder(Flat(Results(states[|events|], |groups|)), |lines|)
      && PutBack(lines, Flat(Results(states[|events|], |groups|))) == RewrittenLines(lines, syntax, opts, rewriter)
  {
    hide IsRun, DeliversOutcomes, Enabled, Results, PutBack, Flat, GroupsOf;
    AnyRunResolves(states, events, rewriter, GroupsOf(lines, syntax, opts), concurrency);
    OutcomesFit(lines, syntax, opts, rewriter);
  }

  // ---- each line ----

  /** The line as the text would make it. */
  function Framed(e: Entry, text: string): string {
    e.prefix + text + e.suffix
  }

  /** The text that comes back for the entry: of the request, or its own core. */
  function TextFor(rewriter: Rewriter, group: seq<Entry>, e: Entry): string {
    var returned := Returned(rewriter, group);
    if e.line in returned then returned[e.line] else e.core
  }

  lemma {:induction false} FlatHas<T>(groups: seq<seq<T>>, g: nat, j: nat) returns (k: nat)
    requires g < |groups| && j < |groups[g]|
    ensures k < |Flat(groups)| && Flat(groups)[k] == groups[g][j]
    decreases |groups|
  {
    if g == 0 {
      k := j;
    } else {
      var m := FlatHas(groups[1..], g - 1, j);
      k := |groups[0]| + m;
    }
  }

  lemma {:induction false} FlatFrom<T>(groups: seq<seq<T>>, k: nat) returns (g: nat, j: nat)
    requires k < |Flat(groups)|
    ensures g < |groups| && j < |groups[g]| && groups[g][j] == Flat(groups)[k]
    decreases |groups|
  {
    if k < |groups[0]| {
      g, j := 0, k;
    } else {
      g, j := FlatFrom(groups[1..], k - |groups[0]|);
      g := g + 1;
    }
  }

  /** Whatever comes back, a line that was not attempted stays, and any other is its own frame around the text that came back. */
  lemma EachLine(lines: seq<string>, syntax: Syntax, opts: Options, rewriter: Rewriter)
    ensures var r, groups := RewrittenLines(lines, syntax, opts, rewriter), GroupsOf(lines, syntax, opts);
      && (forall g, j {:trigger groups[g][j]} :: 0 <= g < |groups| && 0 <= j < |groups[g]| ==>
            var e := groups[g][j];
            e.line < |lines| && e == EntryOf(lines, e.line, syntax) && Rewritable(lines, e.line, syntax)
            && r[e.line] == Framed(e, TextFor(rewriter, groups[g], e)) && lines[e.line] == Framed(e, e.core))
      && (forall i {:trigger r[i]} :: 0 <= i < |lines| && !HasEntry(Attempted(lines, syntax, opts.limit), i) ==> r[i] == lines[i])
  {
    hide Plan, Fits, Rewritable, EntryOf, PutBack, Flat, GroupsOf, Attempted;
    var outcomes, groups := FileOutcomes(lines, syntax, opts, rewriter), GroupsOf(lines, syntax, opts);
    var resolved := GroupOutcomes(rewriter, groups);
    var entries, r := Attempted(lines, syntax, opts.limit), RewrittenLines(lines, syntax, opts, rewriter);
    OutcomesFit(lines, syntax, opts, rewriter);
    EachLineOnce(lines, outcomes);
    forall g, j | 0 <= g < |groups| && 0 <= j < |groups[g]|
      ensures var e := groups[g][j];
        e.line < |lines| && e == EntryOf(lines, e.line, syntax) && Rewritable(lines, e.line, syntax)
        && r[e.line] == Framed(e, TextFor(rewriter, groups[g], e)) && lines[e.line] == Framed(e, e.core)
    {
      var k := FlatHas(resolved, g, j);
      FitsBound(outcomes[k].entry, lines, syntax);
      assert r[outcomes[k].entry.line] == Rebuilt(outcomes[k]);
    }
    forall i | 0 <= i < |lines| && !HasEntry(entries, i) ensures r[i] == lines[i] {
      forall k | 0 <= k < |outcomes| ensures outcomes[k].entry.line != i {
        assert entries[k] == outcomes[k].entry;
      }
    }
  }

  // ---- tokens ----

  /** The line is as it was, or its own frame around a text that keeps the tokens. */
  ghost predicate LineKept(before: string, after: string, e: Entry) {
    after == before || exists text :: Keeps(text, e.tokens) && after == Framed(e, text)
  }

  /** The comment's promise: every attempted line is unchanged or keeps its tokens. */
  ghost predicate TokensKept(lines: seq<string>, syntax: Syntax, opts: Options, rewriter: Rewriter) {
    forall i {:trigger RewrittenLines(lines, syntax, opts, rewriter)[i]} :: 0 <= i < |lines| ==>
      LineKept(lines[i], RewrittenLines(lines, syntax, opts, rewriter)[i], EntryOf(lines, i, syntax))
  }

  /** A text that comes back for an entry keeps its tokens, or is its core. */
  ghost predicate GoodText(rewriter: Rewriter, group: seq<Entry>, e: Entry) {
    TextFor(rewriter, group, e) == e.core || Keeps(TextFor(rewriter, group, e), e.tokens)
  }

  ghost predicate GoodTexts(rewriter: Rewriter, groups: seq<seq<Entry>>) {
    forall g, j {:trigger groups[g][j]} :: 0 <= g < |groups| && 0 <= j < |groups[g]| ==> GoodText(rewriter, groups[g], groups[g][j])
  }

  lemma OneText(e: Entry, text: string, core: string)
    requires Framed(e, text) == Framed(e, core)
    ensures text == core
  {
    assert |text| == |core|;
    assert Framed(e, text)[|e.prefix|..|e.prefix| + |text|] == text;
    assert Framed(e, core)[|e.prefix|..|e.prefix| + |core|] == core;
  }

  lemma LineKeptIff(rewriter: Rewriter, group: seq<Entry>, e: Entry)
    ensures LineKept(Framed(e, e.core), Framed(e, TextFor(rewriter, group, e)), e) <==> GoodText(rewriter, group, e)
  {
    hide Keeps, Framed, TextFor;
    var given := TextFor(rewriter, group, e);
    if LineKept(Framed(e, e.core), Framed(e, given), e) {
      if Framed(e, given) == Framed(e, e.core) {
        OneText(e, given, e.core);
      } else {
        var text :| Keeps(text, e.tokens) && Framed(e, given) == Framed(e, text);
        OneText(e, given, text);
      }
    }
  }

  /**
   Nothing past the request checks the texts: the promise is kept, for an
   arbitrary rewriter, if and only if every text that comes back for an
   attempted line keeps the tokens of its core or is the core.
   */
  lemma TokensKeptIff(lines: seq<string>, syntax: Syntax, opts: Options, rewriter: Rewriter)
    ensures TokensKept(lines, syntax, opts, rewriter) <==> GoodTexts(rewriter, GroupsOf(lines, syntax, opts))
  {
    hide Plan, Rewritable, EntryOf, GroupsOf, RewrittenLines, LineKept, GoodText, Framed, TextFor, Attempted;
    var r, groups := RewrittenLines(lines, syntax, opts, rewriter), GroupsOf(lines, syntax, opts);
    EachLine(lines, syntax, opts, rewriter);
    forall g, j | 0 <= g < |groups| && 0 <= j < |groups[g]|
      ensures var e: Entry := groups[g][j]; LineKept(lines[e.line], r[e.line], e) <==> GoodText(rewriter, groups[g], e)
    {
      LineKeptIff(rewriter, groups[g], groups[g][j]);
    }
    if TokensKept(lines, syntax, opts, rewriter) {
      forall g, j | 0 <= g < |groups| && 0 <= j < |groups[g]| ensures GoodText(rewriter, groups[g], groups[g][j]) {
        var e := groups[g][j];
        assert LineKept(lines[e.line], RewrittenLines(lines, syntax, opts, rewriter)[e.line], EntryOf(lines, e.line, syntax));
      }
    }
    if GoodTexts(rewriter, groups) {
      forall i | 0 <= i < |lines| ensures LineKept(lines[i], r[i], EntryOf(lines, i, syntax)) {
        if HasEntry(Attempted(lines, syntax, opts.limit), i) {
          var k :| 0 <= k < |Attempted(lines, syntax, opts.limit)| && Attempted(lines, syntax, opts.limit)[k].line == i;
          var g, j := FlatFrom(groups, k);
          assert groups[g][j].line == i;
        } else {
          SameIsKept(lines[i], EntryOf(lines, i, syntax));
        }
      }
    }
  }

  lemma SameIsKept(line: string, e: Entry)
    ensures LineKept(line, line, e)
  {
  }

  // ---- requests that check their replies ----

  /** The rewriter the script makes: it retries, and hands over only texts that keep the tokens. */
  function CheckedRewriter(replies: seq<Item> -> seq<Option<seq<Fragment>>>): Rewriter {
    (items: seq<Item>) => Some(Answers(items, replies(items)))
  }

  /** The lines of the group are pairwise different. */
  ghost predicate GroupIds(group: seq<Entry>) {
    forall k, l {:trigger group[k], group[l]} :: 0 <= k < l < |group| ==> group[k].line < group[l].line
  }

  lemma EntriesHaveIds(lines: seq<string>, syntax: Syntax, opts: Options, g: nat)
    requires g < |GroupsOf(lines, syntax, opts)|
    ensures GroupIds(GroupsOf(lines, syntax, opts)[g])
  {
    hide Fits, Flat, Attempted, Groups, Plan;
    var entries, groups := Attempted(lines, syntax, opts.limit), GroupsOf(lines, syntax, opts);
    AttemptedFit(lines, syntax, opts.limit);
    var n := GroupInFlat(groups, g);
    var group := groups[g];
    forall k, l | 0 <= k < l < |group| ensures group[k].line < group[l].line {
      assert group[k] == entries[n..n + |group|][k] == entries[n + k] && group[l] == entries[n..n + |group|][l] == entries[n + l];
    }
  }

  lemma {:induction false} GroupInFlat(groups: seq<seq<Entry>>, g: nat) returns (n: nat)
    requires g < |groups|
    ensures n + |groups[g]| <= |Flat(groups)| && Flat(groups)[n..n + |groups[g]|] == groups[g]
    decreases |groups|
  {
    if g == 0 {
      n := 0;
    } else {
      var m := GroupInFlat(groups[1..], g - 1);
      n := m + |groups[0]|;
      assert Flat(groups)[n..n + |groups[g]|] == Flat(groups[1..])[m..m + |groups[g]|];
    }
  }

  lemma ItemsAreUnique(group: seq<Entry>)
    requires GroupIds(group)
    ensures UniqueIds(ItemsOf(group))
  {
    var items := ItemsOf(group);
    forall i, j | 0 <= i < j < |items| ensures items[i].id != items[j].id {
      assert group[i].line < group[j].line;
    }
  }

  lemma CheckedIsGood(group: seq<Entry>, replies: seq<Item> -> seq<Option<seq<Fragment>>>, j: nat)
    requires GroupIds(group) && j < |group|
    ensures GoodText(CheckedRewriter(replies), group, group[j])
  {
    hide Preserves, Keeps, FirstAccepted, Answers;
    var items := ItemsOf(group);
    ItemsAreUnique(group);
    AnswersAre(items, replies(items));
    assert items[j].id == group[j].line;
    if FirstAccepted(replies(items), items[j]).Some? {
      AcceptedPreserves(replies(items), items[j]);
    }
  }

  /** Through the pool, with checked requests, and whatever the model replies: every line is unchanged or keeps its tokens. */
  lemma CheckedKeepsTokens(lines: seq<string>, syntax: Syntax, opts: Options, replies: seq<Item> -> seq<Option<seq<Fragment>>>)
    ensures TokensKept(lines, syntax, opts, CheckedRewriter(replies))
  {
    hide GroupIds, GoodText, TokensKept, GroupsOf, CheckedRewriter;
    var groups := GroupsOf(lines, syntax, opts);
    forall g, j | 0 <= g < |groups| && 0 <= j < |groups[g]| ensures GoodText(CheckedRewriter(replies), groups[g], groups[g][j]) {
      EntriesHaveIds(lines, syntax, opts, g);
      CheckedIsGood(groups[g], replies, j);
    }
    TokensKeptIff(lines, syntax, opts, CheckedRewriter(replies));
  }

  /**
   The same for every finished run of the pool: in whatever order the requests
   come back, and however many run at a time, no line of the file loses a token.
   Each group is requested once, so its replies are given by its items.
   */
  lemma AnyRunKeepsTokens(lines: seq<string>, syntax: Syntax, opts: Options, replies: seq<Item> -> seq<Option<seq<Fragment>>>,
                          states: seq<Pool<seq<Outcome>>>, events: seq<Event<seq<Outcome>>>, concurrency: int)
    requires var groups := GroupsOf(lines, syntax, opts);
      && IsRun(states, events, |groups|) && states[0] == Start(|groups|, concurrency)
      && DeliversOutcomes(states, events, CheckedRewriter(replies), groups)
    requires forall e: Event<seq<Outcome>> :: !Enabled(states[|events|], e)
    ensures var groups := GroupsOf(lines, syntax, opts);
      && (forall g :: 0 <= g < |groups| ==> g in states[|events|].results)
      && InOrder(Flat(Results(states[|events|], |groups|)), |lines|)
      && forall i :: 0 <= i < |lines| ==>
           LineKept(lines[i], PutBack(lines, Flat(Results(states[|events|], |groups|)))[i], EntryOf(lines, i, syntax))
  {
    hide IsRun, DeliversOutcomes, Enabled, Results, PutBack, Flat, GroupsOf, RewrittenLines, LineKept, CheckedRewriter, EntryOf;
    AnyRunSameFile(lines, syntax, opts, CheckedRewriter(replies), states, events, concurrency);
    CheckedKeepsTokens(lines, syntax, opts, replies);
  }

  /** The script's own run: the rewriting with checked requests. */
  method RewriteChecked(content: string, syntax: Syntax, opts: Options, replies: seq<Item> -> seq<Option<seq<Fragment>>>)
    returns (r: string)
    ensures r == Text.Join(RewrittenLines(Text.Split(content), syntax, opts, CheckedRewriter(replies)))
    ensures TokensKept(Text.Split(content), syntax, opts, CheckedRewriter(replies))
  {
    hide RewrittenLines, TokensKept;
    var attempted, changed, fallback;
    r, attempted, changed, fallback := RewriteAll(content, syntax, opts, CheckedRewriter(replies));
    CheckedKeepsTokens(Text.Split(content), syntax, opts, replies);
  }

  // ---- an input that loses a token ----

  /** Three words and a full stop around one code span: prose to the script, with the span as its only token. */
  const SENTENCE := "Always call `x` here."

  const SPAN: Token := "`x`"

  /** What the script's patterns make of that line: nothing to peel off, no heading, rule or fence, and one token. */
  predicate ReadsSentence(syntax: Syntax) {
    && syntax.trailing(SENTENCE) == 0 && syntax.leading(SENTENCE) == 0 && syntax.marker(SENTENCE) == 0
    && syntax.tokens(SENTENCE) == [SPAN]
    && !syntax.verbatim(SENTENCE) && !syntax.blank(SENTENCE) && !syntax.rule(SENTENCE) && syntax.fence(SENTENCE) == None
  }

  /** Patterns that agree with the script's on that line and on the empty one. */
  function SentenceSyntax(): (syntax: Syntax)
    ensures ReadsSentence(syntax)
    ensures syntax.verbatim("") && syntax.blank("") && syntax.tokens("") == []
  {
    Syntax(_ => 0, _ => 0, _ => 0, (s: string) => if s == SENTENCE then [SPAN] else [],
           (s: string) => s == "", (s: string) => s == "", _ => false, _ => None)
  }

  /** It answers every request with the same text for line zero. */
  function Careless(): Rewriter {
    (items: seq<Item>) => Some(map[0 := "gone"])
  }

  function SentenceEntry(): Entry {
    Entry(0, "", SENTENCE, "", [SPAN])
  }

  const ONE_BY_ONE := Options(1, 1, 0)

  /** One line that the script attempts, one request: the text without the token is written into the file all the same. */
  lemma TokenIsLost(syntax: Syntax)
    requires ReadsSentence(syntax)
    ensures RewrittenLines([SENTENCE], syntax, ONE_BY_ONE, Careless()) == ["gone"]
    ensures Rewritable([SENTENCE], 0, syntax) && EntryOf([SENTENCE], 0, syntax).tokens == [SPAN] && !Holds("gone", SPAN, 1)
    ensures !TokensKept([SENTENCE], syntax, ONE_BY_ONE, Careless())
  {
    hide LineKept, TokensKept, Plan, Attempted, Groups, GroupsOf, EntryOf, Keeps, Holds, PutBack, FileOutcomes, RewrittenLines, Rewritable;
    var groups, e := GroupsOf([SENTENCE], syntax, ONE_BY_ONE), SentenceEntry();
    SentenceIsProse(syntax);
    SentenceGroups(syntax);
    NoneCounted();
    EachLine([SENTENCE], syntax, ONE_BY_ONE, Careless());
    assert groups[0][0] == e;
    assert TextFor(Careless(), groups[0], e) == "gone" && Framed(e, "gone") == "gone";
    assert RewrittenLines([SENTENCE], syntax, ONE_BY_ONE, Careless())[0] == "gone";
    assert !GoodText(Careless(), groups[0], groups[0][0]);
    TokensKeptIff([SENTENCE], syntax, ONE_BY_ONE, Careless());
  }

  lemma SentenceIsProse(syntax: Syntax)
    requires ReadsSentence(syntax)
    ensures EntryOf([SENTENCE], 0, syntax) == SentenceEntry() && Rewritable([SENTENCE], 0, syntax)
  {
    hide PeelOf, Skipped;
    NothingToPeel(SENTENCE, syntax);
    LineOfItsOwn(SENTENCE, syntax);
  }

  lemma NothingToPeel(line: string, syntax: Syntax)
    requires syntax.trailing(line) == 0 && syntax.leading(line) == 0 && syntax.marker(line) == 0
    ensures PeelOf(line, syntax) == Peeled("", line, "")
  {
    assert WithoutTrailing(line, syntax) == line && LeadingLength(line, syntax) == 0;
    assert line[0..] == line && line[..0] == "" && line[|line|..] == "";
  }

  lemma LineOfItsOwn(line: string, syntax: Syntax)
    requires !syntax.rule(line) && syntax.fence(line) == None
    ensures !Skipped([line], 0, syntax)
  {
    assert BodyStart([line], syntax) == 0;
  }

  lemma SentenceAttempted(syntax: Syntax)
    requires ReadsSentence(syntax)
    ensures Attempted([SENTENCE], syntax, 0) == [SentenceEntry()]
  {
    hide EntryOf, Rewritable, SentenceEntry;
    SentenceIsProse(syntax);
    assert Plan([SENTENCE], 0, syntax) == [];
    assert Plan([SENTENCE], 1, syntax) == [] + [SentenceEntry()];
  }

  lemma OneGroup<T>(item: T)
    ensures Groups([item], 1) == [[item]]
  {
    hide Flat;
    assert [item][..1] == [item] && [item][1..] == [] && Groups<T>([], 1) == [];
  }

  lemma SentenceGroups(syntax: Syntax)
    requires ReadsSentence(syntax)
    ensures GroupsOf([SENTENCE], syntax, ONE_BY_ONE) == [[SentenceEntry()]]
  {
    hide Attempted, Groups, Flat, SentenceEntry;
    SentenceAttempted(syntax);
    OneGroup(SentenceEntry());
  }

  lemma AbsentIsNotHeld(text: string, token: Token)
    requires token[0] !in text
    ensures !Holds(text, token, 1)
  {
    forall p ensures !OccursAt(text, token, p) {
      if 0 <= p <= |text| - |token| {
        assert text[p..p + |token|][0] == text[p];
      }
    }
    assert forall at {:trigger Occurrences(text, token, at)} :: |at| == 1 ==> !OccursAt(text, token, at[0]);
  }

  lemma NoneCounted()
    ensures !Holds("gone", SPAN, 1) && !Keeps("gone", [SPAN])
  {
    AbsentIsNotHeld("gone", SPAN);
    assert multiset([SPAN])[[SPAN][0]] == 1;
  }
}
