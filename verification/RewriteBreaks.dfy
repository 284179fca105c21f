/** Where the lines of a rewritten file are when it is read again. */
module RewriteBreaks {
  import opened RewritePlan
  import opened RewriteRun
  import opened RewriteFile
  import opened Wrappers
  import Text = ChangelogText

  // ---- line breaks in joined lines ----

  function Breaks(s: string): nat {
    if s == "" then 0 else (if s[0] == '\n' then 1 else 0) + Breaks(s[1..])
  }

  ghost function AllBreaks(lines: seq<string>): nat {
    if lines == [] then 0 else Breaks(lines[0]) + AllBreaks(lines[1..])
  }

  lemma {:induction false} BreaksConcat(a: string, b: string)
    ensures Breaks(a + b) == Breaks(a) + Breaks(b)
  {
    if a == "" {
      assert a + b == b;
    } else {
      assert (a + b)[1..] == a[1..] + b;
      BreaksConcat(a[1..], b);
    }
  }

  lemma {:induction false} NoBreaks(s: string)
    ensures Breaks(s) == 0 <==> '\n' !in s
  {
    if s != "" {
      NoBreaks(s[1..]);
      assert s == [s[0]] + s[1..];
    }
  }

  lemma {:induction false} SplitSize(s: string)
    ensures |Text.Split(s)| == Breaks(s) + 1
  {
    if s != "" {
      SplitSize(s[1..]);
    }
  }

  lemma {:induction false} JoinBreaks(lines: seq<string>)
    requires lines != []
    ensures Breaks(Text.Join(lines)) == AllBreaks(lines) + |lines| - 1
  {
    if |lines| == 1 {
      assert lines[1..] == [];
    } else {
      JoinBreaks(lines[1..]);
      BreaksConcat(lines[0] + "\n", Text.Join(lines[1..]));
      BreaksConcat(lines[0], "\n");
    }
  }

  lemma {:induction false} NoneBreaks(lines: seq<string>)
    ensures AllBreaks(lines) == 0 <==> forall i :: 0 <= i < |lines| ==> '\n' !in lines[i]
  {
    if lines != [] {
      NoBreaks(lines[0]);
      NoneBreaks(lines[1..]);
      assert forall i :: 0 < i < |lines| ==> lines[i] == lines[1..][i - 1];
      assert forall i :: 0 <= i < |lines| - 1 ==> lines[1..][i] == lines[i + 1];
    }
  }

  lemma {:induction false} SplitOfJoin(lines: seq<string>)
    requires lines != [] && forall i :: 0 <= i < |lines| ==> '\n' !in lines[i]
    ensures Text.Split(Text.Join(lines)) == lines
  {
    if |lines| == 1 {
      Text.SplitOfLine(lines[0]);
    } else {
      assert forall i :: 0 <= i < |lines| - 1 ==> lines[1..][i] == lines[i + 1];
      SplitOfJoin(lines[1..]);
      Text.SplitOfLineAnd(lines[0], Text.Join(lines[1..]));
    }
  }

  lemma JoinedSplits(lines: seq<string>)
    requires lines != []
    ensures Text.Split(Text.Join(lines)) == lines <==> forall i :: 0 <= i < |lines| ==> '\n' !in lines[i]
    ensures |Text.Split(Text.Join(lines))| == |lines| + AllBreaks(lines)
  {
    JoinBreaks(lines);
    SplitSize(Text.Join(lines));
    NoneBreaks(lines);
    if forall i :: 0 <= i < |lines| ==> '\n' !in lines[i] {
      SplitOfJoin(lines);
    }
  }

  // ---- line breaks in what the requests bring back ----

  /** The breaks in the texts of the requests. */
  function BroughtBreaks(outcomes: seq<Outcome>): nat {
    if outcomes == [] then 0
    else
      var last := outcomes[|outcomes| - 1];
      BroughtBreaks(outcomes[..|outcomes| - 1]) + if last.ok then Breaks(last.text) else 0
  }

  /** The entry was cut from a line without a break, and without a text it has its core. */
  ghost predicate FromLine(o: Outcome, lines: seq<string>) {
    && o.entry.line < |lines| && o.entry.prefix + o.entry.core + o.entry.suffix == lines[o.entry.line]
    && Breaks(lines[o.entry.line]) == 0 && (!o.ok ==> o.text == o.entry.core)
  }

  lemma RebuiltBreaks(o: Outcome, lines: seq<string>)
    requires FromLine(o, lines)
    ensures Breaks(Rebuilt(o)) == if o.ok then Breaks(o.text) else 0
  {
    BreaksConcat(o.entry.prefix + o.entry.core, o.entry.suffix);
    BreaksConcat(o.entry.prefix, o.entry.core);
    BreaksConcat(o.entry.prefix + o.text, o.entry.suffix);
    BreaksConcat(o.entry.prefix, o.text);
  }

  lemma {:induction false} UpdatedBreaks(lines: seq<string>, i: nat, line: string)
    requires i < |lines|
    ensures AllBreaks(lines[i := line]) == AllBreaks(lines) - Breaks(lines[i]) + Breaks(line)
  {
    var next := lines[i := line];
    if i == 0 {
      assert next[1..] == lines[1..];
    } else {
      assert next[1..] == lines[1..][i - 1 := line];
      UpdatedBreaks(lines[1..], i - 1, line);
    }
  }

  /** Putting the outcomes back brings in exactly the breaks of their texts. */
  lemma {:induction false} PutBackBreaks(lines: seq<string>, outcomes: seq<Outcome>)
    requires InOrder(outcomes, |lines|) && AllBreaks(lines) == 0
    requires forall k {:trigger outcomes[k]} :: 0 <= k < |outcomes| ==> FromLine(outcomes[k], lines)
    ensures AllBreaks(PutBack(lines, outcomes)) == BroughtBreaks(outcomes)
    decreases |outcomes|
  {
    hide Rebuilt, FromLine, AllBreaks, Breaks;
    if outcomes != [] {
      var n := |outcomes| - 1;
      var init, last := outcomes[..n], outcomes[n];
      assert forall k :: 0 <= k < n ==> init[k] == outcomes[k];
      PutBackBreaks(lines, init);
      EachLineOnce(lines, init);
      RebuiltBreaks(last, lines);
      var before := PutBack(lines, init);
      assert before[last.entry.line] == lines[last.entry.line];
      UpdatedBreaks(before, last.entry.line, Rebuilt(last));
      LineOf(last, lines);
    }
  }

  lemma LineOf(o: Outcome, lines: seq<string>)
    requires FromLine(o, lines)
    ensures o.entry.line < |lines| && Breaks(lines[o.entry.line]) == 0
  {
  }

  lemma {:induction false} NoneBrought(outcomes: seq<Outcome>)
    ensures BroughtBreaks(outcomes) == 0 <==> forall k :: 0 <= k < |outcomes| && outcomes[k].ok ==> '\n' !in outcomes[k].text
    decreases |outcomes|
  {
    if outcomes != [] {
      var n := |outcomes| - 1;
      assert forall k :: 0 <= k < n ==> outcomes[..n][k] == outcomes[k];
      NoneBrought(outcomes[..n]);
      NoBreaks(outcomes[n].text);
    }
  }

  lemma {:induction false} SplitHasNoBreak(s: string)
    ensures forall k :: 0 <= k < |Text.Split(s)| ==> '\n' !in Text.Split(s)[k]
  {
    if s != "" {
      SplitHasNoBreak(s[1..]);
    }
  }

  /** An outcome without a text of its own has the core of its entry. */
  lemma OutcomeText(lines: seq<string>, syntax: Syntax, opts: Options, rewriter: Rewriter, k: nat)
    requires k < |FileOutcomes(lines, syntax, opts, rewriter)|
    ensures var o := FileOutcomes(lines, syntax, opts, rewriter)[k]; !o.ok ==> o.text == o.entry.core
  {
    hide GroupsOf, Returned, Flat;
    var resolved := GroupOutcomes(rewriter, GroupsOf(lines, syntax, opts));
    var g, j := FlatFrom(resolved, k);
    assert resolved[g][j] == FileOutcomes(lines, syntax, opts, rewriter)[k];
  }

  lemma OutcomesFromLines(content: string, syntax: Syntax, opts: Options, rewriter: Rewriter)
    ensures var lines, outcomes := Text.Split(content), FileOutcomes(Text.Split(content), syntax, opts, rewriter);
      && AllBreaks(lines) == 0 && InOrder(outcomes, |lines|)
      && forall k {:trigger outcomes[k]} :: 0 <= k < |outcomes| ==> FromLine(outcomes[k], lines)
  {
    hide Fits, Attempted, FileOutcomes, InOrder, Breaks, AllBreaks, Text.Split, Rewritable, EntryOf;
    var lines := Text.Split(content);
    SplitHasNoBreak(content);
    NoneBreaks(lines);
    OutcomesFit(lines, syntax, opts, rewriter);
    var outcomes := FileOutcomes(lines, syntax, opts, rewriter);
    forall k | 0 <= k < |outcomes| ensures FromLine(outcomes[k], lines) {
      FitsBound(outcomes[k].entry, lines, syntax);
      NoBreaks(lines[outcomes[k].entry.line]);
      OutcomeText(lines, syntax, opts, rewriter, k);
    }
  }

  /**
   Read again, the rewritten file has its lines in their places if and only if
   no text that came back holds a line break; it has as many lines more as
   those texts have breaks.
   */
  lemma LinesKeepTheirPlaces(content: string, syntax: Syntax, opts: Options, rewriter: Rewriter)
    ensures var lines := Text.Split(content);
      var r, outcomes := RewrittenLines(lines, syntax, opts, rewriter), FileOutcomes(lines, syntax, opts, rewriter);
      && (Text.Split(Text.Join(r)) == r <==> forall k :: 0 <= k < |outcomes| && outcomes[k].ok ==> '\n' !in outcomes[k].text)
      && |Text.Split(Text.Join(r))| == |lines| + BroughtBreaks(outcomes)
  {
    hide Breaks, AllBreaks, BroughtBreaks, PutBack, FileOutcomes, FromLine;
    var lines := Text.Split(content);
    var r, outcomes := RewrittenLines(lines, syntax, opts, rewriter), FileOutcomes(lines, syntax, opts, rewriter);
    OutcomesFromLines(content, syntax, opts, rewriter);
    PutBackBreaks(lines, outcomes);
    NoneBrought(outcomes);
    NoneBreaks(r);
    JoinedSplits(r);
  }
}
