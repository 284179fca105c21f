/** What a merged category holds, said of the categories that went into it, and when merging a second time changes it. */
module ChangelogBodies {
  import opened ChangelogText
  import opened ChangelogDocument
  import opened ChangelogRoundTrip
  import opened ChangelogItems
  import opened ChangelogEditing
  import opened ChangelogMerge

  // ---- the bodies of a title ----

  /** The bodies of the categories of a title, each compacted on its own, empty ones left out. */
  function BodiesUnder(subsections: seq<Subsection>, title: string): seq<seq<string>> {
    if subsections == [] then []
    else
      var s := subsections[|subsections| - 1];
      var body := CompactBody(s);
      BodiesUnder(subsections[..|subsections| - 1], title) + if s.title == title && body != [] then [body] else []
  }

  /** Lines without a blank one at the ends, which compaction leaves alone. */
  ghost predicate IsBody(body: seq<string>) {
    body != [] && Trimmed(body) && Settled(body)
  }

  ghost predicate AreBodies(bodies: seq<seq<string>>) {
    forall i {:trigger bodies[i]} :: 0 <= i < |bodies| ==> IsBody(bodies[i])
  }

  /** The bodies one after the other, an empty line between them unless two item lines meet. */
  function Joined(bodies: seq<seq<string>>): seq<string> {
    if bodies == [] then []
    else
      var n := |bodies| - 1;
      var before := Joined(bodies[..n]);
      if before == [] || bodies[n] == [] then before + bodies[n]
      else before + Separator(before, bodies[n]) + bodies[n]
  }

  /** The body has an item after a blank line, or begins with one while the body before it ends with a plain line. */
  predicate LeavesGap(bodies: seq<seq<string>>, i: nat)
    requires i < |bodies|
  {
    || GapBeforeItem(bodies[i])
    || (i > 0 && bodies[i] != [] && bodies[i - 1] != [] && IsListItem(bodies[i][0]) && !IsListItem(bodies[i - 1][|bodies[i - 1]| - 1]))
  }

  /** The first body begins with plain text, or no join and no later body leaves an item after a blank line. */
  predicate JoinsCleanly(bodies: seq<seq<string>>) {
    bodies == [] || bodies[0] == [] || !IsListItem(bodies[0][0]) || forall i :: 1 <= i < |bodies| ==> !LeavesGap(bodies, i)
  }

  ghost predicate MergesCleanly(subsections: seq<Subsection>) {
    forall title {:trigger BodiesUnder(subsections, title)} :: JoinsCleanly(BodiesUnder(subsections, title))
  }

  // ---- gaps in joined bodies ----

  lemma GapInConcat(a: seq<string>, b: seq<string>)
    requires a != [] && b != []
    ensures GapBeforeItem(a + b) <==> GapBeforeItem(a) || GapBeforeItem(b) || (IsListItem(b[0]) && Blank(a[|a| - 1]))
  {
    hide IsListItem, Blank;
    var all, n := a + b, |a|;
    if GapBeforeItem(a) {
      var k :| 0 < k < |a| && IsListItem(a[k]) && Blank(a[k - 1]);
      assert IsListItem(all[k]) && Blank(all[k - 1]);
    }
    if GapBeforeItem(b) {
      var k :| 0 < k < |b| && IsListItem(b[k]) && Blank(b[k - 1]);
      assert IsListItem(all[n + k]) && Blank(all[n + k - 1]);
    }
    if IsListItem(b[0]) && Blank(a[n - 1]) {
      assert IsListItem(all[n]) && Blank(all[n - 1]);
    }
    if GapBeforeItem(all) {
      var k :| 0 < k < |all| && IsListItem(all[k]) && Blank(all[k - 1]);
      if k > n {
        assert b[k - n] == all[k] && b[k - n - 1] == all[k - 1];
      } else if k < n {
        assert a[k] == all[k] && a[k - 1] == all[k - 1];
      }
    }
  }

  lemma GapInJoin(a: seq<string>, b: seq<string>)
    requires a != [] && b != []
    ensures GapBeforeItem(a + Separator(a, b) + b)
       <==> GapBeforeItem(a) || GapBeforeItem(b) || (IsListItem(b[0]) && !IsListItem(a[|a| - 1]))
  {
    hide IsListItem, Blank, GapBeforeItem;
    PlainLine();
    if IsListItem(a[|a| - 1]) && IsListItem(b[0]) {
      assert a + Separator(a, b) == a;
      FirstIsNotBlank(a[|a| - 1]);
      GapInConcat(a, b);
    } else {
      GapInConcat(a, [""]);
      GapInConcat(a + [""], b);
    }
  }

  lemma PlainLine()
    ensures Blank("") && !IsListItem("") && !GapBeforeItem([""])
  {
  }

  lemma {:induction false} JoinedEnds(bodies: seq<seq<string>>)
    requires AreBodies(bodies) && bodies != []
    ensures Trimmed(Joined(bodies)) && Joined(bodies) != [] && Joined(bodies)[0] == bodies[0][0]
    ensures var last := bodies[|bodies| - 1]; Joined(bodies)[|Joined(bodies)| - 1] == last[|last| - 1]
    decreases |bodies|
  {
    hide IsListItem, GapBeforeItem, Blank, Separator;
    var n := |bodies| - 1;
    assert IsBody(bodies[n]);
    if n == 0 {
      assert bodies[..0] == [] && Joined(bodies) == bodies[0];
    } else {
      assert forall i :: 0 <= i < n ==> bodies[..n][i] == bodies[i];
      JoinedEnds(bodies[..n]);
    }
  }

  lemma {:induction false} GapInJoined(bodies: seq<seq<string>>)
    requires AreBodies(bodies)
    ensures GapBeforeItem(Joined(bodies)) <==> exists i :: 0 <= i < |bodies| && LeavesGap(bodies, i)
    decreases |bodies|
  {
    hide IsListItem, GapBeforeItem, Blank, Separator, Trimmed, Settled;
    var n := |bodies| - 1;
    if bodies == [] {
      NoGap();
    } else if n == 0 {
      JoinedOne(bodies[0]);
      assert bodies == [bodies[0]];
      assert LeavesGap(bodies, 0) <==> GapBeforeItem(bodies[0]);
    } else {
      var init := bodies[..n];
      assert IsBody(bodies[n]) && IsBody(bodies[n - 1]) && forall i :: 0 <= i < n ==> init[i] == bodies[i];
      GapInJoined(init);
      JoinedEnds(init);
      GapInJoin(Joined(init), bodies[n]);
      forall i | 0 <= i < n ensures LeavesGap(init, i) <==> LeavesGap(bodies, i) {
      }
      assert LeavesGap(bodies, n) <==>
        GapBeforeItem(bodies[n]) || (IsListItem(bodies[n][0]) && !IsListItem(bodies[n - 1][|bodies[n - 1]| - 1]));
    }
  }

  /** The joined lines stay as they are under compaction exactly if the bodies join cleanly. */
  lemma JoinedSettles(bodies: seq<seq<string>>)
    requires AreBodies(bodies)
    ensures Settled(Joined(bodies)) <==> JoinsCleanly(bodies)
  {
    hide IsListItem, GapBeforeItem, Trimmed;
    GapInJoined(bodies);
    if bodies != [] {
      JoinedEnds(bodies);
      assert IsBody(bodies[0]);
      if IsListItem(bodies[0][0]) {
        assert !LeavesGap(bodies, 0);
      }
    }
  }

  // ---- merged categories are joined bodies ----

  lemma CompactBodyIsBody(s: Subsection)
    ensures CompactBody(s) != [] ==> IsBody(CompactBody(s))
  {
    hide CompactBody, NonBlank, ItemTexts, Trimmed, Settled;
    BodyLines(s);
    CompactBodyIsSettled(s);
  }

  lemma {:induction false} BodiesAre(subsections: seq<Subsection>, title: string)
    ensures AreBodies(BodiesUnder(subsections, title))
    ensures BodiesUnder(subsections, title) != [] ==> HasCategory(subsections, title)
  {
    hide CompactBody, IsBody;
    if subsections != [] {
      var n := |subsections| - 1;
      BodiesAre(subsections[..n], title);
      CompactBodyIsBody(subsections[n]);
      if HasCategory(subsections[..n], title) {
        var j :| 0 <= j < n && subsections[..n][j].title == title;
        HasAt(subsections, j);
      }
      HasAt(subsections, n);
    }
  }

  lemma HasAt(subsections: seq<Subsection>, j: nat)
    requires j < |subsections|
    ensures HasCategory(subsections, subsections[j].title)
  {
  }

  /** Each category of the list is made of the bodies of its title, and no title with a body is missing. */
  ghost predicate JoinsBodies(list: seq<Subsection>, subsections: seq<Subsection>) {
    && (forall j {:trigger list[j]} :: 0 <= j < |list| ==>
          var bodies := BodiesUnder(subsections, list[j].title); AreBodies(bodies) && Texts(list[j].lines) == Joined(bodies))
    && (forall t {:trigger HasCategory(list, t)} :: HasCategory(list, t) <==> BodiesUnder(subsections, t) != [])
  }

  lemma AppendedBody(target: seq<NumberedLine>, body: seq<string>)
    requires Texts(target) != [] && Trimmed(Texts(target)) && body != [] && Trimmed(body)
    ensures Texts(Appended(target, body)) == Texts(target) + Separator(Texts(target), body) + body
  {
    hide Separator, TrimBlank, Trimmed;
    TrimOfTrimmed(body);
    TrimOfTrimmed(Texts(target));
    var all := Texts(target) + Separator(Texts(target), body) + body;
    assert Texts(Synthetic(all)) == all;
  }

  lemma SnocBodies(subsections: seq<Subsection>, title: string)
    requires subsections != []
    ensures var s := subsections[|subsections| - 1];
      var before := BodiesUnder(subsections[..|subsections| - 1], title);
      BodiesUnder(subsections, title) == if s.title == title && CompactBody(s) != [] then before + [CompactBody(s)] else before
  {
    hide CompactBody;
  }

  /** A category of the same title before: its lines get the new body appended. */
  lemma GrownBody(subsections: seq<Subsection>, k: nat)
    requires subsections != []
    requires var n := |subsections| - 1;
      && CompactBody(subsections[n]) != [] && JoinsBodies(MergeAll(subsections[..n]), subsections[..n])
      && k < |MergeAll(subsections[..n])| && MergeAll(subsections[..n])[k].title == subsections[n].title
    ensures var n := |subsections| - 1;
      Texts(Appended(MergeAll(subsections[..n])[k].lines, CompactBody(subsections[n])))
        == Joined(BodiesUnder(subsections, subsections[n].title))
  {
    hide CompactBody, Appended, Separator, IsBody, Trimmed, MergeAll, BodiesUnder, LeavesGap, HasCategory;
    var n := |subsections| - 1;
    var list, s, body := MergeAll(subsections[..n]), subsections[n], CompactBody(subsections[n]);
    var before := BodiesUnder(subsections[..n], s.title);
    SnocBodies(subsections, s.title);
    HasAt(list, k);
    BodiesAre(subsections[..n], s.title);
    JoinedEnds(before);
    CompactBodyIsBody(s);
    assert Texts(list[k].lines) == Joined(before);
    BodyIsTrimmed(body);
    AppendedBody(list[k].lines, body);
    assert (before + [body])[..|before|] == before;
  }

  lemma BodyIsTrimmed(body: seq<string>)
    requires IsBody(body)
    ensures Trimmed(body) && body != []
  {
  }

  /** The joining of the merged category `j` after one more category. */
  lemma MergedBody(subsections: seq<Subsection>, j: nat)
    requires subsections != [] && j < |MergeAll(subsections)|
    requires JoinsBodies(MergeAll(subsections[..|subsections| - 1]), subsections[..|subsections| - 1])
    ensures var bodies := BodiesUnder(subsections, MergeAll(subsections)[j].title);
            AreBodies(bodies) && Texts(MergeAll(subsections)[j].lines) == Joined(bodies)
  {
    hide CompactBody, Appended, IsBody, HasCategory, BodiesUnder, Joined, AreBodies;
    var n := |subsections| - 1;
    var init, s := subsections[..n], subsections[n];
    var list, next, body := MergeAll(init), MergeAll(subsections), CompactBody(s);
    var title := next[j].title;
    assert next == MergeOne(list, s);
    MergedAreUnique(init);
    BodiesAre(subsections, title);
    SnocBodies(subsections, title);
    if body != [] && title == s.title {
      if IndexOf(list, s.title) < |list| {
        IndexOnly(next, list, s, j);
        GrownBody(subsections, j);
      } else {
        MissingHasNone(list, s.title);
        assert BodiesUnder(init, title) == [];
        assert BodiesUnder(subsections, title) == [body];
        assert j == |list|;
        assert Texts(Synthetic(body)) == body;
        JoinedOne(body);
      }
    } else {
      assert j < |list| && next[j] == list[j];
    }
  }

  lemma JoinedOne(body: seq<string>)
    ensures Joined([body]) == body
  {
    assert [body][..0] == [] && [] + body == body;
  }

  lemma IndexOnly(next: seq<Subsection>, list: seq<Subsection>, s: Subsection, j: nat)
    requires UniqueTitles(list) && next == MergeOne(list, s) && CompactBody(s) != []
    requires IndexOf(list, s.title) < |list| && j < |next| && next[j].title == s.title
    ensures j == IndexOf(list, s.title)
  {
    hide CompactBody, Appended;
    assert list[j].title == s.title;
    IndexFound(list, j);
  }

  lemma MissingHasNone(list: seq<Subsection>, title: string)
    requires IndexOf(list, title) == |list|
    ensures !HasCategory(list, title)
  {
  }

  lemma {:induction false} MergeJoinsBodies(subsections: seq<Subsection>)
    ensures JoinsBodies(MergeAll(subsections), subsections)
  {
    hide MergeOne, CompactBody, IsBody, HasCategory, Joined;
    if subsections == [] {
      NothingJoined();
    } else {
      var n := |subsections| - 1;
      var list, s, next := MergeAll(subsections[..n]), subsections[n], MergeAll(subsections);
      MergeJoinsBodies(subsections[..n]);
      forall t ensures HasCategory(next, t) <==> BodiesUnder(subsections, t) != [] {
        MergedTitles(list, s, t);
      }
      forall j | 0 <= j < |next|
        ensures AreBodies(BodiesUnder(subsections, next[j].title))
        ensures Texts(next[j].lines) == Joined(BodiesUnder(subsections, next[j].title))
      {
        MergedBody(subsections, j);
      }
    }
  }

  lemma NothingJoined()
    ensures JoinsBodies([], [])
  {
  }

  // ---- merging twice ----

  lemma SettledMeansClean(subsections: seq<Subsection>)
    ensures AllSettled(MergeAll(subsections)) <==> MergesCleanly(subsections)
  {
    hide MergeAll, BodiesUnder, Settled, JoinsCleanly, Joined, IsBody;
    var list := MergeAll(subsections);
    MergeJoinsBodies(subsections);
    forall j | 0 <= j < |list|
      ensures Settled(Texts(list[j].lines)) <==> JoinsCleanly(BodiesUnder(subsections, list[j].title))
    {
      JoinedSettles(BodiesUnder(subsections, list[j].title));
    }
    if AllSettled(list) {
      forall t ensures JoinsCleanly(BodiesUnder(subsections, t)) {
        if BodiesUnder(subsections, t) == [] {
          NothingIsClean();
        } else {
          assert HasCategory(list, t);
          var j :| 0 <= j < |list| && list[j].title == t;
          assert Settled(Texts(list[j].lines));
        }
      }
    }
  }

  lemma NothingIsClean()
    ensures JoinsCleanly([])
  {
  }

  /** Merging a second time changes nothing exactly if the bodies of every title join cleanly. */
  lemma MergeTwice(subsections: seq<Subsection>)
    ensures MergeAll(MergeAll(subsections)) == MergeAll(subsections) <==> MergesCleanly(subsections)
  {
    hide AllCleanBodied, UniqueTitles, AllSettled, MergeAll, MergesCleanly;
    MergedAreUnique(subsections);
    MergedAreClean(subsections);
    MergeIsSame(MergeAll(subsections));
    SettledMeansClean(subsections);
  }

  /** Without repeated titles, merging a second time changes nothing. */
  lemma MergeTwiceWithoutRepeats(subsections: seq<Subsection>)
    requires UniqueTitles(subsections)
    ensures MergeAll(MergeAll(subsections)) == MergeAll(subsections)
  {
    hide AllSettled, UniqueTitles, MergeAll, MergesCleanly;
    UniqueMerge(subsections);
    SettledMeansClean(subsections);
    MergeTwice(subsections);
  }

  lemma TwoLines(title: string, a: string, b: string)
    requires IsListItem(a) && !IsListItem(b) && !Blank(b)
    ensures CompactBody(Subsection(title, Synthetic([a, b]))) == [a, b]
  {
    hide IsListItem, Blank, Compact, TrimBlank;
    FirstIsNotBlank(a);
    TrimOfTrimmed([a, b]);
    assert Texts(Synthetic([a, b])) == [a, b];
    CompactIsStable([a, b]);
  }

  lemma SingleLine(title: string, c: string)
    requires IsListItem(c)
    ensures CompactBody(Subsection(title, Synthetic([c]))) == [c]
  {
    hide IsListItem, Blank, Compact, TrimBlank;
    FirstIsNotBlank(c);
    TrimOfTrimmed([c]);
    assert Texts(Synthetic([c])) == [c];
    CompactIsStable([c]);
  }

  /** An item of two lines and a repeated category after it: the empty line the first pass puts in, the second takes out. */
  lemma RepeatsTakeTwoPasses(title: string, a: string, b: string, c: string)
    requires IsListItem(a) && !IsListItem(b) && !Blank(b) && IsListItem(c)
    ensures var subsections := [Subsection(title, Synthetic([a, b])), Subsection(title, Synthetic([c]))];
            && MergeAll(subsections) == [Subsection(title, Synthetic([a, b, "", c]))]
            && MergeAll(MergeAll(subsections)) != MergeAll(subsections)
  {
    hide IsListItem, Blank, CompactBody, TrimBlank, MergesCleanly;
    var first, second := Subsection(title, Synthetic([a, b])), Subsection(title, Synthetic([c]));
    var subsections := [first, second];
    TwoLines(title, a, b);
    SingleLine(title, c);
    FirstIsNotBlank(a);
    FirstIsNotBlank(c);
    TrimOfTrimmed([a, b]);
    TrimOfTrimmed([c]);
    assert Texts(Synthetic([a, b])) == [a, b];
    assert subsections[..1] == [first] && [first][..0] == [];
    assert MergeAll([first]) == [first];
    assert Appended(first.lines, [c]) == Synthetic([a, b, "", c]);
    var merged := [Subsection(title, Synthetic([a, b, "", c]))];
    assert MergeAll(subsections) == merged;
    PlainLine();
    var body := Texts(merged[0].lines);
    assert body == [a, b, "", c];
    assert IsListItem(body[3]) && Blank(body[2]);
    assert GapBeforeItem(body) && !Settled(body);
    SettledMeansClean(subsections);
    MergeTwice(subsections);
  }

  lemma OrderedSettles(list: seq<Subsection>)
    ensures AllSettled(InOrder(list)) <==> AllSettled(list)
  {
    hide Settled, InOrder;
    var sorted := InOrder(list);
    if AllSettled(list) {
      forall j | 0 <= j < |sorted| ensures Settled(Texts(sorted[j].lines)) {
        var k := FromInOrder(list, j);
      }
    }
    if AllSettled(sorted) {
      forall k | 0 <= k < |list| ensures Settled(Texts(list[k].lines)) {
        assert list[k] in multiset(sorted);
        var j :| 0 <= j < |sorted| && sorted[j] == list[k];
      }
    }
  }
}
