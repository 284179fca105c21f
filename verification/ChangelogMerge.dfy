/** Normalising a release: categories of the same title become one, empty ones go, and those of Unreleased are put in order. */
module ChangelogMerge {
  import opened ChangelogText
  import opened ChangelogDocument
  import opened ChangelogItems
  import opened ChangelogEditing
  import opened ChangelogRoundTrip

  // ---- merging ----

  function IndexOf(list: seq<Subsection>, title: string): (j: nat)
    ensures j <= |list| && (j < |list| ==> list[j].title == title)
    ensures forall i :: 0 <= i < j ==> list[i].title != title
  {
    if list == [] || list[0].title == title then 0 else 1 + IndexOf(list[1..], title)
  }

  function CompactBody(s: Subsection): seq<string> {
    Compact(TrimBlank(Texts(s.lines)))
  }

  function MergeOne(list: seq<Subsection>, s: Subsection): seq<Subsection> {
    var body := CompactBody(s);
    var j := IndexOf(list, s.title);
    if body == [] then list
    else if j < |list| then list[j := Subsection(s.title, Appended(list[j].lines, body))]
    else list + [Subsection(s.title, Synthetic(body))]
  }

  function MergeAll(subsections: seq<Subsection>): seq<Subsection> {
    if subsections == [] then []
    else MergeOne(MergeAll(subsections[..|subsections| - 1]), subsections[|subsections| - 1])
  }

  const ORDERED_TITLES := ["Breaking Changes", "Added", "Changed", "Fixed", "Removed"]

  function TitleIndex(titles: seq<string>, title: string): nat {
    if titles == [] || titles[0] == title then 0 else 1 + TitleIndex(titles[1..], title)
  }

  /** The first place of the title, or one past the last if it is not there. */
  lemma {:induction false} TitleIndexIs(titles: seq<string>, title: string)
    ensures var k := TitleIndex(titles, title);
      && k <= |titles| && title !in titles[..k] && (k < |titles| ==> titles[k] == title)
  {
    if titles != [] && titles[0] != title {
      TitleIndexIs(titles[1..], title);
      var k := TitleIndex(titles[1..], title);
      assert titles[..k + 1] == [titles[0]] + titles[1..][..k];
    }
  }

  function TitleOrder(title: string): nat {
    TitleIndex(ORDERED_TITLES, title)
  }

  function Place(s: Subsection, list: seq<Subsection>): (r: seq<Subsection>)
    ensures multiset(r) == multiset(list) + multiset{s}
  {
    if list == [] || TitleOrder(s.title) < TitleOrder(list[0].title) then [s] + list
    else
      assert list == [list[0]] + list[1..];
      [list[0]] + Place(s, list[1..])
  }

  /** The stable sort by the place of the title in the list of known titles. */
  function InOrder(list: seq<Subsection>): (r: seq<Subsection>)
    ensures multiset(r) == multiset(list)
  {
    if list == [] then []
    else
      assert list == list[..|list| - 1] + [list[|list| - 1]];
      Place(list[|list| - 1], InOrder(list[..|list| - 1]))
  }

  function Normalized(section: Section): Section {
    var merged := MergeAll(section.subsections);
    Section(section.heading, section.title, CleanLines(section.leadingLines),
            if section.title == "Unreleased" then InOrder(merged) else merged)
  }

  ghost predicate UniqueTitles(list: seq<Subsection>) {
    forall i, j {:trigger list[i].title, list[j].title} :: 0 <= i < j < |list| ==> list[i].title != list[j].title
  }

  ghost predicate IsIndex(byTitle: map<string, nat>, list: seq<Subsection>) {
    && (forall t {:trigger t in byTitle} :: t in byTitle ==> byTitle[t] < |list| && list[byTitle[t]].title == t)
    && (forall j {:trigger list[j]} :: 0 <= j < |list| ==> list[j].title in byTitle)
  }

  lemma IndexFound(list: seq<Subsection>, j: nat)
    requires UniqueTitles(list) && j < |list|
    ensures IndexOf(list, list[j].title) == j
  {
  }

  lemma IndexMissing(list: seq<Subsection>, title: string)
    requires forall j {:trigger list[j]} :: 0 <= j < |list| ==> list[j].title != title
    ensures IndexOf(list, title) == |list|
  {
  }

  lemma MergeOneUnique(list: seq<Subsection>, s: Subsection)
    requires UniqueTitles(list)
    ensures UniqueTitles(MergeOne(list, s))
  {
    hide CompactBody, Appended;
  }

  lemma {:induction false} MergedAreUnique(subsections: seq<Subsection>)
    ensures UniqueTitles(MergeAll(subsections))
  {
    hide MergeOne;
    if subsections != [] {
      MergedAreUnique(subsections[..|subsections| - 1]);
      MergeOneUnique(MergeAll(subsections[..|subsections| - 1]), subsections[|subsections| - 1]);
    }
  }

  method MergeSubsection(list0: seq<Subsection>, byTitle0: map<string, nat>, s: Subsection)
    returns (list: seq<Subsection>, byTitle: map<string, nat>, merged: nat, removed: nat)
    requires UniqueTitles(list0) && IsIndex(byTitle0, list0)
    ensures list == MergeOne(list0, s) && IsIndex(byTitle, list)
    ensures merged == (if CompactBody(s) != [] && |list| == |list0| then 1 else 0)
    ensures removed == (if CompactBody(s) == [] then 1 else 0)
  {
    hide TrimBlank, Compact, Appended;
    list, byTitle, merged, removed := list0, byTitle0, 0, 0;
    var trimmed := TrimBlankLines(Texts(s.lines));
    var body := CompactAdjacentListSpacing(trimmed);
    if |body| == 0 {
      removed := 1;
      return;
    }
    if s.title in byTitle {
      var j := byTitle[s.title];
      IndexFound(list, j);
      list := list[j := Subsection(s.title, Appended(list[j].lines, body))];
      merged := 1;
      return;
    }
    IndexMissing(list, s.title);
    byTitle := byTitle[s.title := |list|];
    list := list + [Subsection(s.title, Synthetic(body))];
  }

  method NormalizeSection(section: Section) returns (r: Section, merged: nat, removed: nat)
    ensures r == Normalized(section)
    ensures |MergeAll(section.subsections)| + merged + removed == |section.subsections|
  {
    hide MergeOne, CompactBody, InOrder, TrimBlank;
    var list: seq<Subsection>, byTitle: map<string, nat> := [], map[];
    merged, removed := 0, 0;
    var subsections := section.subsections;
    for i := 0 to |subsections|
      invariant list == MergeAll(subsections[..i]) && IsIndex(byTitle, list)
      invariant |list| + merged + removed == i
    {
      assert subsections[..i + 1][..i] == subsections[..i];
      MergedAreUnique(subsections[..i]);
      ghost var before := list;
      var m, e;
      list, byTitle, m, e := MergeSubsection(list, byTitle, subsections[i]);
      MergeOneLength(before, subsections[i]);
      merged, removed := merged + m, removed + e;
    }
    assert subsections[..|subsections|] == subsections;
    if section.title == "Unreleased" {
      list := InOrder(list);
    }
    var leading := TrimBlankLines(Texts(section.leadingLines));
    r := Section(section.heading, section.title, Synthetic(leading), list);
  }

  lemma MergeOneLength(list: seq<Subsection>, s: Subsection)
    ensures |MergeOne(list, s)| == |list| + (if CompactBody(s) != [] && IndexOf(list, s.title) == |list| then 1 else 0)
  {
    hide CompactBody, Appended, IndexOf;
  }

  // ---- nothing is lost ----

  /** The lines of all categories of a title, blank ones left out, in order. */
  ghost function LinesUnder(subsections: seq<Subsection>, title: string): seq<string> {
    if subsections == [] then []
    else
      var s := subsections[|subsections| - 1];
      LinesUnder(subsections[..|subsections| - 1], title) + if s.title == title then NonBlank(Texts(s.lines)) else []
  }

  /** The items of all categories of a title, in order. */
  ghost function ItemsUnder(subsections: seq<Subsection>, title: string): seq<seq<string>> {
    if subsections == [] then []
    else
      var s := subsections[|subsections| - 1];
      ItemsUnder(subsections[..|subsections| - 1], title) + if s.title == title then ItemTexts(Texts(s.lines)) else []
  }

  ghost predicate HasCategory(list: seq<Subsection>, title: string) {
    exists j :: 0 <= j < |list| && list[j].title == title
  }

  /** Each title comes once, with all the lines it had, and no title with lines is missing. */
  ghost predicate Gathers(list: seq<Subsection>, subsections: seq<Subsection>) {
    && (forall j {:trigger list[j]} :: 0 <= j < |list| ==> NonBlank(Texts(list[j].lines)) == LinesUnder(subsections, list[j].title))
    && (forall t {:trigger HasCategory(list, t)} :: HasCategory(list, t) <==> LinesUnder(subsections, t) != [])
  }

  lemma {:induction false} NonBlankEmpty(lines: seq<string>)
    ensures NonBlank(lines) == [] <==> TrimBlank(lines) == []
  {
    hide Blank, TrimBlank, AllBlank, NonBlank;
    var before, after := TrimParts(lines);
    NonBlankOfTrimmed(lines);
    var core := TrimBlank(lines);
    if core == [] {
      NothingFlat();
    } else {
      assert core == core + [];
      NonBlankLength(core, []);
    }
  }

  lemma BodyLines(s: Subsection)
    ensures NonBlank(CompactBody(s)) == NonBlank(Texts(s.lines))
    ensures CompactBody(s) == [] <==> NonBlank(Texts(s.lines)) == []
    ensures ItemTexts(CompactBody(s)) == ItemTexts(Texts(s.lines))
    ensures Trimmed(CompactBody(s))
  {
    hide TrimBlank, Compact, NonBlank, Trimmed, ItemTexts;
    var trimmed := TrimBlank(Texts(s.lines));
    CompactKeepsLines(trimmed);
    NonBlankOfTrimmed(Texts(s.lines));
    CompactKeepsItems(trimmed);
    ItemsOfTrimmed(Texts(s.lines));
    TrimOfTrimmed(CompactBody(s));
    NonBlankEmpty(CompactBody(s));
  }

  lemma MergedTitles(list: seq<Subsection>, s: Subsection, t: string)
    ensures HasCategory(MergeOne(list, s), t) <==> HasCategory(list, t) || (t == s.title && CompactBody(s) != [])
  {
    hide CompactBody, Appended;
    var next := MergeOne(list, s);
    if HasCategory(list, t) {
      var j :| 0 <= j < |list| && list[j].title == t;
      assert next[j].title == t;
    }
    if t == s.title && CompactBody(s) != [] {
      var j := IndexOf(list, s.title);
      assert next[j].title == t;
    }
    if HasCategory(next, t) {
      var j :| 0 <= j < |next| && next[j].title == t;
      assert j < |list| ==> list[j].title == t;
    }
  }

  lemma MergedLines(list: seq<Subsection>, s: Subsection, j: nat)
    requires UniqueTitles(list) && j < |MergeOne(list, s)|
    ensures NonBlank(Texts(MergeOne(list, s)[j].lines))
         == (if j < |list| then NonBlank(Texts(list[j].lines)) else [])
            + (if MergeOne(list, s)[j].title == s.title then NonBlank(Texts(s.lines)) else [])
    ensures j >= |list| ==> !HasCategory(list, MergeOne(list, s)[j].title)
    ensures j < |list| ==> MergeOne(list, s)[j].title == list[j].title
  {
    hide CompactBody, Appended, NonBlank, ItemTexts, Trimmed;
    BodyLines(s);
    var body, k := CompactBody(s), IndexOf(list, s.title);
    if j < |list| && list[j].title == s.title {
      IndexFound(list, j);
      AppendedKeepsLines(list[j].lines, body);
    }
    assert Texts(Synthetic(body)) == body;
  }

  lemma {:induction false} MergeGathers(subsections: seq<Subsection>)
    ensures Gathers(MergeAll(subsections), subsections)
  {
    hide MergeOne, CompactBody, NonBlank, UniqueTitles, HasCategory;
    var next := MergeAll(subsections);
    if subsections == [] {
      NothingGathered();
    } else {
      var n := |subsections| - 1;
      var list, s := MergeAll(subsections[..n]), subsections[n];
      MergeGathers(subsections[..n]);
      MergedAreUnique(subsections[..n]);
      BodyLines(s);
      forall t ensures HasCategory(next, t) <==> LinesUnder(subsections, t) != [] {
        MergedTitles(list, s, t);
      }
      forall j | 0 <= j < |next| ensures NonBlank(Texts(next[j].lines)) == LinesUnder(subsections, next[j].title) {
        MergedLines(list, s, j);
        if j >= |list| {
          assert LinesUnder(subsections[..n], next[j].title) == [];
        }
      }
    }
  }

  lemma NothingGathered()
    ensures Gathers([], [])
  {
  }

  // ---- items ----

  /** A category whose title came before begins with an item. */
  ghost predicate RepeatsStartWithItem(subsections: seq<Subsection>) {
    forall h, i {:trigger subsections[h], subsections[i]} ::
      0 <= h < i < |subsections| && subsections[h].title == subsections[i].title
      ==> StartsWithItem(CompactBody(subsections[i]))
  }

  ghost predicate GathersItems(list: seq<Subsection>, subsections: seq<Subsection>) {
    && (forall j {:trigger list[j]} :: 0 <= j < |list| ==> ItemTexts(Texts(list[j].lines)) == ItemsUnder(subsections, list[j].title))
    && (forall t {:trigger HasCategory(list, t)} :: !HasCategory(list, t) ==> ItemsUnder(subsections, t) == [])
  }

  lemma MergedItems(list: seq<Subsection>, s: Subsection, j: nat)
    requires UniqueTitles(list) && j < |MergeOne(list, s)|
    requires HasCategory(list, s.title) ==> StartsWithItem(CompactBody(s))
    ensures ItemTexts(Texts(MergeOne(list, s)[j].lines))
         == (if j < |list| then ItemTexts(Texts(list[j].lines)) else [])
            + (if MergeOne(list, s)[j].title == s.title then ItemTexts(Texts(s.lines)) else [])
  {
    hide CompactBody, Appended, ItemTexts, StartsWithItem, NonBlank, TrimBlank;
    BodyLines(s);
    var body, k := CompactBody(s), IndexOf(list, s.title);
    NothingToParse();
    if j < |list| && list[j].title == s.title {
      IndexFound(list, j);
      TrimOfTrimmed(body);
      AppendedItems(list[j].lines, body);
    }
    assert Texts(Synthetic(body)) == body;
  }

  lemma LaterOfTitle(subsections: seq<Subsection>, title: string)
    requires LinesUnder(subsections, title) != [] || ItemsUnder(subsections, title) != []
    ensures HasCategory(subsections, title)
  {
    hide NonBlank, ItemTexts;
    if subsections != [] {
      var n := |subsections| - 1;
      if subsections[n].title != title {
        LaterOfTitle(subsections[..n], title);
        var j :| 0 <= j < n && subsections[..n][j].title == title;
        assert subsections[j].title == title;
      }
    }
  }

  lemma PrefixRepeats(subsections: seq<Subsection>, n: nat)
    requires RepeatsStartWithItem(subsections) && n <= |subsections|
    ensures RepeatsStartWithItem(subsections[..n])
  {
    hide CompactBody, StartsWithItem;
    forall h, i | 0 <= h < i < n && subsections[..n][h].title == subsections[..n][i].title
      ensures StartsWithItem(CompactBody(subsections[..n][i]))
    {
      assert subsections[h].title == subsections[i].title;
    }
  }

  lemma RepeatedStarts(subsections: seq<Subsection>)
    requires RepeatsStartWithItem(subsections) && subsections != []
    requires HasCategory(subsections[..|subsections| - 1], subsections[|subsections| - 1].title)
    ensures StartsWithItem(CompactBody(subsections[|subsections| - 1]))
  {
    hide CompactBody, StartsWithItem;
    var n := |subsections| - 1;
    var h :| 0 <= h < n && subsections[..n][h].title == subsections[n].title;
    assert subsections[h].title == subsections[n].title;
  }

  /** If repeated categories begin with an item, each title keeps exactly its items, in order. */
  lemma {:induction false} MergeGathersItems(subsections: seq<Subsection>)
    requires RepeatsStartWithItem(subsections)
    ensures GathersItems(MergeAll(subsections), subsections)
  {
    hide MergeOne, CompactBody, ItemTexts, UniqueTitles, HasCategory, NonBlank, LinesUnder, RepeatsStartWithItem, StartsWithItem;
    var next := MergeAll(subsections);
    if subsections == [] {
      NoItemsGathered();
    } else {
      var n := |subsections| - 1;
      var list, s := MergeAll(subsections[..n]), subsections[n];
      PrefixRepeats(subsections, n);
      MergeGathersItems(subsections[..n]);
      MergeGathers(subsections[..n]);
      MergedAreUnique(subsections[..n]);
      BodyLines(s);
      if HasCategory(list, s.title) {
        LaterOfTitle(subsections[..n], s.title);
        RepeatedStarts(subsections);
      }
      NothingToParse();
      forall t | !HasCategory(next, t) ensures ItemsUnder(subsections, t) == [] {
        MergedTitles(list, s, t);
      }
      forall j | 0 <= j < |next| ensures ItemTexts(Texts(next[j].lines)) == ItemsUnder(subsections, next[j].title) {
        MergedItems(list, s, j);
        MergedLines(list, s, j);
      }
    }
  }

  lemma NoItemsGathered()
    ensures GathersItems([], [])
  {
  }

  // ---- normalising twice ----

  /** The body has lines, none blank at its ends, and no line numbers. */
  ghost predicate CleanBodied(s: Subsection) {
    Texts(s.lines) != [] && Trimmed(Texts(s.lines)) && s.lines == Synthetic(Texts(s.lines))
  }

  ghost predicate AllCleanBodied(list: seq<Subsection>) {
    forall j {:trigger CleanBodied(list[j])} :: 0 <= j < |list| ==> CleanBodied(list[j])
  }

  lemma SyntheticBody(title: string, body: seq<string>)
    requires body != [] && Trimmed(body)
    ensures CleanBodied(Subsection(title, Synthetic(body)))
  {
    assert Texts(Synthetic(body)) == body;
  }

  lemma AppendedIsClean(title: string, target: seq<NumberedLine>, source: seq<string>)
    requires Trimmed(source) && source != []
    ensures CleanBodied(Subsection(title, Appended(target, source)))
  {
    hide Separator, TrimBlank, Blank;
    var existing := Body(target);
    TrimmedBody(target);
    TrimOfTrimmed(source);
    if existing == [] {
      SyntheticBody(title, source);
    } else {
      var all := existing + Separator(existing, source) + source;
      assert all[0] == existing[0] && all[|all| - 1] == source[|source| - 1];
      SyntheticBody(title, all);
    }
  }

  lemma {:induction false} MergedAreClean(subsections: seq<Subsection>)
    ensures AllCleanBodied(MergeAll(subsections))
  {
    hide CleanBodied, CompactBody, NonBlank, ItemTexts, Appended;
    if subsections != [] {
      var n := |subsections| - 1;
      MergedAreClean(subsections[..n]);
      var list, s := MergeAll(subsections[..n]), subsections[n];
      BodyLines(s);
      if CompactBody(s) != [] {
        SyntheticBody(s.title, CompactBody(s));
        var j := IndexOf(list, s.title);
        if j < |list| {
          AppendedIsClean(s.title, list[j].lines, CompactBody(s));
        }
      }
    }
  }

  lemma CleanCompactBody(s: Subsection)
    requires CleanBodied(s)
    ensures CompactBody(s) == Compact(Texts(s.lines)) && CompactBody(s) != []
  {
    hide Blank, TrimBlank, Compact, NonBlank, ItemTexts;
    TrimOfTrimmed(Texts(s.lines));
    BodyLines(s);
    NonBlankEmpty(Texts(s.lines));
  }

  function CompactOne(s: Subsection): Subsection {
    Subsection(s.title, Synthetic(CompactBody(s)))
  }

  lemma MergeNew(list: seq<Subsection>, s: Subsection)
    requires CompactBody(s) != [] && forall j {:trigger list[j]} :: 0 <= j < |list| ==> list[j].title != s.title
    ensures MergeOne(list, s) == list + [CompactOne(s)]
  {
    hide CompactBody, Appended;
    IndexMissing(list, s.title);
  }

  lemma InitUnique(list: seq<Subsection>)
    requires UniqueTitles(list) && AllCleanBodied(list) && list != []
    ensures UniqueTitles(list[..|list| - 1]) && AllCleanBodied(list[..|list| - 1]) && CleanBodied(list[|list| - 1])
  {
    hide CleanBodied;
    var init := list[..|list| - 1];
    forall i, j | 0 <= i < j < |init| ensures init[i].title != init[j].title {
      assert list[i].title != list[j].title;
    }
    forall j | 0 <= j < |init| ensures CleanBodied(init[j]) {
      assert CleanBodied(list[j]);
    }
    assert CleanBodied(list[|list| - 1]);
  }

  /** Categories of different titles are each compacted on their own. */
  lemma {:induction false} MergeOfUnique(list: seq<Subsection>)
    requires UniqueTitles(list) && AllCleanBodied(list)
    ensures |MergeAll(list)| == |list|
    ensures forall j {:trigger MergeAll(list)[j]} :: 0 <= j < |list| ==> MergeAll(list)[j] == CompactOne(list[j])
  {
    hide CleanBodied, CompactBody, MergeOne, AllCleanBodied;
    if list != [] {
      var n := |list| - 1;
      InitUnique(list);
      MergeOfUnique(list[..n]);
      CleanCompactBody(list[n]);
      forall j | 0 <= j < n ensures MergeAll(list[..n])[j].title != list[n].title {
        assert list[j].title != list[n].title;
      }
      MergeNew(MergeAll(list[..n]), list[n]);
    }
  }

  /** The body does not begin with an item, or no item of it follows a blank line. */
  predicate Settled(lines: seq<string>) {
    lines == [] || !IsListItem(lines[0]) || !GapBeforeItem(lines)
  }

  ghost predicate AllSettled(list: seq<Subsection>) {
    forall j {:trigger list[j]} :: 0 <= j < |list| ==> Settled(Texts(list[j].lines))
  }

  lemma SettledBody(s: Subsection)
    requires CleanBodied(s)
    ensures CompactOne(s) == s <==> Settled(Texts(s.lines))
  {
    hide Compact, Trimmed, IsListItem, GapBeforeItem, CompactBody;
    CleanCompactBody(s);
    CompactIsStable(Texts(s.lines));
    assert Texts(Synthetic(CompactBody(s))) == CompactBody(s);
  }

  lemma MergeIsSame(list: seq<Subsection>)
    requires UniqueTitles(list) && AllCleanBodied(list)
    ensures MergeAll(list) == list <==> AllSettled(list)
  {
    hide CleanBodied, CompactBody, MergeAll, Settled, UniqueTitles;
    MergeOfUnique(list);
    forall j | 0 <= j < |list| ensures MergeAll(list)[j] == list[j] <==> Settled(Texts(list[j].lines)) {
      assert CleanBodied(list[j]);
      SettledBody(list[j]);
    }
    if AllSettled(list) {
      assert forall j :: 0 <= j < |list| ==> MergeAll(list)[j] == list[j];
    }
  }

  lemma CompactBodyIsSettled(s: Subsection)
    ensures Settled(CompactBody(s))
  {
    hide Compact, TrimBlank, Trimmed, GapBeforeItem, IsListItem, NonBlank, ItemTexts;
    var trimmed := TrimBlank(Texts(s.lines));
    CompactTwice(trimmed);
    CompactKeepsItems(trimmed);
    CompactIsStable(CompactBody(s));
  }

  lemma {:induction false} UniqueMerge(subsections: seq<Subsection>)
    requires UniqueTitles(subsections)
    ensures AllSettled(MergeAll(subsections))
    ensures forall t {:trigger HasCategory(MergeAll(subsections), t)} ::
              HasCategory(MergeAll(subsections), t) ==> HasCategory(subsections, t)
  {
    hide CompactBody, Settled, Appended, LinesUnder;
    if subsections != [] {
      var n := |subsections| - 1;
      var init, s := subsections[..n], subsections[n];
      assert forall i, j :: 0 <= i < j < n ==> init[i].title == subsections[i].title && init[j].title == subsections[j].title;
      UniqueMerge(init);
      var list := MergeAll(init);
      CompactBodyIsSettled(s);
      assert Texts(Synthetic(CompactBody(s))) == CompactBody(s);
      forall t | HasCategory(list, t) ensures HasCategory(subsections, t) && t != s.title {
        assert HasCategory(init, t);
        var j :| 0 <= j < n && init[j].title == t;
        assert subsections[j].title == t;
      }
      forall j | 0 <= j < |list| ensures list[j].title != s.title {
        assert HasCategory(list, list[j].title);
      }
      IndexMissing(list, s.title);
      assert HasCategory(subsections, s.title);
      forall t | HasCategory(MergeAll(subsections), t) ensures HasCategory(subsections, t) {
        MergedTitles(list, s, t);
      }
    }
  }

  // ---- the order of Unreleased ----

  predicate NotAfter(a: Subsection, b: Subsection) {
    TitleOrder(a.title) <= TitleOrder(b.title)
  }

  ghost predicate TitlesOrdered(list: seq<Subsection>) {
    forall i, j {:trigger NotAfter(list[i], list[j])} :: 0 <= i < j < |list| ==> NotAfter(list[i], list[j])
  }

  ghost predicate AllNotAfter(list: seq<Subsection>, s: Subsection) {
    forall j {:trigger NotAfter(list[j], s)} :: 0 <= j < |list| ==> NotAfter(list[j], s)
  }

  lemma {:induction false} PlaceAtEnd(s: Subsection, list: seq<Subsection>)
    requires AllNotAfter(list, s)
    ensures Place(s, list) == list + [s]
  {
    hide TitleOrder;
    if list != [] {
      assert NotAfter(list[0], s);
      forall j | 0 <= j < |list[1..]| ensures NotAfter(list[1..][j], s) {
        assert NotAfter(list[j + 1], s);
      }
      PlaceAtEnd(s, list[1..]);
    }
  }

  lemma TailOrdered(list: seq<Subsection>)
    requires TitlesOrdered(list) && list != []
    ensures TitlesOrdered(list[1..])
  {
    hide NotAfter;
    forall i, j | 0 <= i < j < |list[1..]| ensures NotAfter(list[1..][i], list[1..][j]) {
      assert NotAfter(list[i + 1], list[j + 1]);
    }
  }

  lemma ConsOrdered(s: Subsection, list: seq<Subsection>)
    requires TitlesOrdered(list) && forall j {:trigger list[j]} :: 0 <= j < |list| ==> NotAfter(s, list[j])
    ensures TitlesOrdered([s] + list)
  {
    hide NotAfter;
    var all := [s] + list;
    forall i, j | 0 <= i < j < |all| ensures NotAfter(all[i], all[j]) {
      assert i > 0 ==> NotAfter(list[i - 1], list[j - 1]);
    }
  }

  lemma {:induction false} PlaceKeepsOrder(s: Subsection, list: seq<Subsection>)
    requires TitlesOrdered(list)
    ensures TitlesOrdered(Place(s, list))
  {
    hide TitleOrder, TitlesOrdered;
    if list == [] || TitleOrder(s.title) < TitleOrder(list[0].title) {
      FirstOrdered(list);
      ConsOrdered(s, list);
    } else {
      TailOrdered(list);
      PlaceKeepsOrder(s, list[1..]);
      var rest := Place(s, list[1..]);
      FirstOrdered(list);
      forall j | 0 <= j < |rest| ensures NotAfter(list[0], rest[j]) {
        assert rest[j] in multiset(rest);
        if rest[j] != s {
          var k :| 0 <= k < |list[1..]| && list[1..][k] == rest[j];
          assert rest[j] == list[k + 1];
        }
      }
      ConsOrdered(list[0], rest);
    }
  }

  lemma FirstOrdered(list: seq<Subsection>)
    requires TitlesOrdered(list)
    ensures forall j {:trigger list[j]} :: 0 <= j < |list| ==> NotAfter(list[0], list[j])
  {
    hide TitleOrder;
    assert forall j :: 0 < j < |list| ==> NotAfter(list[0], list[j]);
  }

  lemma {:induction false} SortingOrders(list: seq<Subsection>)
    ensures TitlesOrdered(InOrder(list))
  {
    hide NotAfter, Place;
    if list != [] {
      var n := |list| - 1;
      SortingOrders(list[..n]);
      PlaceKeepsOrder(list[n], InOrder(list[..n]));
    }
  }

  lemma {:induction false} SortingOrdered(list: seq<Subsection>)
    requires TitlesOrdered(list)
    ensures InOrder(list) == list
  {
    hide NotAfter, Place;
    if list != [] {
      var n := |list| - 1;
      forall i, j | 0 <= i < j < n ensures NotAfter(list[..n][i], list[..n][j]) {
        assert NotAfter(list[i], list[j]);
      }
      SortingOrdered(list[..n]);
      forall j | 0 <= j < n ensures NotAfter(list[..n][j], list[n]) {
        assert NotAfter(list[j], list[n]);
      }
      PlaceAtEnd(list[n], list[..n]);
      assert list == list[..n] + [list[n]];
    }
  }

  lemma FromInOrder(list: seq<Subsection>, i: nat) returns (j: nat)
    requires i < |InOrder(list)|
    ensures j < |list| && list[j] == InOrder(list)[i]
  {
    assert InOrder(list)[i] in multiset(list);
    j :| 0 <= j < |list| && list[j] == InOrder(list)[i];
  }
}
