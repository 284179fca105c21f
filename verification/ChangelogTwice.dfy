/** What a second fix of a changelog meets: clean sections, an order that stays, and nothing left to drop. */
module ChangelogTwice {
  import opened ChangelogText
  import opened ChangelogDocument
  import opened ChangelogRoundTrip
  import opened ChangelogItems
  import opened ChangelogEditing
  import opened ChangelogMerge
  import opened ChangelogPromotion
  import opened ChangelogFix
  import opened ChangelogKept
  import opened ChangelogForm
  import opened ChangelogOutcome
  import opened Wrappers

  // ---- normalising sees no more than the clean section ----

  lemma {:induction false} CleanSnoc(init: seq<Subsection>, s: Subsection)
    ensures CleanSubsections(init + [s])
         == CleanSubsections(init) + if Body(s.lines) == [] then [] else [Subsection(s.title, CleanLines(s.lines))]
  {
    hide Body, CleanLines, CleanSubsections;
    NothingClean();
    if init == [] {
      assert init + [s] == [s] + [];
      CleanCons(s, []);
    } else {
      assert init + [s] == [init[0]] + (init[1..] + [s]) && init == [init[0]] + init[1..];
      CleanSnoc(init[1..], s);
      CleanCons(init[0], init[1..] + [s]);
      CleanCons(init[0], init[1..]);
    }
  }

  lemma NothingClean()
    ensures CleanSubsections([]) == []
  {
  }

  lemma CleanCompact(s: Subsection)
    ensures CompactBody(Subsection(s.title, CleanLines(s.lines))) == CompactBody(s)
    ensures Body(s.lines) == [] ==> CompactBody(s) == []
  {
    hide TrimBlank, Compact, NonBlank, ItemTexts;
    CleanBody(s.lines);
    BodyLines(s);
    NonBlankEmpty(Texts(s.lines));
  }

  lemma {:induction false} MergeOfClean(subsections: seq<Subsection>)
    ensures MergeAll(CleanSubsections(subsections)) == MergeAll(subsections)
  {
    hide Body, CompactBody, Appended, CleanLines;
    if subsections != [] {
      var n := |subsections| - 1;
      var s := subsections[n];
      assert subsections == subsections[..n] + [s];
      CleanSnoc(subsections[..n], s);
      MergeOfClean(subsections[..n]);
      CleanCompact(s);
      var clean := CleanSubsections(subsections[..n]);
      if Body(s.lines) == [] {
        assert clean + [] == clean;
      } else {
        assert (clean + [Subsection(s.title, CleanLines(s.lines))])[..|clean|] == clean;
      }
    }
  }

  lemma CleanTwice(lines: seq<NumberedLine>)
    ensures CleanLines(CleanLines(lines)) == CleanLines(lines)
  {
    hide Body;
    CleanBody(lines);
  }

  lemma NormalizedOfClean(section: Section)
    ensures Normalized(CleanSection(section)) == Normalized(section)
  {
    hide MergeAll, CleanSubsections, CleanLines, InOrder;
    MergeOfClean(section.subsections);
    CleanTwice(section.leadingLines);
  }

  lemma {:induction false} PlaceUnique(s: Subsection, list: seq<Subsection>)
    requires UniqueTitles(list) && forall j {:trigger list[j]} :: 0 <= j < |list| ==> list[j].title != s.title
    ensures UniqueTitles(Place(s, list))
  {
    hide TitleOrder;
    if list == [] || TitleOrder(s.title) < TitleOrder(list[0].title) {
      ConsUnique(s, list);
    } else {
      var rest := Place(s, list[1..]);
      assert forall i, j :: 0 <= i < j < |list[1..]| ==> list[1..][i] == list[i + 1] && list[1..][j] == list[j + 1];
      PlaceUnique(s, list[1..]);
      forall j | 0 <= j < |rest| ensures rest[j].title != list[0].title {
        assert rest[j] in multiset(rest);
        if rest[j] != s {
          var k :| 0 <= k < |list[1..]| && list[1..][k] == rest[j];
          assert list[0].title != list[k + 1].title;
        }
      }
      ConsUnique(list[0], rest);
    }
  }

  lemma ConsUnique(s: Subsection, list: seq<Subsection>)
    requires UniqueTitles(list) && forall j {:trigger list[j]} :: 0 <= j < |list| ==> list[j].title != s.title
    ensures UniqueTitles([s] + list)
  {
    var all := [s] + list;
    forall i, j | 0 <= i < j < |all| ensures all[i].title != all[j].title {
      assert all[j] == list[j - 1];
      assert i > 0 ==> all[i] == list[i - 1];
    }
  }

  lemma {:induction false} SortedAreUnique(list: seq<Subsection>)
    requires UniqueTitles(list)
    ensures UniqueTitles(InOrder(list))
  {
    hide Place;
    if list != [] {
      var n := |list| - 1;
      assert forall i, j :: 0 <= i < j < n ==> list[..n][i] == list[i] && list[..n][j] == list[j];
      SortedAreUnique(list[..n]);
      var sorted := InOrder(list[..n]);
      forall j | 0 <= j < |sorted| ensures sorted[j].title != list[n].title {
        var k := FromInOrder(list[..n], j);
        assert list[k].title != list[n].title;
      }
      PlaceUnique(list[n], sorted);
    }
  }

  // ---- the order of the releases ----

  predicate Numeric(version: seq<Option<int>>) {
    forall i {:trigger version[i]} :: 0 <= i < |version| ==> version[i].Some?
  }

  function Rest(version: seq<Option<int>>): seq<Option<int>> {
    if version == [] then [] else version[1..]
  }

  lemma RestNumeric(version: seq<Option<int>>)
    requires Numeric(version)
    ensures Numeric(Rest(version))
  {
  }

  lemma {:induction false} CompareFlips(a: seq<Option<int>>, b: seq<Option<int>>)
    requires Numeric(a) && Numeric(b)
    ensures Compare(a, b) == -Compare(b, a)
    decreases |a| + |b|
  {
    if a != [] || b != [] {
      RestNumeric(a);
      RestNumeric(b);
      CompareFlips(Rest(a), Rest(b));
    }
  }

  lemma {:induction false} CompareChains(a: seq<Option<int>>, b: seq<Option<int>>, c: seq<Option<int>>)
    requires Numeric(a) && Numeric(b) && Numeric(c) && Compare(a, b) <= 0 && Compare(b, c) <= 0
    ensures Compare(a, c) <= 0
    decreases |a| + |b| + |c|
  {
    if a != [] || b != [] || c != [] {
      RestNumeric(a);
      RestNumeric(b);
      RestNumeric(c);
      var x, y, z := Head(a), Head(b), Head(c);
      CompareHeads(a, b);
      CompareHeads(b, c);
      CompareHeads(a, c);
      if x == y == z {
        CompareChains(Rest(a), Rest(b), Rest(c));
      }
    }
  }

  function Head(version: seq<Option<int>>): int
    requires Numeric(version)
  {
    if version == [] then 0 else version[0].value
  }

  lemma CompareHeads(a: seq<Option<int>>, b: seq<Option<int>>)
    requires Numeric(a) && Numeric(b)
    ensures Compare(a, b) == if Head(a) == Head(b) then Compare(Rest(a), Rest(b)) else Head(b) - Head(a)
  {
  }

  predicate NotOlder(a: Section, b: Section) {
    CompareTitles(a.title, b.title) <= 0
  }

  ghost predicate AllNumeric(list: seq<Section>) {
    forall k {:trigger list[k]} :: 0 <= k < |list| ==> Numeric(Version(list[k].title))
  }

  ghost predicate ReleasesOrdered(list: seq<Section>) {
    forall i, j {:trigger NotOlder(list[i], list[j])} :: 0 <= i < j < |list| ==> NotOlder(list[i], list[j])
  }

  lemma Flip(a: Section, b: Section)
    requires Numeric(Version(a.title)) && Numeric(Version(b.title))
    ensures NotOlder(a, b) <==> CompareTitles(b.title, a.title) >= 0
  {
    hide Version, Compare, Numeric;
    CompareFlips(Version(a.title), Version(b.title));
  }

  lemma Chain(a: Section, b: Section, c: Section)
    requires Numeric(Version(a.title)) && Numeric(Version(b.title)) && Numeric(Version(c.title))
    requires NotOlder(a, b) && NotOlder(b, c)
    ensures NotOlder(a, c)
  {
    hide Version, Compare, Numeric;
    CompareChains(Version(a.title), Version(b.title), Version(c.title));
  }

  lemma {:induction false} PlaceReleaseLast(s: Section, list: seq<Section>)
    requires AllNumeric(list) && Numeric(Version(s.title))
    requires forall j {:trigger list[j]} :: 0 <= j < |list| ==> NotOlder(list[j], s)
    ensures PlaceRelease(s, list) == list + [s]
  {
    hide CompareTitles, Version, Numeric;
    if list != [] {
      Flip(list[0], s);
      assert forall j :: 0 <= j < |list[1..]| ==> list[1..][j] == list[j + 1];
      PlaceReleaseLast(s, list[1..]);
    }
  }

  lemma ConsReleases(s: Section, list: seq<Section>)
    requires ReleasesOrdered(list) && forall j {:trigger list[j]} :: 0 <= j < |list| ==> NotOlder(s, list[j])
    ensures ReleasesOrdered([s] + list)
  {
    hide NotOlder;
    var all := [s] + list;
    forall i, j | 0 <= i < j < |all| ensures NotOlder(all[i], all[j]) {
      assert all[j] == list[j - 1];
      assert i > 0 ==> NotOlder(list[i - 1], list[j - 1]);
    }
  }

  lemma TailReleases(list: seq<Section>)
    requires ReleasesOrdered(list) && AllNumeric(list) && list != []
    ensures ReleasesOrdered(list[1..]) && AllNumeric(list[1..])
  {
    hide NotOlder, Numeric, Version;
    forall i, j | 0 <= i < j < |list[1..]| ensures NotOlder(list[1..][i], list[1..][j]) {
      assert NotOlder(list[i + 1], list[j + 1]);
    }
  }

  lemma {:induction false} PlaceReleaseKeepsOrder(s: Section, list: seq<Section>)
    requires ReleasesOrdered(list) && AllNumeric(list) && Numeric(Version(s.title))
    ensures ReleasesOrdered(PlaceRelease(s, list)) && AllNumeric(PlaceRelease(s, list))
  {
    hide CompareTitles, Version, Numeric, ReleasesOrdered;
    if list == [] || CompareTitles(s.title, list[0].title) < 0 {
      forall j | 0 <= j < |list| ensures NotOlder(s, list[j]) {
        FirstIsNewest(list, j);
        if j > 0 {
          Chain(s, list[0], list[j]);
        }
      }
      ConsReleases(s, list);
    } else {
      TailReleases(list);
      PlaceReleaseKeepsOrder(s, list[1..]);
      var rest := PlaceRelease(s, list[1..]);
      Flip(list[0], s);
      forall j | 0 <= j < |rest| ensures NotOlder(list[0], rest[j]) {
        assert rest[j] in multiset(rest);
        if rest[j] != s {
          var k :| 0 <= k < |list[1..]| && list[1..][k] == rest[j];
          FirstIsNewest(list, k + 1);
        }
      }
      ConsReleases(list[0], rest);
    }
  }

  lemma FirstIsNewest(list: seq<Section>, j: nat)
    requires ReleasesOrdered(list) && j < |list|
    ensures j > 0 ==> NotOlder(list[0], list[j])
  {
    hide NotOlder;
  }

  lemma {:induction false} NewestFirstOrders(list: seq<Section>)
    requires AllNumeric(list)
    ensures ReleasesOrdered(NewestFirst(list)) && AllNumeric(NewestFirst(list))
  {
    hide NotOlder, PlaceRelease, Version, Numeric;
    if list != [] {
      var n := |list| - 1;
      NewestFirstOrders(list[..n]);
      PlaceReleaseKeepsOrder(list[n], NewestFirst(list[..n]));
    }
  }

  lemma {:induction false} NewestFirstOfOrdered(list: seq<Section>)
    requires ReleasesOrdered(list) && AllNumeric(list)
    ensures NewestFirst(list) == list
  {
    hide NotOlder, PlaceRelease, Version, Numeric;
    if list != [] {
      var n := |list| - 1;
      forall i, j | 0 <= i < j < n ensures NotOlder(list[..n][i], list[..n][j]) {
        assert NotOlder(list[i], list[j]);
      }
      NewestFirstOfOrdered(list[..n]);
      forall j | 0 <= j < n ensures NotOlder(list[..n][j], list[n]) {
        assert NotOlder(list[j], list[n]);
      }
      PlaceReleaseLast(list[n], list[..n]);
      assert list == list[..n] + [list[n]];
    }
  }

  lemma {:induction false} SelectConcat(a: seq<Section>, b: seq<Section>, released: bool)
    ensures Select(a + b, released) == Select(a, released) + Select(b, released)
  {
    hide IsReleased;
    if a == [] {
      assert a + b == b;
    } else {
      assert (a + b)[1..] == a[1..] + b && (a + b)[0] == a[0];
      SelectConcat(a[1..], b, released);
      var first := if IsReleased(a[0]) == released then [a[0]] else [];
      assert Select(a + b, released) == first + Select(a[1..] + b, released);
    }
  }

  lemma {:induction false} SelectAllOrNone(list: seq<Section>, released: bool)
    requires forall s :: s in list ==> IsReleased(s) == released
    ensures Select(list, released) == list && Select(list, !released) == []
  {
    hide IsReleased;
    if list != [] {
      SelectAllOrNone(list[1..], released);
    }
  }

  ghost predicate NumericReleases(sections: seq<Section>) {
    forall s {:trigger IsReleased(s)} :: s in sections && IsReleased(s) ==> Numeric(Version(s.title))
  }

  ghost predicate SameTitles(a: seq<Section>, b: seq<Section>) {
    |a| == |b| && forall k {:trigger a[k]} {:trigger b[k]} :: 0 <= k < |a| ==> a[k].title == b[k].title
  }

  lemma TitlesSorted(list: seq<Section>, sorted: seq<Section>)
    requires SameTitles(list, sorted) && ReleasesOrdered(sorted) && AllNumeric(sorted)
    ensures NewestFirst(list) == list
  {
    hide Version, Numeric, NewestFirst, CompareTitles;
    forall k | 0 <= k < |list| ensures Numeric(Version(list[k].title)) {
      assert sorted[k].title == list[k].title;
    }
    forall i, j | 0 <= i < j < |list| ensures NotOlder(list[i], list[j]) {
      assert NotOlder(sorted[i], sorted[j]) && list[i].title == sorted[i].title && list[j].title == sorted[j].title;
    }
    NewestFirstOfOrdered(list);
  }

  /** Sections with the titles of sorted sections are sorted. */
  lemma SortedByTitles(sections: seq<Section>, next: seq<Section>)
    requires NumericReleases(sections) && SameTitles(next, SortedSections(sections))
    ensures SortedSections(next) == next
  {
    hide IsReleased, Version, Numeric, NewestFirst, Select, ReleasesOrdered;
    var unreleased, releases := Select(sections, false), Select(sections, true);
    SelectMembers(sections, false);
    SelectMembers(sections, true);
    forall k | 0 <= k < |releases| ensures Numeric(Version(releases[k].title)) {
      assert releases[k] in releases;
    }
    NewestFirstOrders(releases);
    var sorted := NewestFirst(releases);
    forall s | s in sorted ensures IsReleased(s) {
      assert s in multiset(releases);
    }
    var n := |unreleased|;
    var first, last := next[..n], next[n..];
    forall k | 0 <= k < |first| ensures first[k].title == unreleased[k].title && !IsReleased(first[k]) {
      assert next[k].title == SortedSections(sections)[k].title;
      assert unreleased[k] in unreleased;
      SameTitleReleased(first[k], unreleased[k]);
    }
    forall k | 0 <= k < |last| ensures last[k].title == sorted[k].title && IsReleased(last[k]) {
      assert next[n + k].title == SortedSections(sections)[n + k].title;
      assert sorted[k] in sorted;
      SameTitleReleased(last[k], sorted[k]);
    }
    assert next == first + last;
    SelectConcat(first, last, false);
    SelectConcat(first, last, true);
    SelectAllOrNone(first, false);
    SelectAllOrNone(last, true);
    assert first + [] == first && [] + last == last;
    TitlesSorted(last, sorted);
  }

  /** Sorting sorted sections changes nothing. */
  lemma SortedTwice(sections: seq<Section>)
    requires NumericReleases(sections)
    ensures SortedSections(SortedSections(sections)) == SortedSections(sections)
  {
    hide SortedSections, NumericReleases;
    SortedByTitles(sections, SortedSections(sections));
  }

  // ---- nothing to drop, nothing to promote ----

  ghost predicate NoRepeatedTitles(sections: seq<Section>) {
    forall k {:trigger sections[k]} :: 0 <= k < |sections| ==> UniqueTitles(sections[k].subsections)
  }

  lemma {:induction false} NonePicked(items: seq<ParsedItem>, pick: ParsedItem -> bool)
    requires forall i {:trigger items[i]} :: 0 <= i < |items| ==> !pick(items[i])
    ensures Picked(items, pick, true) == []
  {
    if items != [] {
      assert forall i :: 0 <= i < |items[1..]| ==> items[1..][i] == items[i + 1];
      NonePicked(items[1..], pick);
    }
  }

  lemma SectionGivesNothing(section: Section, pick: ParsedItem -> bool)
    requires forall j, i {:trigger Items(section.subsections[j].lines)[i]} ::
      0 <= j < |section.subsections| && 0 <= i < |Items(section.subsections[j].lines)| ==> !pick(Items(section.subsections[j].lines)[i])
    ensures StrippedSection(section, pick) == section && SectionMoves(section.subsections, pick) == []
  {
    hide Items, Picked, Without;
    forall j | 0 <= j < |section.subsections|
      ensures Stripped(section.subsections[j], pick) == section.subsections[j]
      ensures SubsectionMoves(section.subsections[j], pick) == []
    {
      NonePicked(Items(section.subsections[j].lines), pick);
      NothingToStrip(section.subsections[j], pick);
    }
    NoSectionMoves(section.subsections, pick);
    assert StrippedAll(section.subsections, pick) == section.subsections;
  }

  lemma {:induction false} NoMoves(sections: seq<Section>)
    ensures Moves(sections, StartPick({})) == []
  {
    hide Items, StrippedSection, SectionMoves;
    if sections != [] {
      var n := |sections| - 1;
      NoMoves(sections[..n]);
      SectionGivesNothing(sections[n], StartPick({}));
    }
  }

  /** Without promotable lines, promotion changes nothing. */
  lemma NothingPromoted(sections: seq<Section>)
    ensures Promoted(sections, StartPick({})) == sections
  {
    hide Items, StrippedSection, Moves, SectionMoves, UnreleasedIndex;
    var pick := StartPick({});
    NoMoves(sections);
    NothingAfter(Target(sections));
    forall k | 0 <= k < |sections| ensures StrippedRelease(sections[k], pick) == sections[k] {
      SectionGivesNothing(sections[k], pick);
    }
    assert StrippedReleases(sections, pick) == sections;
  }

  lemma KeyOfItem(section: Section, j: nat, i: nat)
    requires j < |section.subsections| && i < |Items(section.subsections[j].lines)|
    ensures SectionHasKey(section, ItemKey(Items(section.subsections[j].lines)[i].lines))
  {
    hide Items, ItemKey;
    assert HasKey(section.subsections[j], ItemKey(Items(section.subsections[j].lines)[i].lines));
  }

  /** If Unreleased shares no item with the key set, nothing is dropped. */
  lemma NothingToDrop(sections: seq<Section>, keys: set<string>)
    requires var u := UnreleasedIndex(sections); u < |sections| ==> forall key :: key in keys ==> !SectionHasKey(sections[u], key)
    ensures Dropped(sections, keys) == sections
  {
    hide Items, StrippedSection, UnreleasedIndex, SectionHasKey, ItemKey;
    var u := UnreleasedIndex(sections);
    if u < |sections| {
      forall j, i | 0 <= j < |sections[u].subsections| && 0 <= i < |Items(sections[u].subsections[j].lines)|
        ensures !KeyPick(keys)(Items(sections[u].subsections[j].lines)[i])
      {
        KeyOfItem(sections[u], j, i);
      }
      SectionGivesNothing(sections[u], KeyPick(keys));
    }
  }

  /** What is dropped once is gone. */
  lemma DroppedIsGone(sections: seq<Section>, keys: set<string>, key: string)
    requires AllNumbered(sections) && UnreleasedIndex(sections) < |sections| && key in keys
    ensures !SectionHasKey(Dropped(sections, keys)[UnreleasedIndex(sections)], key)
  {
    hide Items, ItemKey, Picked, Without, UnreleasedIndex, Increasing, NextItem;
    var u := UnreleasedIndex(sections);
    var next := Dropped(sections, keys)[u];
    if SectionHasKey(next, key) {
      var j, i := SectionItem(next, key);
      var s := sections[u].subsections[j];
      assert NumberedSection(sections[u]) && Increasing(s.lines);
      RemovingLeavesOthers(s.lines, KeyPick(keys));
      PickedAre(Items(s.lines), KeyPick(keys), false, i);
      assert false;
    }
  }

  lemma DroppedTitles(sections: seq<Section>, keys: set<string>)
    ensures var next := Dropped(sections, keys);
            |next| == |sections| && UnreleasedIndex(next) == UnreleasedIndex(sections)
            && forall k :: 0 <= k < |sections| ==> next[k].title == sections[k].title && (IsReleased(sections[k]) ==> next[k] == sections[k])
  {
    hide Stripped, UnreleasedIndex;
    SameIndex(sections, Dropped(sections, keys));
  }

  lemma SameIndex(a: seq<Section>, b: seq<Section>)
    requires |a| == |b| && forall k :: 0 <= k < |a| ==> a[k].title == b[k].title
    ensures UnreleasedIndex(a) == UnreleasedIndex(b)
  {
    hide UnreleasedIndex;
    var u, v := UnreleasedIndex(a), UnreleasedIndex(b);
    assert u < |a| ==> !IsReleased(b[u]);
    assert v < |b| ==> !IsReleased(a[v]);
  }

  lemma DroppedUnique(sections: seq<Section>, keys: set<string>)
    requires NoRepeatedTitles(sections)
    ensures NoRepeatedTitles(Dropped(sections, keys))
  {
    hide UnreleasedIndex, Items, Picked, Without;
    var next, u := Dropped(sections, keys), UnreleasedIndex(sections);
    if u < |sections| {
      forall i, j | 0 <= i < j < |next[u].subsections| ensures next[u].subsections[i].title != next[u].subsections[j].title {
        assert sections[u].subsections[i].title != sections[u].subsections[j].title;
      }
    }
  }

  lemma UniqueStart(sections: seq<Section>)
    requires NoRepeatedTitles(sections)
    ensures AllRepeatsStart(sections)
  {
    hide CompactBody, StartsWithItem;
    forall k | 0 <= k < |sections| ensures RepeatsStartWithItem(sections[k].subsections) {
      assert UniqueTitles(sections[k].subsections);
    }
  }

  // ---- the same keys after each step ----

  /** The two lists have, section by section, the same titles and the same items. */
  ghost predicate SameKeys(a: seq<Section>, b: seq<Section>) {
    && |a| == |b|
    && forall k {:trigger a[k]} {:trigger b[k]} :: 0 <= k < |a| ==>
         a[k].title == b[k].title && forall key :: SectionHasKey(a[k], key) <==> SectionHasKey(b[k], key)
  }

  lemma SameReleasedKeys(a: seq<Section>, b: seq<Section>, key: string)
    requires SameKeys(a, b)
    ensures ReleasedKey(a, key) <==> ReleasedKey(b, key)
  {
    hide SectionHasKey;
    if ReleasedKey(a, key) {
      var k :| 0 <= k < |a| && IsReleased(a[k]) && SectionHasKey(a[k], key);
      assert IsReleased(b[k]) && SectionHasKey(b[k], key);
    }
    if ReleasedKey(b, key) {
      var k :| 0 <= k < |b| && IsReleased(b[k]) && SectionHasKey(b[k], key);
      assert IsReleased(a[k]) && SectionHasKey(a[k], key);
    }
  }

  lemma NormalizedSameKeys(sections: seq<Section>)
    requires AllRepeatsStart(sections)
    ensures SameKeys(NormalizedAll(sections), sections)
  {
    hide RepeatsStartWithItem, MergeAll, InOrder, SectionHasKey, Has;
    var next := NormalizedAll(sections);
    forall k | 0 <= k < |sections|
      ensures next[k].title == sections[k].title && forall key :: SectionHasKey(next[k], key) <==> SectionHasKey(sections[k], key)
    {
      assert RepeatsStartWithItem(sections[k].subsections);
      forall key ensures SectionHasKey(next[k], key) <==> SectionHasKey(sections[k], key) {
        SectionHas(next[k], key);
        SectionHas(sections[k], key);
        forall t ensures Has(next[k].subsections, t, key) <==> Has(sections[k].subsections, t, key) {
          NormalizedKeepsKeys(sections[k], t, key);
        }
      }
    }
  }

  lemma CleanSameKeys(a: seq<Section>, b: seq<Section>)
    requires CleanSections(a) == CleanSections(b)
    ensures SameKeys(a, b)
  {
    hide CleanSection, SectionHasKey, Has;
    assert |CleanSections(a)| == |CleanSections(b)|;
    forall k | 0 <= k < |a|
      ensures a[k].title == b[k].title && forall key :: SectionHasKey(a[k], key) <==> SectionHasKey(b[k], key)
    {
      assert CleanSections(a)[k] == CleanSections(b)[k];
      CleanSectionHas(a[k], b[k], "", "");
      forall key ensures SectionHasKey(a[k], key) <==> SectionHasKey(b[k], key) {
        SectionHas(a[k], key);
        SectionHas(b[k], key);
        forall t ensures Has(a[k].subsections, t, key) <==> Has(b[k].subsections, t, key) {
          CleanSectionHas(a[k], b[k], t, key);
        }
      }
    }
  }

  lemma SortedReleasedKeys(sections: seq<Section>, key: string)
    ensures ReleasedKey(SortedSections(sections), key) <==> ReleasedKey(sections, key)
  {
    hide SectionHasKey, SortedSections, IsReleased;
    SortedMembers(sections);
    var sorted := SortedSections(sections);
    if ReleasedKey(sections, key) {
      var k :| 0 <= k < |sections| && IsReleased(sections[k]) && SectionHasKey(sections[k], key);
      assert sections[k] in sorted;
      var p :| 0 <= p < |sorted| && sorted[p] == sections[k];
    }
    if ReleasedKey(sorted, key) {
      var p :| 0 <= p < |sorted| && IsReleased(sorted[p]) && SectionHasKey(sorted[p], key);
      assert sorted[p] in sections;
      var k :| 0 <= k < |sections| && sections[k] == sorted[p];
    }
  }

  lemma {:induction false} FirstSelected(sections: seq<Section>)
    ensures var u := UnreleasedIndex(sections);
            if u < |sections| then Select(sections, false) != [] && Select(sections, false)[0] == sections[u]
            else Select(sections, false) == []
  {
    if sections != [] && IsReleased(sections[0]) {
      FirstSelected(sections[1..]);
    }
  }

  /** The first Unreleased section stays the first. */
  lemma SortedFirst(sections: seq<Section>)
    ensures var sorted, u := SortedSections(sections), UnreleasedIndex(sections);
            if u < |sections| then UnreleasedIndex(sorted) == 0 && sorted != [] && sorted[0] == sections[u]
            else UnreleasedIndex(sorted) == |sorted|
  {
    hide Select, NewestFirst;
    FirstSelected(sections);
    var releases := Select(sections, true);
    SelectMembers(sections, true);
    var sorted := SortedSections(sections);
    if UnreleasedIndex(sections) == |sections| {
      assert sorted == NewestFirst(releases);
      forall s | s in sorted ensures IsReleased(s) {
        assert s in multiset(releases);
      }
    }
  }

  // ---- the second run ----

  /** In the fixed sections Unreleased has no item a release has. */
  lemma FixedSharesNothing(sections: seq<Section>, keys: set<string>, fixed: seq<Section>, key: string)
    requires Sound(sections) && AllRepeatsStart(sections) && IsKeySet(keys, sections, {})
    requires fixed == FixedSections(sections, {}, keys) && ReleasedKey(fixed, key)
    ensures var u := UnreleasedIndex(fixed); u < |fixed| ==> !SectionHasKey(fixed[u], key)
  {
    hide Dropped, Promoted, NormalizedAll, SortedSections, StartPick, UnreleasedIndex, SectionHasKey, ReleasedKey, AllRepeatsStart, IsReleased;
    var dropped := Dropped(sections, keys);
    DroppedRepeats(sections, keys);
    NothingPromoted(dropped);
    var normalized := NormalizedAll(dropped);
    NormalizedSameKeys(dropped);
    SortedReleasedKeys(normalized, key);
    SameReleasedKeys(normalized, dropped, key);
    DroppedReleasedKeys(sections, keys, key);
    DroppedTitles(sections, keys);
    SameIndex(normalized, dropped);
    SortedFirst(normalized);
    var u := UnreleasedIndex(sections);
    if u < |sections| {
      DroppedIsGone(sections, keys, key);
    }
  }

  lemma DroppedReleasedKeys(sections: seq<Section>, keys: set<string>, key: string)
    ensures ReleasedKey(Dropped(sections, keys), key) <==> ReleasedKey(sections, key)
  {
    hide SectionHasKey, Dropped, UnreleasedIndex;
    DroppedTitles(sections, keys);
    var next := Dropped(sections, keys);
    if ReleasedKey(sections, key) {
      var k :| 0 <= k < |sections| && IsReleased(sections[k]) && SectionHasKey(sections[k], key);
      assert next[k] == sections[k];
    }
    if ReleasedKey(next, key) {
      var k :| 0 <= k < |next| && IsReleased(next[k]) && SectionHasKey(next[k], key);
      assert next[k] == sections[k];
    }
  }

  /** The sections read back, sharing nothing between Unreleased and the releases, lose nothing. */
  lemma SecondDrops(again: seq<Section>, fixed: seq<Section>, keys: set<string>)
    requires CleanSections(again) == CleanSections(fixed) && IsKeySet(keys, again, {})
    requires forall key {:trigger ReleasedKey(fixed, key)} :: ReleasedKey(fixed, key) ==>
      var u := UnreleasedIndex(fixed); u < |fixed| ==> !SectionHasKey(fixed[u], key)
    ensures Dropped(again, keys) == again
  {
    hide UnreleasedIndex, SectionHasKey, ReleasedKey, Dropped, CleanSections;
    CleanSameKeys(again, fixed);
    SameIndex(again, fixed);
    var u := UnreleasedIndex(again);
    if u < |again| {
      forall key | key in keys ensures !SectionHasKey(again[u], key) {
        assert ReleasedKey(again, key);
        SameReleasedKeys(again, fixed, key);
      }
    }
    NothingToDrop(again, keys);
  }

  lemma NormalizedTitle(section: Section)
    ensures Normalized(section).title == section.title
  {
  }

  lemma SameTitleReleased(a: Section, b: Section)
    requires a.title == b.title
    ensures IsReleased(a) == IsReleased(b)
  {
  }

  lemma SameRendering(a: seq<NumberedLine>, b: seq<NumberedLine>, sections: seq<Section>)
    requires CleanLines(a) == CleanLines(b)
    ensures Render(Document(a, sections)) == Render(Document(b, sections))
  {
    hide Render, CleanLines, CleanSections;
    RenderClean(Document(a, sections));
    RenderClean(Document(b, sections));
  }
}
