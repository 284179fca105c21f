/** When fixing a changelog a second time changes nothing: the exact condition, repeated categories included. */
module ChangelogRepeats {
  import opened ChangelogText
  import opened ChangelogDocument
  import opened ChangelogRoundTrip
  import opened ChangelogItems
  import opened ChangelogEditing
  import opened ChangelogMerge
  import opened ChangelogBodies
  import opened ChangelogPromotion
  import opened ChangelogFix
  import opened ChangelogKept
  import opened ChangelogOutcome
  import opened ChangelogTwice

  // ---- one section ----

  lemma CompactKeepsTitles(list: seq<Subsection>)
    requires UniqueTitles(list) && AllCleanBodied(list) && TitlesOrdered(list)
    ensures InOrder(MergeAll(list)) == MergeAll(list)
  {
    hide CleanBodied, MergeAll, UniqueTitles, CompactBody, InOrder, TitleOrder;
    MergeOfUnique(list);
    var merged := MergeAll(list);
    forall i, j | 0 <= i < j < |merged| ensures NotAfter(merged[i], merged[j]) {
      assert NotAfter(list[i], list[j]);
    }
    SortingOrdered(merged);
  }

  /** A second pass leaves a section alone exactly if the categories of every title join cleanly. */
  lemma NormalTwice(section: Section)
    ensures Normalized(Normalized(section)) == Normalized(section) <==> MergesCleanly(section.subsections)
  {
    hide MergeAll, InOrder, CleanLines, UniqueTitles, AllSettled, AllCleanBodied, MergesCleanly, TitlesOrdered;
    var merged := MergeAll(section.subsections);
    MergedAreUnique(section.subsections);
    MergedAreClean(section.subsections);
    SettledMeansClean(section.subsections);
    CleanTwice(section.leadingLines);
    if section.title == "Unreleased" {
      var sorted := InOrder(merged);
      SortedAreUnique(merged);
      SortedAreClean(merged);
      OrderedSettles(merged);
      MergeIsSame(sorted);
      SortingOrders(merged);
      SortingOrdered(sorted);
      CompactKeepsTitles(sorted);
    } else {
      MergeIsSame(merged);
    }
  }

  lemma SortedAreClean(list: seq<Subsection>)
    requires AllCleanBodied(list)
    ensures AllCleanBodied(InOrder(list))
  {
    hide CleanBodied, InOrder;
    var sorted := InOrder(list);
    forall j | 0 <= j < |sorted| ensures CleanBodied(sorted[j]) {
      var k := FromInOrder(list, j);
      assert CleanBodied(list[k]);
    }
  }

  lemma {:induction false} CleanOfClean(list: seq<Subsection>)
    requires AllCleanBodied(list)
    ensures CleanSubsections(list) == list
  {
    hide CleanBodied, Body, CleanLines;
    if list != [] {
      assert CleanBodied(list[0]);
      forall j | 0 <= j < |list[1..]| ensures CleanBodied(list[1..][j]) {
        assert CleanBodied(list[j + 1]);
      }
      CleanOfClean(list[1..]);
      CleanOne(list[0]);
      assert [list[0]] + list[1..] == list;
    }
  }

  lemma CleanOne(s: Subsection)
    requires CleanBodied(s)
    ensures Body(s.lines) != [] && CleanLines(s.lines) == s.lines
  {
    hide TrimBlank, Trimmed;
    TrimOfTrimmed(Texts(s.lines));
  }

  /** A normalised section is clean: rendering and parsing it back gives it unchanged. */
  lemma NormalizedIsClean(section: Section)
    ensures CleanSection(Normalized(section)) == Normalized(section)
  {
    hide MergeAll, InOrder, CleanLines, CleanSubsections, AllCleanBodied;
    MergedAreClean(section.subsections);
    SortedAreClean(MergeAll(section.subsections));
    CleanTwice(section.leadingLines);
    CleanOfClean(Normalized(section).subsections);
  }

  // ---- the items of a merged section ----

  /** Some title of the section has the item once its bodies are joined. */
  ghost predicate JoinedHasKey(section: Section, key: string) {
    exists title {:trigger BodiesUnder(section.subsections, title)} ::
      KeyAmong(ItemTexts(Joined(BodiesUnder(section.subsections, title))), key)
  }

  lemma NormalizedHasKey(section: Section, key: string)
    ensures SectionHasKey(Normalized(section), key) <==> JoinedHasKey(section, key)
  {
    hide Has, HasKey, MergeAll, InOrder, CleanLines, KeyAmong, ItemTexts, Joined, BodiesUnder;
    var subsections := section.subsections;
    var list, next := MergeAll(subsections), Normalized(section);
    SectionHas(next, key);
    MergeJoinsBodies(subsections);
    forall t ensures Has(next.subsections, t, key) <==> KeyAmong(ItemTexts(Joined(BodiesUnder(subsections, t))), key) {
      SortKeepsKeys(list, t, key);
      MergedHas(subsections, t, key);
    }
    if SectionHasKey(next, key) {
      var t :| Has(next.subsections, t, key);
      assert KeyAmong(ItemTexts(Joined(BodiesUnder(subsections, t))), key);
    }
  }

  lemma MergedHas(subsections: seq<Subsection>, t: string, key: string)
    ensures Has(MergeAll(subsections), t, key) <==> KeyAmong(ItemTexts(Joined(BodiesUnder(subsections, t))), key)
  {
    hide HasKey, MergeAll, KeyAmong, ItemTexts, Joined, BodiesUnder, AreBodies;
    var list, bodies := MergeAll(subsections), BodiesUnder(subsections, t);
    MergeJoinsBodies(subsections);
    MergedAreUnique(subsections);
    if HasCategory(list, t) {
      var j :| 0 <= j < |list| && list[j].title == t;
      KeysOfTexts(list[j], key);
      assert forall i :: 0 <= i < |list| && list[i].title == t ==> i == j;
      if Has(list, t, key) {
        var i :| 0 <= i < |list| && list[i].title == t && HasKey(list[i], key);
      }
    } else {
      assert !Has(list, t, key);
      NothingIn(key);
    }
  }

  lemma NothingIn(key: string)
    ensures Joined([]) == [] && !KeyAmong(ItemTexts([]), key)
  {
  }

  // ---- the condition ----

  /** In every section the categories of every title join cleanly. */
  ghost predicate AllMergeCleanly(sections: seq<Section>) {
    forall k {:trigger sections[k]} :: 0 <= k < |sections| ==> MergesCleanly(sections[k].subsections)
  }

  /** Once categories are joined, the first Unreleased section has no item a release has. */
  ghost predicate JoinedApart(sections: seq<Section>) {
    var u := UnreleasedIndex(sections);
    u < |sections| ==> forall k, key {:trigger JoinedHasKey(sections[k], key)} ::
      0 <= k < |sections| && IsReleased(sections[k]) && key != "" && JoinedHasKey(sections[k], key)
      ==> !JoinedHasKey(sections[u], key)
  }

  /** After the first fix, Unreleased has no item a release has. */
  ghost predicate SharesNothing(fixed: seq<Section>) {
    forall key {:trigger ReleasedKey(fixed, key)} :: ReleasedKey(fixed, key) ==>
      var u := UnreleasedIndex(fixed); u < |fixed| ==> !SectionHasKey(fixed[u], key)
  }

  lemma ApartIsShared(sections: seq<Section>)
    ensures SharesNothing(SortedSections(NormalizedAll(sections))) <==> JoinedApart(sections)
  {
    hide JoinedHasKey, SectionHasKey, SortedSections, Normalized, IsReleased, UnreleasedIndex;
    var normalized := NormalizedAll(sections);
    var fixed, u := SortedSections(normalized), UnreleasedIndex(sections);
    forall k | 0 <= k < |sections| ensures normalized[k].title == sections[k].title && IsReleased(normalized[k]) == IsReleased(sections[k]) {
      NormalizedTitle(sections[k]);
      SameTitleReleased(normalized[k], sections[k]);
    }
    SameIndex(normalized, sections);
    SortedFirst(normalized);
    forall k, key | 0 <= k < |sections| ensures SectionHasKey(normalized[k], key) <==> JoinedHasKey(sections[k], key) {
      NormalizedHasKey(sections[k], key);
    }
    forall key ensures ReleasedKey(fixed, key) <==> ReleasedKey(normalized, key) {
      SortedReleasedKeys(normalized, key);
    }
    if SharesNothing(fixed) && u < |sections| {
      forall k, key | 0 <= k < |sections| && IsReleased(sections[k]) && key != "" && JoinedHasKey(sections[k], key)
        ensures !JoinedHasKey(sections[u], key)
      {
        assert IsReleased(normalized[k]) && SectionHasKey(normalized[k], key);
        assert ReleasedKey(fixed, key);
      }
    }
    if JoinedApart(sections) {
      forall key | ReleasedKey(fixed, key) && UnreleasedIndex(fixed) < |fixed|
        ensures !SectionHasKey(fixed[UnreleasedIndex(fixed)], key)
      {
        var k :| 0 <= k < |normalized| && IsReleased(normalized[k]) && SectionHasKey(normalized[k], key);
        assert JoinedHasKey(sections[k], key);
      }
    }
  }

  // ---- a second fix that drops ----

  lemma {:induction false} StrippedBody(s: Subsection, pick: ParsedItem -> bool)
    requires Body(s.lines) == []
    ensures Body(Stripped(s, pick).lines) == []
  {
    hide Items, Picked, Without, TrimBlank, Blank;
    var all, left := Texts(s.lines), Texts(Stripped(s, pick).lines);
    var before, after := TrimParts(all);
    assert AllBlank(all);
    forall k | 0 <= k < |left| ensures Blank(left[k]) {
      WithoutKeeps(s.lines, Picked(Items(s.lines), pick, true), k);
      var i :| 0 <= i < |s.lines| && s.lines[i] == Stripped(s, pick).lines[k];
      assert all[i] == left[k];
    }
    BodyOf(Stripped(s, pick).lines, left, [], []);
  }

  lemma {:induction false} WithoutKeeps(lines: seq<NumberedLine>, items: seq<ParsedItem>, k: nat)
    requires k < |Without(lines, items)|
    ensures Without(lines, items)[k] in lines
  {
    if lines != [] {
      var head := if InSpans(items, lines[0].lineNumber) then [] else [lines[0]];
      assert Without(lines, items) == head + Without(lines[1..], items);
      if k >= |head| {
        WithoutKeeps(lines[1..], items, k - |head|);
      }
    }
  }

  /** Taking items out brings in no category that would be rendered. */
  lemma {:induction false} StrippedUnique(subsections: seq<Subsection>, pick: ParsedItem -> bool)
    requires UniqueTitles(CleanSubsections(subsections))
    ensures UniqueTitles(CleanSubsections(StrippedAll(subsections, pick)))
    ensures forall t {:trigger HasCategory(CleanSubsections(StrippedAll(subsections, pick)), t)} ::
              HasCategory(CleanSubsections(StrippedAll(subsections, pick)), t) ==> HasCategory(CleanSubsections(subsections), t)
  {
    hide Body, CleanLines, Stripped, CleanSubsections, UniqueTitles, HasCategory;
    if subsections == [] {
      NoTitles();
      NothingClean();
    } else {
      var first, rest := subsections[0], subsections[1..];
      var left := StrippedAll(rest, pick);
      assert subsections == [first] + rest;
      assert StrippedAll(subsections, pick) == [Stripped(first, pick)] + left;
      CleanCons(first, rest);
      CleanCons(Stripped(first, pick), left);
      var clean := Subsection(first.title, CleanLines(first.lines));
      if Body(first.lines) == [] {
        StrippedBody(first, pick);
        assert [] + CleanSubsections(rest) == CleanSubsections(rest);
        StrippedUnique(rest, pick);
        assert [] + CleanSubsections(left) == CleanSubsections(left);
      } else {
        TailUnique(clean, CleanSubsections(rest));
        StrippedUnique(rest, pick);
        ConsCategory(clean, CleanSubsections(rest));
        var shrunk := Stripped(first, pick);
        StrippedTitle(first, pick);
        if Body(shrunk.lines) == [] {
          assert [] + CleanSubsections(left) == CleanSubsections(left);
        } else {
          var cleanShrunk := Subsection(shrunk.title, CleanLines(shrunk.lines));
          ConsCategory(cleanShrunk, CleanSubsections(left));
          forall j | 0 <= j < |CleanSubsections(left)| ensures CleanSubsections(left)[j].title != first.title {
            HasAt(CleanSubsections(left), j);
          }
          ConsUnique(cleanShrunk, CleanSubsections(left));
        }
      }
    }
  }

  lemma NoTitles()
    ensures UniqueTitles([]) && forall t :: !HasCategory([], t)
  {
  }

  lemma StrippedTitle(s: Subsection, pick: ParsedItem -> bool)
    ensures Stripped(s, pick).title == s.title
  {
  }

  lemma TailUnique(first: Subsection, rest: seq<Subsection>)
    requires UniqueTitles([first] + rest)
    ensures UniqueTitles(rest) && !HasCategory(rest, first.title)
  {
    var all := [first] + rest;
    forall i, j | 0 <= i < j < |rest| ensures rest[i].title != rest[j].title {
      assert all[i + 1].title != all[j + 1].title;
    }
    forall j | 0 <= j < |rest| ensures rest[j].title != first.title {
      assert all[0].title != all[j + 1].title;
    }
  }

  lemma ConsCategory(first: Subsection, rest: seq<Subsection>)
    ensures forall t {:trigger HasCategory([first] + rest, t)} :: HasCategory([first] + rest, t) <==> t == first.title || HasCategory(rest, t)
  {
    var all := [first] + rest;
    forall t ensures HasCategory(all, t) <==> t == first.title || HasCategory(rest, t) {
      assert all[0].title == first.title;
      if HasCategory(rest, t) {
        var j :| 0 <= j < |rest| && rest[j].title == t;
        assert all[j + 1].title == t;
      }
    }
  }

  /** The section without the item, its rendered categories unrepeated, does not get it back by normalising. */
  lemma StaysGone(section: Section, pick: ParsedItem -> bool, key: string)
    requires UniqueTitles(CleanSubsections(section.subsections)) && !SectionHasKey(StrippedSection(section, pick), key)
    ensures !SectionHasKey(Normalized(StrippedSection(section, pick)), key)
  {
    hide Stripped, CleanSubsections, CleanLines, MergeAll, InOrder, Has, SectionHasKey, Normalized, UniqueTitles, CompactBody;
    var stripped := StrippedSection(section, pick);
    var clean := CleanSection(stripped);
    StrippedUnique(section.subsections, pick);
    NormalizedOfClean(stripped);
    UniqueRepeats(clean.subsections);
    SectionHas(stripped, key);
    SectionHas(Normalized(clean), key);
    forall t ensures !Has(Normalized(clean).subsections, t, key) {
      NormalizedKeepsKeys(clean, t, key);
      CleanHas(stripped.subsections, t, key);
    }
  }

  lemma UniqueRepeats(list: seq<Subsection>)
    requires UniqueTitles(list)
    ensures RepeatsStartWithItem(list)
  {
    hide CompactBody, StartsWithItem;
  }

  /** Sections that come out of a fix have no repeated category. */
  lemma FixedAreUnique(sections: seq<Section>, k: nat)
    requires k < |SortedSections(NormalizedAll(sections))|
    ensures var s := SortedSections(NormalizedAll(sections))[k];
            UniqueTitles(s.subsections) && CleanSection(s) == s && exists j :: 0 <= j < |sections| && s == Normalized(sections[j])
  {
    hide Normalized, SortedSections, UniqueTitles, CleanSection;
    var normalized := NormalizedAll(sections);
    SortedMembers(normalized);
    var s := SortedSections(normalized)[k];
    assert s in normalized;
    var j :| 0 <= j < |normalized| && normalized[j] == s;
    NormalizedIsClean(sections[j]);
    NormalizedIsUnique(sections[j]);
  }

  lemma NormalizedIsUnique(section: Section)
    ensures UniqueTitles(Normalized(section).subsections)
  {
    hide MergeAll, InOrder, UniqueTitles;
    MergedAreUnique(section.subsections);
    SortedAreUnique(MergeAll(section.subsections));
  }

  /** What the second fix gets to see: the fixed sections, read back. */
  ghost predicate ReadAgain(again: seq<Section>, fixed: seq<Section>, keys: set<string>) {
    AllNumbered(again) && CleanSections(again) == CleanSections(fixed) && IsKeySet(keys, again, {})
  }

  lemma SecondFixDrops(sections: seq<Section>, fixed: seq<Section>, again: seq<Section>, keys: set<string>)
    requires fixed == SortedSections(NormalizedAll(sections)) && ReadAgain(again, fixed, keys) && !SharesNothing(fixed)
    ensures SortedSections(NormalizedAll(Dropped(again, keys))) != fixed
  {
    hide UnreleasedIndex, SectionHasKey, Dropped, CleanSection, SortedSections, NormalizedAll, IsReleased, AllNumbered, StrippedSection,
         UniqueTitles, Normalized, ReleasedKey;
    var key :| ReleasedKey(fixed, key) && UnreleasedIndex(fixed) < |fixed| && SectionHasKey(fixed[UnreleasedIndex(fixed)], key);
    CleanSameKeys(again, fixed);
    SameIndex(again, fixed);
    SameReleasedKeys(again, fixed, key);
    var u := UnreleasedIndex(again);
    DroppedIsGone(again, keys, key);
    DroppedTitles(again, keys);
    var dropped := Dropped(again, keys);
    DroppedAt(again, keys);
    FixedAreUnique(sections, u);
    assert CleanSections(again)[u] == CleanSections(fixed)[u];
    SameCleanSubsections(again[u], fixed[u]);
    StaysGone(again[u], KeyPick(keys), key);
    FirstOfFixed(sections, fixed);
    FirstOfFixed(dropped, SortedSections(NormalizedAll(dropped)));
  }

  lemma SameCleanSubsections(a: Section, b: Section)
    requires CleanSection(a) == CleanSection(b) && CleanSection(b) == b
    ensures CleanSubsections(a.subsections) == b.subsections
  {
    hide CleanSubsections, CleanLines;
  }

  lemma DroppedAt(sections: seq<Section>, keys: set<string>)
    requires UnreleasedIndex(sections) < |sections|
    ensures Dropped(sections, keys)[UnreleasedIndex(sections)] == StrippedSection(sections[UnreleasedIndex(sections)], KeyPick(keys))
  {
    hide UnreleasedIndex, StrippedSection;
  }

  /** The first Unreleased section ends up in front. */
  lemma FirstOfFixed(sections: seq<Section>, fixed: seq<Section>)
    requires fixed == SortedSections(NormalizedAll(sections))
    ensures var u := UnreleasedIndex(sections);
            if u < |sections| then UnreleasedIndex(fixed) == 0 && fixed != [] && fixed[0] == Normalized(sections[u])
            else UnreleasedIndex(fixed) == |fixed|
  {
    hide *;
    var normalized := NormalizedAll(sections);
    forall k | 0 <= k < |sections| ensures normalized[k].title == sections[k].title {
      NormalizedTitle(sections[k]);
    }
    SameIndex(normalized, sections);
    SortedFirst(normalized);
  }

  // ---- a second fix that drops nothing ----

  lemma SecondFixNormalizes(sections: seq<Section>, fixed: seq<Section>, again: seq<Section>)
    requires NumericReleases(sections) && fixed == SortedSections(NormalizedAll(sections))
    requires CleanSections(again) == CleanSections(fixed)
    ensures SortedSections(NormalizedAll(again)) == fixed <==> AllMergeCleanly(sections)
  {
    hide SortedSections, Normalized, CleanSection, MergesCleanly, NumericReleases;
    var next := NormalizedAll(again);
    assert |CleanSections(again)| == |CleanSections(fixed)|;
    forall k | 0 <= k < |again| ensures next[k] == Normalized(fixed[k]) && next[k].title == fixed[k].title {
      assert CleanSections(again)[k] == CleanSections(fixed)[k];
      NormalizedOfClean(again[k]);
      NormalizedOfClean(fixed[k]);
      NormalizedTitle(fixed[k]);
    }
    NormalizedNumeric(sections);
    SortedByTitles(NormalizedAll(sections), next);
    EachNormalTwice(sections, fixed);
    if forall k :: 0 <= k < |fixed| ==> Normalized(fixed[k]) == fixed[k] {
      assert next == fixed;
    }
  }

  lemma NormalizedNumeric(sections: seq<Section>)
    requires NumericReleases(sections)
    ensures NumericReleases(NormalizedAll(sections))
  {
    hide IsReleased, Version, Numeric, Normalized;
    var normalized := NormalizedAll(sections);
    forall s | s in normalized && IsReleased(s) ensures Numeric(Version(s.title)) {
      var j :| 0 <= j < |normalized| && normalized[j] == s;
      NormalizedTitle(sections[j]);
      SameTitleReleased(sections[j], s);
      assert sections[j] in sections;
    }
  }

  lemma EachNormalTwice(sections: seq<Section>, fixed: seq<Section>)
    requires fixed == SortedSections(NormalizedAll(sections))
    ensures (forall k :: 0 <= k < |fixed| ==> Normalized(fixed[k]) == fixed[k]) <==> AllMergeCleanly(sections)
  {
    hide SortedSections, Normalized, MergesCleanly;
    var normalized := NormalizedAll(sections);
    SortedMembers(normalized);
    forall j | 0 <= j < |sections|
      ensures Normalized(normalized[j]) == normalized[j] <==> MergesCleanly(sections[j].subsections)
    {
      NormalTwice(sections[j]);
    }
    if forall k :: 0 <= k < |fixed| ==> Normalized(fixed[k]) == fixed[k] {
      forall j | 0 <= j < |sections| ensures MergesCleanly(sections[j].subsections) {
        assert normalized[j] in fixed;
        var k :| 0 <= k < |fixed| && fixed[k] == normalized[j];
      }
    }
    if AllMergeCleanly(sections) {
      forall k | 0 <= k < |fixed| ensures Normalized(fixed[k]) == fixed[k] {
        assert fixed[k] in normalized;
        var j :| 0 <= j < |normalized| && normalized[j] == fixed[k];
        assert MergesCleanly(sections[j].subsections);
      }
    }
  }

  // ---- the whole changelog ----

  lemma FixedAreClean(sections: seq<Section>)
    ensures CleanSections(SortedSections(NormalizedAll(sections))) == SortedSections(NormalizedAll(sections))
  {
    hide SortedSections, NormalizedAll, CleanSection, UniqueTitles, Normalized;
    var fixed := SortedSections(NormalizedAll(sections));
    forall k | 0 <= k < |fixed| ensures CleanSection(fixed[k]) == fixed[k] {
      FixedAreUnique(sections, k);
    }
  }

  /** Without promotable lines the fix drops, normalises and sorts. */
  lemma FixWithoutPromotion(sections: seq<Section>, keys: set<string>)
    ensures FixedSections(sections, {}, keys) == SortedSections(NormalizedAll(Dropped(sections, keys)))
  {
    hide *;
    FixedSectionsIs(sections, {}, keys);
    NothingPromoted(Dropped(sections, keys));
  }

  /** Two fixes have the same text exactly if they have the same sections. */
  lemma SameTextSameSections(content: string, keys: set<string>, keysAgain: set<string>)
    ensures Fixed(Fixed(content, {}, keys), {}, keysAgain) == Fixed(content, {}, keys)
       <==> FixedSections(Parse(Fixed(content, {}, keys)).sections, {}, keysAgain) == FixedSections(Parse(content).sections, {}, keys)
  {
    hide *;
    var once := Fixed(content, {}, keys);
    var fixed, next := FixedSections(Parse(content).sections, {}, keys), FixedSections(Parse(once).sections, {}, keysAgain);
    FixWithoutPromotion(Parse(content).sections, keys);
    FixWithoutPromotion(Parse(once).sections, keysAgain);
    FixedAreClean(Dropped(Parse(content).sections, keys));
    FixedAreClean(Dropped(Parse(once).sections, keysAgain));
    FixedReadsBack(content, {}, keys);
    FixedReadsBack(once, {}, keysAgain);
    FixedIs(content, {}, keys);
    FixedIs(once, {}, keysAgain);
    SameRendering(Parse(once).prefixLines, Parse(content).prefixLines, fixed);
  }

  lemma DroppedNumeric(sections: seq<Section>, keys: set<string>)
    requires NumericReleases(sections)
    ensures NumericReleases(Dropped(sections, keys))
  {
    hide IsReleased, Version, Numeric, Dropped, UnreleasedIndex;
    var dropped := Dropped(sections, keys);
    DroppedTitles(sections, keys);
    forall s | s in dropped && IsReleased(s) ensures Numeric(Version(s.title)) {
      var j :| 0 <= j < |dropped| && dropped[j] == s;
      SameTitleReleased(sections[j], s);
      assert sections[j] in sections;
    }
  }

  /**
   The exact condition, read off the changelog before it is fixed: without
   promotable lines and keys from earlier releases, fixing the fixed changelog
   changes nothing if and only if, with the duplicates of released items out
   of Unreleased, the categories of every title join cleanly in every section,
   and joining them makes no item of Unreleased one that a release has.
   */
  lemma FixTwiceExactly(content: string, keys: set<string>, keysAgain: set<string>)
    requires NumericReleases(Parse(content).sections) && IsKeySet(keys, Parse(content).sections, {})
    requires IsKeySet(keysAgain, Parse(Fixed(content, {}, keys)).sections, {})
    ensures Fixed(Fixed(content, {}, keys), {}, keysAgain) == Fixed(content, {}, keys)
       <==> AllMergeCleanly(Dropped(Parse(content).sections, keys)) && JoinedApart(Dropped(Parse(content).sections, keys))
  {
    hide *;
    var once := Fixed(content, {}, keys);
    var dropped, again := Dropped(Parse(content).sections, keys), Parse(once).sections;
    var fixed := SortedSections(NormalizedAll(dropped));
    SameTextSameSections(content, keys, keysAgain);
    FixWithoutPromotion(Parse(content).sections, keys);
    FixWithoutPromotion(again, keysAgain);
    FixedReadsBack(content, {}, keys);
    DroppedNumeric(Parse(content).sections, keys);
    ApartIsShared(dropped);
    SecondFixNormalizes(dropped, fixed, again);
    ParsedIsSound(once);
    SoundIsNumbered(again);
    if SharesNothing(fixed) {
      SharedMeans(fixed);
      SecondDrops(again, fixed, keysAgain);
    } else {
      IsReadAgain(again, fixed, keysAgain);
      SecondFixDrops(dropped, fixed, again, keysAgain);
    }
  }

  lemma SoundIsNumbered(sections: seq<Section>)
    requires Sound(sections)
    ensures AllNumbered(sections)
  {
  }

  lemma SharedMeans(fixed: seq<Section>)
    requires SharesNothing(fixed)
    ensures forall key {:trigger ReleasedKey(fixed, key)} :: ReleasedKey(fixed, key) ==>
      var u := UnreleasedIndex(fixed); u < |fixed| ==> !SectionHasKey(fixed[u], key)
  {
  }

  lemma IsReadAgain(again: seq<Section>, fixed: seq<Section>, keys: set<string>)
    requires AllNumbered(again) && CleanSections(again) == CleanSections(fixed) && IsKeySet(keys, again, {})
    ensures ReadAgain(again, fixed, keys)
  {
  }

  // ---- repeated categories that begin with an item, and none at all ----

  /** If repeated categories begin with an item, joining them makes no new item, and only the joins count. */
  lemma FixTwiceWithItems(content: string, keys: set<string>, keysAgain: set<string>)
    requires AllRepeatsStart(Parse(content).sections)
    requires NumericReleases(Parse(content).sections) && IsKeySet(keys, Parse(content).sections, {})
    requires IsKeySet(keysAgain, Parse(Fixed(content, {}, keys)).sections, {})
    ensures Fixed(Fixed(content, {}, keys), {}, keysAgain) == Fixed(content, {}, keys)
       <==> AllMergeCleanly(Dropped(Parse(content).sections, keys))
  {
    hide *;
    var sections := Parse(content).sections;
    var dropped := Dropped(sections, keys);
    var fixed := SortedSections(NormalizedAll(dropped));
    ParsedIsSound(content);
    FixWithoutPromotion(sections, keys);
    forall key {:trigger ReleasedKey(fixed, key)} | ReleasedKey(fixed, key)
      ensures var u := UnreleasedIndex(fixed); u < |fixed| ==> !SectionHasKey(fixed[u], key)
    {
      FixedSharesNothing(sections, keys, fixed, key);
    }
    MeansShared(fixed);
    ApartIsShared(dropped);
    FixTwiceExactly(content, keys, keysAgain);
  }

  lemma MeansShared(fixed: seq<Section>)
    requires forall key {:trigger ReleasedKey(fixed, key)} :: ReleasedKey(fixed, key) ==>
      var u := UnreleasedIndex(fixed); u < |fixed| ==> !SectionHasKey(fixed[u], key)
    ensures SharesNothing(fixed)
  {
  }

  lemma UniqueMergesCleanly(subsections: seq<Subsection>)
    requires UniqueTitles(subsections)
    ensures MergesCleanly(subsections)
  {
    hide *;
    UniqueMerge(subsections);
    SettledMeansClean(subsections);
  }

  /** A section without repeated titles is normal after one pass. */
  lemma NormalizedTwice(section: Section)
    requires UniqueTitles(section.subsections)
    ensures Normalized(Normalized(section)) == Normalized(section)
  {
    hide *;
    UniqueMergesCleanly(section.subsections);
    NormalTwice(section);
  }

  /** Without repeated categories a second fix never changes anything. */
  lemma FixTwice(content: string, keys: set<string>, keysAgain: set<string>)
    requires NoRepeatedTitles(Parse(content).sections) && NumericReleases(Parse(content).sections)
    requires IsKeySet(keys, Parse(content).sections, {})
    requires IsKeySet(keysAgain, Parse(Fixed(content, {}, keys)).sections, {})
    ensures Fixed(Fixed(content, {}, keys), {}, keysAgain) == Fixed(content, {}, keys)
  {
    hide Parse, Fixed, NumericReleases, Dropped, IsKeySet, MergesCleanly, UniqueTitles;
    var sections := Parse(content).sections;
    var dropped := Dropped(sections, keys);
    UniqueStart(sections);
    DroppedUnique(sections, keys);
    forall k | 0 <= k < |dropped| ensures MergesCleanly(dropped[k].subsections) {
      UniqueMergesCleanly(dropped[k].subsections);
    }
    FixTwiceWithItems(content, keys, keysAgain);
  }
}
