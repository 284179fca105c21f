/** What the fix does to a whole changelog: nothing is lost, promoted items arrive, and a second run changes nothing. */
module ChangelogOutcome {
  import opened ChangelogText
  import opened ChangelogDocument
  import opened ChangelogRoundTrip
  import opened ChangelogItems
  import opened ChangelogEditing
  import opened ChangelogMerge
  import opened ChangelogPromotion
  import opened ChangelogFix
  import opened ChangelogKept
  import opened ChangelogForm
  import opened Wrappers

  /** In every section, a category whose title came before begins with an item. */
  ghost predicate AllRepeatsStart(sections: seq<Section>) {
    forall k {:trigger sections[k]} :: 0 <= k < |sections| ==> RepeatsStartWithItem(sections[k].subsections)
  }

  /** Sections that can be written out and read back, with numbered lines. */
  ghost predicate Sound(sections: seq<Section>) {
    FormedSections(sections) && AllNumbered(sections)
  }

  lemma SoundAt(sections: seq<Section>, k: nat)
    requires Sound(sections) && k < |sections|
    ensures FormedSection(sections[k]) && NumberedSection(sections[k])
  {
    hide FormedSection, NumberedSection;
    assert FormedSection(sections[k]);
  }

  lemma ParsedIsSound(content: string)
    ensures Sound(Parse(content).sections) && Formed(Parse(content))
  {
    hide ParseLines, Formed, AllNumbered, ContentLines, OneLines, FormedSections;
    var lines := Numbered(ContentLines(content));
    ContentLinesAreLines(content);
    assert Texts(lines) == ContentLines(content);
    ParsedIsFormed(lines);
    ParsedAreNumbered(content);
    FormedParts(Parse(content));
  }

  lemma FormedParts(document: Document)
    ensures Formed(document) <==> NoRelease(Texts(document.prefixLines)) && FormedSections(document.sections)
  {
  }

  // ---- dropping ----

  lemma DroppedIsSound(sections: seq<Section>, keys: set<string>)
    requires Sound(sections)
    ensures Sound(Dropped(sections, keys))
  {
    hide FormedSection, NumberedSection, StrippedSection, KeyPick, UnreleasedIndex;
    var u := UnreleasedIndex(sections);
    if u < |sections| {
      SoundAt(sections, u);
      StrippedSectionIsFormed(sections[u], KeyPick(keys));
      var next := Dropped(sections, keys);
      forall k | 0 <= k < |next| ensures FormedSection(next[k]) && NumberedSection(next[k]) {
        SoundAt(sections, k);
      }
    }
  }

  lemma DroppedRepeats(sections: seq<Section>, keys: set<string>)
    requires Sound(sections) && AllRepeatsStart(sections)
    ensures AllRepeatsStart(Dropped(sections, keys))
  {
    hide FormedSection, RepeatsStartWithItem, Stripped, KeyPick, UnreleasedIndex, Increasing;
    var u := UnreleasedIndex(sections);
    if u < |sections| {
      SoundAt(sections, u);
      StrippedRepeats(sections[u].subsections, KeyPick(keys));
    }
  }

  lemma SectionItem(section: Section, key: string) returns (j: nat, i: nat)
    requires SectionHasKey(section, key)
    ensures j < |section.subsections| && i < |Items(section.subsections[j].lines)|
    ensures ItemKey(Items(section.subsections[j].lines)[i].lines) == key
  {
    hide Items, ItemKey;
    j :| 0 <= j < |section.subsections| && HasKey(section.subsections[j], key);
    i :| 0 <= i < |Items(section.subsections[j].lines)| && ItemKey(Items(section.subsections[j].lines)[i].lines) == key;
  }

  lemma StrippedSectionKeeps(section: Section, pick: ParsedItem -> bool, j: nat, i: nat)
    requires NumberedSection(section) && j < |section.subsections| && i < |Items(section.subsections[j].lines)|
    requires !pick(Items(section.subsections[j].lines)[i])
    ensures SectionHasKey(StrippedSection(section, pick), ItemKey(Items(section.subsections[j].lines)[i].lines))
  {
    hide Items, ItemKey, HasKey, Stripped, Increasing;
    StrippedKeeps(section.subsections[j], pick, i);
    assert StrippedSection(section, pick).subsections[j] == Stripped(section.subsections[j], pick);
  }

  /** What Unreleased drops, a release has. */
  lemma DroppedKeepsKey(sections: seq<Section>, keys: set<string>, key: string)
    requires Sound(sections) && IsKeySet(keys, sections, {}) && DocumentHas(sections, key)
    ensures DocumentHas(Dropped(sections, keys), key)
  {
    hide FormedSection, NumberedSection, StrippedSection, SectionHasKey, UnreleasedIndex, Items, ItemKey;
    var u := UnreleasedIndex(sections);
    var k :| 0 <= k < |sections| && SectionHasKey(sections[k], key);
    var next := Dropped(sections, keys);
    if key in keys {
      assert ReleasedKey(sections, key);
      var r :| 0 <= r < |sections| && IsReleased(sections[r]) && SectionHasKey(sections[r], key);
      assert SectionHasKey(next[r], key);
    } else if k == u {
      SoundAt(sections, u);
      var j, i := SectionItem(sections[u], key);
      assert !KeyPick(keys)(Items(sections[u].subsections[j].lines)[i]);
      StrippedSectionKeeps(sections[u], KeyPick(keys), j, i);
      assert SectionHasKey(next[u], key);
    } else {
      assert SectionHasKey(next[k], key);
    }
  }

  // ---- promoting ----

  lemma TargetIsFormed(sections: seq<Section>, pick: ParsedItem -> bool)
    requires Sound(sections)
    ensures var target := After(Target(sections), Moves(sections, pick)); target.Some? ==> FormedSection(target.value)
  {
    hide FormedSection, Moves, AddAll, UnreleasedIndex;
    NewUnreleasedIsFormed();
    MovesAreFormed(sections, pick);
    if UnreleasedIndex(sections) < |sections| {
      SoundAt(sections, UnreleasedIndex(sections));
    }
    AddAllFormed(Target(sections).GetOr(NEW_UNRELEASED), Moves(sections, pick));
  }

  lemma PromotedIsFormed(sections: seq<Section>, pick: ParsedItem -> bool)
    requires Sound(sections)
    ensures FormedSections(Promoted(sections, pick))
  {
    hide FormedSection, NumberedSection, StrippedSection, Moves, After, UnreleasedIndex;
    TargetIsFormed(sections, pick);
    var base := StrippedReleases(sections, pick);
    forall k | 0 <= k < |base| ensures FormedSection(base[k]) {
      SoundAt(sections, k);
      StrippedSectionIsFormed(sections[k], pick);
    }
    var next := Promoted(sections, pick);
    var target := After(Target(sections), Moves(sections, pick));
    forall k | 0 <= k < |next| ensures FormedSection(next[k]) {
      assert k < |base| ==> FormedSection(base[k]);
      assert k > 0 ==> FormedSection(base[k - 1]);
    }
  }

  lemma PromotedRepeats(sections: seq<Section>, pick: ParsedItem -> bool)
    requires Sound(sections) && AllRepeatsStart(sections)
    ensures AllRepeatsStart(Promoted(sections, pick))
  {
    hide FormedSection, RepeatsStartWithItem, Stripped, Moves, UnreleasedIndex, Increasing, AddAll;
    var base := StrippedReleases(sections, pick);
    forall k | 0 <= k < |base| ensures RepeatsStartWithItem(base[k].subsections) {
      SoundAt(sections, k);
      assert RepeatsStartWithItem(sections[k].subsections);
      StrippedRepeats(sections[k].subsections, pick);
    }
    MovesAreItems(sections, pick);
    NoRepeats();
    AddAllRepeats(Target(sections).GetOr(NEW_UNRELEASED), Moves(sections, pick));
    var next := Promoted(sections, pick);
    forall k | 0 <= k < |next| ensures RepeatsStartWithItem(next[k].subsections) {
      assert k < |base| ==> RepeatsStartWithItem(base[k].subsections);
      assert k > 0 ==> RepeatsStartWithItem(base[k - 1].subsections);
    }
  }

  lemma NoRepeats()
    ensures RepeatsStartWithItem([])
  {
  }

  /** Unreleased, with what was added, is among the sections. */
  lemma PromotedHoldsTarget(sections: seq<Section>, pick: ParsedItem -> bool)
    requires After(Target(sections), Moves(sections, pick)).Some?
    ensures After(Target(sections), Moves(sections, pick)).value in Promoted(sections, pick)
  {
    hide StrippedRelease, Moves, UnreleasedIndex, AddAll;
    var u := UnreleasedIndex(sections);
    var p := if u < |sections| then u else 0;
    assert Promoted(sections, pick)[p] == After(Target(sections), Moves(sections, pick)).value;
  }

  /** So is every other section, stripped if it is a release. */
  lemma PromotedHolds(sections: seq<Section>, pick: ParsedItem -> bool, k: nat)
    requires k < |sections| && k != UnreleasedIndex(sections)
    ensures StrippedRelease(sections[k], pick) in Promoted(sections, pick)
  {
    hide StrippedRelease, Moves, UnreleasedIndex, After, WithTarget, Target;
    OthersStay(StrippedReleases(sections, pick), UnreleasedIndex(sections), After(Target(sections), Moves(sections, pick)), k);
  }

  lemma OthersStay(base: seq<Section>, u: nat, target: Option<Section>, k: nat)
    requires k < |base| && k != u
    ensures base[k] in WithTarget(base, u, target)
  {
    if target.Some? && u >= |base| {
      assert ([target.value] + base)[k + 1] == base[k];
    } else if target.Some? {
      assert base[u := target.value][k] == base[k];
    }
  }

  /** The item has arrived in Unreleased, under its title. */
  ghost predicate InUnreleased(sections: seq<Section>, title: string, key: string) {
    exists k {:trigger sections[k]} :: 0 <= k < |sections| && !IsReleased(sections[k]) && Has(sections[k].subsections, title, key)
  }

  lemma TargetHasMove(sections: seq<Section>, pick: ParsedItem -> bool, move: Move)
    requires Among(Moves(sections, pick), move)
    ensures InUnreleased(Promoted(sections, pick), move.title, ItemKey(move.lines))
  {
    hide Moves, UnreleasedIndex, AddAll, Has, ItemKey, Promoted;
    var moves := Moves(sections, pick);
    var start := Target(sections).GetOr(NEW_UNRELEASED);
    MovesAreItems(sections, pick);
    AddAllHas(start, moves, move.title, ItemKey(move.lines));
    AddAllKeepsTitle(start, moves);
    var i :| 0 <= i < |moves| && moves[i] == move;
    PromotedHoldsTarget(sections, pick);
    var p :| 0 <= p < |Promoted(sections, pick)| && Promoted(sections, pick)[p] == After(Target(sections), moves).value;
  }

  lemma UnreleasedHas(sections: seq<Section>, title: string, key: string)
    requires InUnreleased(sections, title, key)
    ensures DocumentHas(sections, key)
  {
    hide Has, SectionHasKey;
    var k :| 0 <= k < |sections| && !IsReleased(sections[k]) && Has(sections[k].subsections, title, key);
    SectionHas(sections[k], key);
  }

  /** Promotion loses no item. */
  lemma PromotedKeepsKey(sections: seq<Section>, pick: ParsedItem -> bool, key: string)
    requires Sound(sections) && DocumentHas(sections, key)
    ensures DocumentHas(Promoted(sections, pick), key)
  {
    hide FormedSection, NumberedSection, StrippedSection, SectionHasKey, UnreleasedIndex, Items, ItemKey, Moves, After, Promoted, Among, Has;
    var k :| 0 <= k < |sections| && SectionHasKey(sections[k], key);
    var u := UnreleasedIndex(sections);
    SoundAt(sections, k);
    if k == u {
      TargetKeeps(sections, pick, key);
    } else if !IsReleased(sections[k]) {
      PromotedHolds(sections, pick, k);
      var p :| 0 <= p < |Promoted(sections, pick)| && Promoted(sections, pick)[p] == StrippedRelease(sections[k], pick);
      assert SectionHasKey(Promoted(sections, pick)[p], key);
    } else {
      var j, i := SectionItem(sections[k], key);
      var s := sections[k].subsections[j];
      if pick(Items(s.lines)[i]) {
        Moved(sections, pick, k, j, i);
        TargetHasMove(sections, pick, Move(s.title, Items(s.lines)[i].lines));
        UnreleasedHas(Promoted(sections, pick), s.title, key);
      } else {
        StrippedSectionKeeps(sections[k], pick, j, i);
        PromotedHolds(sections, pick, k);
        var p :| 0 <= p < |Promoted(sections, pick)| && Promoted(sections, pick)[p] == StrippedRelease(sections[k], pick);
        assert SectionHasKey(Promoted(sections, pick)[p], key);
      }
    }
  }

  lemma TargetKeeps(sections: seq<Section>, pick: ParsedItem -> bool, key: string)
    requires UnreleasedIndex(sections) < |sections| && SectionHasKey(sections[UnreleasedIndex(sections)], key)
    ensures DocumentHas(Promoted(sections, pick), key)
  {
    hide Moves, UnreleasedIndex, AddAll, Has, ItemKey, Promoted, SectionHasKey;
    var moves := Moves(sections, pick);
    var start := sections[UnreleasedIndex(sections)];
    SectionHas(start, key);
    var t :| Has(start.subsections, t, key);
    MovesAreItems(sections, pick);
    AddAllHas(start, moves, t, key);
    SectionHas(AddAll(start, moves), key);
    PromotedHoldsTarget(sections, pick);
    var p :| 0 <= p < |Promoted(sections, pick)| && Promoted(sections, pick)[p] == After(Target(sections), moves).value;
    assert SectionHasKey(Promoted(sections, pick)[p], key);
  }

  /** After promotion no release has an item that starts on a promotable line. */
  lemma ReleasesGiveUp(sections: seq<Section>, starts: set<nat>, k: nat, j: nat, i: nat)
    requires AllNumbered(sections) && k < |sections| && IsReleased(sections[k]) && j < |sections[k].subsections|
    requires i < |Items(StrippedRelease(sections[k], StartPick(starts)).subsections[j].lines)|
    ensures Items(StrippedRelease(sections[k], StartPick(starts)).subsections[j].lines)[i].startLine !in starts
    ensures Items(StrippedRelease(sections[k], StartPick(starts)).subsections[j].lines)
         == Picked(Items(sections[k].subsections[j].lines), StartPick(starts), false)
  {
    hide Items, Picked, Without, NextItem;
    var s := sections[k].subsections[j];
    assert NumberedSection(sections[k]) && Increasing(s.lines);
    RemovingLeavesOthers(s.lines, StartPick(starts));
    PickedAre(Items(s.lines), StartPick(starts), false, i);
  }

  // ---- normalising, sorting, writing ----

  lemma NormalizedAllKeeps(sections: seq<Section>, key: string)
    requires AllRepeatsStart(sections) && DocumentHas(sections, key)
    ensures DocumentHas(NormalizedAll(sections), key)
  {
    hide RepeatsStartWithItem, Has, Normalized, SectionHasKey;
    var k :| 0 <= k < |sections| && SectionHasKey(sections[k], key);
    SectionHas(sections[k], key);
    var t :| Has(sections[k].subsections, t, key);
    NormalizedKeepsKeys(sections[k], t, key);
    SectionHas(Normalized(sections[k]), key);
    assert SectionHasKey(NormalizedAll(sections)[k], key);
  }

  lemma NormalizedAllArrives(sections: seq<Section>, title: string, key: string)
    requires AllRepeatsStart(sections) && InUnreleased(sections, title, key)
    ensures InUnreleased(NormalizedAll(sections), title, key)
  {
    hide RepeatsStartWithItem, Has, MergeAll, InOrder;
    var k :| 0 <= k < |sections| && !IsReleased(sections[k]) && Has(sections[k].subsections, title, key);
    NormalizedKeepsKeys(sections[k], title, key);
    var next := NormalizedAll(sections)[k];
  }

  lemma {:induction false} SelectMembers(sections: seq<Section>, released: bool)
    ensures forall s :: s in Select(sections, released) <==> s in sections && IsReleased(s) == released
  {
    if sections != [] {
      SelectMembers(sections[1..], released);
      assert sections == [sections[0]] + sections[1..];
    }
  }

  lemma SortedMembers(sections: seq<Section>)
    ensures forall s :: s in SortedSections(sections) <==> s in sections
  {
    hide IsReleased, Select, NewestFirst;
    var list := Select(sections, true);
    SelectMembers(sections, true);
    SelectMembers(sections, false);
    forall s ensures s in NewestFirst(list) <==> s in list {
      assert s in multiset(list) <==> s in multiset(NewestFirst(list));
    }
  }

  lemma SortedKeeps(sections: seq<Section>, key: string)
    requires DocumentHas(sections, key)
    ensures DocumentHas(SortedSections(sections), key)
  {
    hide SectionHasKey, SortedSections;
    SortedMembers(sections);
    var k :| 0 <= k < |sections| && SectionHasKey(sections[k], key);
    assert sections[k] in SortedSections(sections);
    var p :| 0 <= p < |SortedSections(sections)| && SortedSections(sections)[p] == sections[k];
  }

  lemma SortedArrives(sections: seq<Section>, title: string, key: string)
    requires InUnreleased(sections, title, key)
    ensures InUnreleased(SortedSections(sections), title, key)
  {
    hide Has, SortedSections, IsReleased;
    SortedMembers(sections);
    var k :| 0 <= k < |sections| && !IsReleased(sections[k]) && Has(sections[k].subsections, title, key);
    assert sections[k] in SortedSections(sections);
    var p :| 0 <= p < |SortedSections(sections)| && SortedSections(sections)[p] == sections[k];
  }

  lemma {:induction false} CleanHas(subsections: seq<Subsection>, t: string, key: string)
    ensures Has(CleanSubsections(subsections), t, key) <==> Has(subsections, t, key)
  {
    hide HasKey, Has, Body, CleanLines;
    if subsections != [] {
      var first, rest := subsections[0], subsections[1..];
      CleanHas(rest, t, key);
      CleanCons(first, rest);
      assert subsections == [first] + rest;
      ConsHas(first, rest, t, key);
      CleanOneHas(first, key);
      if Body(first.lines) != [] {
        ConsHas(Subsection(first.title, CleanLines(first.lines)), CleanSubsections(rest), t, key);
      } else {
        assert [] + CleanSubsections(rest) == CleanSubsections(rest);
      }
    }
  }

  lemma ConsHas(first: Subsection, rest: seq<Subsection>, t: string, key: string)
    ensures Has([first] + rest, t, key) <==> (first.title == t && HasKey(first, key)) || Has(rest, t, key)
  {
    hide HasKey;
    var all := [first] + rest;
    if first.title == t && HasKey(first, key) {
      assert all[0] == first;
    }
    if Has(rest, t, key) {
      var j :| 0 <= j < |rest| && rest[j].title == t && HasKey(rest[j], key);
      assert all[j + 1] == rest[j];
    }
  }

  lemma CleanOneHas(s: Subsection, key: string)
    ensures HasKey(Subsection(s.title, CleanLines(s.lines)), key) <==> HasKey(s, key)
    ensures Body(s.lines) == [] ==> !HasKey(s, key)
  {
    hide HasKey, KeyAmong, ItemTexts, TrimBlank;
    var clean := Subsection(s.title, CleanLines(s.lines));
    assert Texts(CleanLines(s.lines)) == Body(s.lines);
    ItemsOfTrimmed(Texts(s.lines));
    KeysOfTexts(clean, key);
    KeysOfTexts(s, key);
    NothingToParse();
    NoKeys(s.title, key);
  }

  lemma CleanSectionHas(a: Section, b: Section, t: string, key: string)
    requires CleanSection(a) == CleanSection(b)
    ensures Has(a.subsections, t, key) <==> Has(b.subsections, t, key)
    ensures a.title == b.title && a.heading == b.heading
  {
    hide Has, CleanSubsections, CleanLines;
    CleanHas(a.subsections, t, key);
    CleanHas(b.subsections, t, key);
  }

  /** What is read back from the output has the same sections, up to blank lines, line numbers and empty categories. */
  lemma FixedReadsBack(content: string, starts: set<nat>, keys: set<string>)
    ensures CleanSections(Parse(Fixed(content, starts, keys)).sections)
         == CleanSections(FixedSections(Parse(content).sections, starts, keys))
    ensures CleanLines(Parse(Fixed(content, starts, keys)).prefixLines) == CleanLines(Parse(content).prefixLines)
  {
    hide Parse, Render, FixedSections, Formed, CleanSections, CleanLines;
    var document := Parse(content);
    var fixed := Document(document.prefixLines, FixedSections(document.sections, starts, keys));
    ParsedIsSound(content);
    FixedIsFormed(document, starts, keys);
    RenderRoundTrip(fixed);
  }

  lemma FixedIsFormed(document: Document, starts: set<nat>, keys: set<string>)
    requires Formed(document) && Sound(document.sections)
    ensures Formed(Document(document.prefixLines, FixedSections(document.sections, starts, keys)))
  {
    hide FormedSection, NumberedSection, Dropped, Promoted, SortedSections, Normalized, StartPick, NoRelease;
    var dropped := Dropped(document.sections, keys);
    DroppedIsSound(document.sections, keys);
    var promoted := Promoted(dropped, StartPick(starts));
    PromotedIsFormed(dropped, StartPick(starts));
    var normalized := NormalizedAll(promoted);
    forall k | 0 <= k < |normalized| ensures FormedSection(normalized[k]) {
      assert FormedSection(promoted[k]);
      NormalizedIsFormed(promoted[k]);
    }
    SortedMembers(normalized);
    var sorted := SortedSections(normalized);
    forall k | 0 <= k < |sorted| ensures FormedSection(sorted[k]) {
      assert sorted[k] in normalized;
    }
  }

  /** An item of the output's sections is an item of the output as read back. */
  lemma ReadBackHas(a: seq<Section>, b: seq<Section>, key: string)
    requires CleanSections(a) == CleanSections(b) && DocumentHas(a, key)
    ensures DocumentHas(b, key)
  {
    hide SectionHasKey, CleanSection, Has;
    var k :| 0 <= k < |a| && SectionHasKey(a[k], key);
    assert CleanSections(a)[k] == CleanSections(b)[k];
    SectionHas(a[k], key);
    var t :| Has(a[k].subsections, t, key);
    CleanSectionHas(a[k], b[k], t, key);
    SectionHas(b[k], key);
    assert SectionHasKey(b[k], key);
  }

  lemma ReadBackArrives(a: seq<Section>, b: seq<Section>, title: string, key: string)
    requires CleanSections(a) == CleanSections(b) && InUnreleased(a, title, key)
    ensures InUnreleased(b, title, key)
  {
    hide CleanSection, Has;
    var k :| 0 <= k < |a| && !IsReleased(a[k]) && Has(a[k].subsections, title, key);
    assert CleanSections(a)[k] == CleanSections(b)[k];
    CleanSectionHas(a[k], b[k], title, key);
    assert !IsReleased(b[k]);
  }

  /**
   No entry is lost: without keys from earlier releases, and with repeated
   categories beginning with an item, every item of the changelog is an item
   of the fixed changelog.
   */
  lemma NoKeyIsLost(content: string, starts: set<nat>, keys: set<string>, key: string)
    requires IsKeySet(keys, Parse(content).sections, {})
    requires AllRepeatsStart(Parse(content).sections)
    requires DocumentHas(Parse(content).sections, key)
    ensures DocumentHas(Parse(Fixed(content, starts, keys)).sections, key)
  {
    hide *;
    var sections := Parse(content).sections;
    ParsedIsSound(content);
    var dropped := Dropped(sections, keys);
    DroppedKeepsKey(sections, keys, key);
    DroppedIsSound(sections, keys);
    DroppedRepeats(sections, keys);
    var promoted := Promoted(dropped, StartPick(starts));
    PromotedKeepsKey(dropped, StartPick(starts), key);
    PromotedRepeats(dropped, StartPick(starts));
    NormalizedAllKeeps(promoted, key);
    SortedKeeps(NormalizedAll(promoted), key);
    FixedSectionsIs(sections, starts, keys);
    FixedReadsBack(content, starts, keys);
    ReadBackHas(FixedSections(sections, starts, keys), Parse(Fixed(content, starts, keys)).sections, key);
  }

  /** Every item of a release that starts on a promotable line is, in the fixed changelog, under the same title in Unreleased. */
  lemma PromotedKeyArrives(content: string, starts: set<nat>, keys: set<string>, k: nat, j: nat, i: nat)
    requires AllRepeatsStart(Parse(content).sections)
    requires k < |Parse(content).sections| && IsReleased(Parse(content).sections[k])
    requires j < |Parse(content).sections[k].subsections|
    requires i < |Items(Parse(content).sections[k].subsections[j].lines)|
    requires Items(Parse(content).sections[k].subsections[j].lines)[i].startLine in starts
    ensures var s := Parse(content).sections[k].subsections[j];
            InUnreleased(Parse(Fixed(content, starts, keys)).sections, s.title, ItemKey(Items(s.lines)[i].lines))
  {
    hide Parse, Items, Dropped, Promoted, FixedSections, Fixed, AllRepeatsStart, Sound, InUnreleased, ItemKey, Moves, NormalizedAll,
         SortedSections, CleanSections, Among;
    var sections := Parse(content).sections;
    var s := sections[k].subsections[j];
    var key := ItemKey(Items(s.lines)[i].lines);
    ParsedIsSound(content);
    var dropped := Dropped(sections, keys);
    DroppedIsSound(sections, keys);
    DroppedRepeats(sections, keys);
    ReleasesStay(sections, keys, k);
    Moved(dropped, StartPick(starts), k, j, i);
    var promoted := Promoted(dropped, StartPick(starts));
    TargetHasMove(dropped, StartPick(starts), Move(s.title, Items(s.lines)[i].lines));
    PromotedRepeats(dropped, StartPick(starts));
    NormalizedAllArrives(promoted, s.title, key);
    SortedArrives(NormalizedAll(promoted), s.title, key);
    FixedSectionsIs(sections, starts, keys);
    FixedReadsBack(content, starts, keys);
    ReadBackArrives(FixedSections(sections, starts, keys), Parse(Fixed(content, starts, keys)).sections, s.title, key);
  }

  lemma ReleasesStay(sections: seq<Section>, keys: set<string>, k: nat)
    requires k < |sections| && IsReleased(sections[k])
    ensures k < |Dropped(sections, keys)| && Dropped(sections, keys)[k] == sections[k]
  {
    hide StrippedSection, UnreleasedIndex;
  }
}
