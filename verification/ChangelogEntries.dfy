/** The entries of a changelog by their lines: which are dropped, which arrive in Unreleased, and that none is lost. */
module ChangelogEntries {
  import opened ChangelogText
  import opened ChangelogDocument
  import opened ChangelogRoundTrip
  import opened ChangelogItems
  import opened ChangelogEditing
  import opened ChangelogMerge
  import opened ChangelogBodies
  import opened ChangelogPromotion
  import opened ChangelogFix
  import opened ChangelogKept
  import opened ChangelogForm
  import opened ChangelogOutcome
  import opened ChangelogAbsorbed

  // ---- entries and keys ----

  /** The text of an item: single lines, the first a list item and none of the others, no blank line at the end. */
  ghost predicate IsEntry(lines: seq<string>) {
    IsItemText(lines) && OneLines(lines)
  }

  /** An item with exactly these lines. */
  ghost predicate HasEntry(s: Subsection, lines: seq<string>) {
    exists i :: 0 <= i < |Items(s.lines)| && Items(s.lines)[i].lines == lines
  }

  ghost predicate SectionHasEntry(section: Section, lines: seq<string>) {
    exists j :: 0 <= j < |section.subsections| && HasEntry(section.subsections[j], lines)
  }

  ghost predicate DocumentHasEntry(sections: seq<Section>, lines: seq<string>) {
    exists k :: 0 <= k < |sections| && SectionHasEntry(sections[k], lines)
  }

  /** Some release has the entry. */
  ghost predicate Released(sections: seq<Section>, lines: seq<string>) {
    exists k :: 0 <= k < |sections| && IsReleased(sections[k]) && SectionHasEntry(sections[k], lines)
  }

  /** Some category of the title in Unreleased has the entry. */
  ghost predicate Arrived(sections: seq<Section>, title: string, lines: seq<string>) {
    exists k, j :: && 0 <= k < |sections| && !IsReleased(sections[k]) && 0 <= j < |sections[k].subsections|
                   && sections[k].subsections[j].title == title && HasEntry(sections[k].subsections[j], lines)
  }

  lemma PlainAreLines(texts: seq<string>)
    requires PlainLines(texts)
    ensures OneLines(texts)
  {
    hide OneLine, IsReleaseHeading, IsSubsectionHeading;
  }

  /** What a category of the document has are entries. */
  lemma EntryIs(s: Subsection, lines: seq<string>)
    requires FormedSubsection(s) && HasEntry(s, lines)
    ensures IsEntry(lines)
  {
    hide FormedSubsection, Items, PlainLines, IsItemText;
    var i :| 0 <= i < |Items(s.lines)| && Items(s.lines)[i].lines == lines;
    ItemIsFormed(s, i);
    PlainAreLines(lines);
  }

  /** Of two entries with one key both are the same. */
  lemma EntryKeys(a: seq<string>, b: seq<string>)
    requires IsEntry(a) && IsEntry(b)
    ensures ItemKey(a) == ItemKey(b) <==> a == b
    ensures ItemKey(a) != ""
  {
    hide IsItemText, ItemKey, TrimBlank, OneLines;
    ItemKeyIsText(a);
    ItemKeyIsText(b);
    KeyIsText(a, b);
  }

  lemma KeyIsEntry(s: Subsection, lines: seq<string>)
    requires FormedSubsection(s) && IsEntry(lines)
    ensures HasKey(s, ItemKey(lines)) <==> HasEntry(s, lines)
  {
    hide FormedSubsection, Items, ItemKey, IsEntry;
    forall i | 0 <= i < |Items(s.lines)|
      ensures ItemKey(Items(s.lines)[i].lines) == ItemKey(lines) <==> Items(s.lines)[i].lines == lines
    {
      assert HasEntry(s, Items(s.lines)[i].lines);
      EntryIs(s, Items(s.lines)[i].lines);
      EntryKeys(Items(s.lines)[i].lines, lines);
    }
    if HasEntry(s, lines) {
      var i :| 0 <= i < |Items(s.lines)| && Items(s.lines)[i].lines == lines;
      assert ItemKey(Items(s.lines)[i].lines) == ItemKey(lines);
    }
  }

  lemma SectionKeyIsEntry(section: Section, lines: seq<string>)
    requires FormedSection(section) && IsEntry(lines)
    ensures SectionHasKey(section, ItemKey(lines)) <==> SectionHasEntry(section, lines)
  {
    hide FormedSection, FormedSubsection, HasKey, HasEntry, ItemKey, IsEntry;
    PartsFormed(section);
    forall j | 0 <= j < |section.subsections|
      ensures HasKey(section.subsections[j], ItemKey(lines)) <==> HasEntry(section.subsections[j], lines)
    {
      assert FormedSubsection(section.subsections[j]);
      KeyIsEntry(section.subsections[j], lines);
    }
  }

  lemma SectionEntryIs(section: Section, lines: seq<string>)
    requires FormedSection(section) && SectionHasEntry(section, lines)
    ensures IsEntry(lines)
  {
    hide FormedSection, FormedSubsection, HasEntry, IsEntry;
    PartsFormed(section);
    var j :| 0 <= j < |section.subsections| && HasEntry(section.subsections[j], lines);
    assert FormedSubsection(section.subsections[j]);
    EntryIs(section.subsections[j], lines);
  }

  lemma DocumentKeyIsEntry(sections: seq<Section>, lines: seq<string>)
    requires FormedSections(sections) && IsEntry(lines)
    ensures DocumentHas(sections, ItemKey(lines)) <==> DocumentHasEntry(sections, lines)
    ensures ReleasedKey(sections, ItemKey(lines)) <==> Released(sections, lines)
  {
    hide FormedSection, SectionHasKey, SectionHasEntry, ItemKey, IsEntry;
    EntryKeys(lines, lines);
    forall k | 0 <= k < |sections|
      ensures SectionHasKey(sections[k], ItemKey(lines)) <==> SectionHasEntry(sections[k], lines)
    {
      assert FormedSection(sections[k]);
      SectionKeyIsEntry(sections[k], lines);
    }
  }

  lemma DocumentEntryIs(sections: seq<Section>, lines: seq<string>)
    requires FormedSections(sections) && DocumentHasEntry(sections, lines)
    ensures IsEntry(lines)
  {
    hide FormedSection, SectionHasEntry, IsEntry;
    var k :| 0 <= k < |sections| && SectionHasEntry(sections[k], lines);
    assert FormedSection(sections[k]);
    SectionEntryIs(sections[k], lines);
  }

  lemma ArrivedKey(sections: seq<Section>, title: string, lines: seq<string>)
    requires FormedSections(sections) && IsEntry(lines) && InUnreleased(sections, title, ItemKey(lines))
    ensures Arrived(sections, title, lines)
  {
    hide FormedSection, FormedSubsection, HasKey, HasEntry, ItemKey, IsEntry;
    var key := ItemKey(lines);
    var k :| 0 <= k < |sections| && !IsReleased(sections[k]) && Has(sections[k].subsections, title, key);
    assert FormedSection(sections[k]);
    PartsFormed(sections[k]);
    var subsections := sections[k].subsections;
    var j :| 0 <= j < |subsections| && subsections[j].title == title && HasKey(subsections[j], key);
    assert FormedSubsection(subsections[j]);
    KeyIsEntry(subsections[j], lines);
  }

  // ---- what is dropped ----

  /** The entries Unreleased gives up: some release has the same lines, or they are known from earlier. */
  ghost function Repeats(sections: seq<Section>, historical: set<string>): ParsedItem -> bool {
    (item: ParsedItem) => Join(item.lines) in historical || Released(sections, item.lines)
  }

  lemma {:induction false} PickedAlike(items: seq<ParsedItem>, p: ParsedItem -> bool, q: ParsedItem -> bool, want: bool)
    requires forall i :: 0 <= i < |items| ==> p(items[i]) == q(items[i])
    ensures Picked(items, p, want) == Picked(items, q, want)
  {
    if items != [] {
      assert forall i :: 0 <= i < |items[1..]| ==> items[1..][i] == items[i + 1];
      PickedAlike(items[1..], p, q, want);
    }
  }

  lemma RepeatsAre(sections: seq<Section>, keys: set<string>, historical: set<string>, item: ParsedItem)
    requires FormedSections(sections) && IsKeySet(keys, sections, historical) && IsEntry(item.lines)
    ensures KeyPick(keys)(item) == Repeats(sections, historical)(item)
  {
    hide FormedSections, IsItemText, TrimBlank, ReleasedKey, Released, OneLines;
    ItemKeyIsText(item.lines);
    DocumentKeyIsEntry(sections, item.lines);
  }

  /** Each category of Unreleased keeps exactly its entries that no release has, in order. */
  lemma DroppedExactly(sections: seq<Section>, keys: set<string>, historical: set<string>, j: nat)
    requires Sound(sections) && IsKeySet(keys, sections, historical)
    requires UnreleasedIndex(sections) < |sections| && j < |sections[UnreleasedIndex(sections)].subsections|
    ensures var u := UnreleasedIndex(sections);
      && |Dropped(sections, keys)[u].subsections| == |sections[u].subsections|
      && Items(Dropped(sections, keys)[u].subsections[j].lines)
           == Picked(Items(sections[u].subsections[j].lines), Repeats(sections, historical), false)
  {
    hide FormedSection, FormedSubsection, IsKeySet, Items, Picked, Without, Increasing, UnreleasedIndex, KeyPick, Repeats, NextItem, IsEntry;
    var u := UnreleasedIndex(sections);
    SoundAt(sections, u);
    PartsFormed(sections[u]);
    var s := sections[u].subsections[j];
    assert FormedSubsection(s) && Increasing(s.lines);
    RemovingLeavesOthers(s.lines, KeyPick(keys));
    var items := Items(s.lines);
    forall i | 0 <= i < |items| ensures KeyPick(keys)(items[i]) == Repeats(sections, historical)(items[i]) {
      assert HasEntry(s, items[i].lines);
      EntryIs(s, items[i].lines);
      RepeatsAre(sections, keys, historical, items[i]);
    }
    PickedAlike(items, KeyPick(keys), Repeats(sections, historical), false);
  }

  /** What Unreleased drops, a release has, line for line. */
  lemma DroppedKeeps(sections: seq<Section>, keys: set<string>, lines: seq<string>)
    requires Sound(sections) && IsKeySet(keys, sections, {}) && DocumentHasEntry(sections, lines)
    ensures DocumentHasEntry(Dropped(sections, keys), lines)
  {
    hide FormedSections, AllNumbered, IsKeySet, DocumentHas, DocumentHasEntry, ReleasedKey, Released, Dropped, ItemKey, IsEntry;
    DocumentEntryIs(sections, lines);
    DocumentKeyIsEntry(sections, lines);
    DroppedKeepsKey(sections, keys, ItemKey(lines));
    DroppedIsSound(sections, keys);
    DocumentKeyIsEntry(Dropped(sections, keys), lines);
  }

  /** Promotion loses no entry. */
  lemma PromotedKeeps(sections: seq<Section>, pick: ParsedItem -> bool, lines: seq<string>)
    requires Sound(sections) && DocumentHasEntry(sections, lines)
    ensures DocumentHasEntry(Promoted(sections, pick), lines)
  {
    hide FormedSections, AllNumbered, DocumentHas, DocumentHasEntry, ReleasedKey, Released, Promoted, ItemKey, IsEntry;
    DocumentEntryIs(sections, lines);
    DocumentKeyIsEntry(sections, lines);
    PromotedKeepsKey(sections, pick, ItemKey(lines));
    PromotedIsFormed(sections, pick);
    DocumentKeyIsEntry(Promoted(sections, pick), lines);
  }

  // ---- the whole fix ----

  /** A changelog as it is read has an entry exactly if it has the key of the entry. */
  lemma ParsedKeyIsEntry(content: string, lines: seq<string>)
    requires IsEntry(lines)
    ensures DocumentHas(Parse(content).sections, ItemKey(lines)) <==> DocumentHasEntry(Parse(content).sections, lines)
  {
    hide Parse, FormedSections, AllNumbered, Formed, DocumentHas, DocumentHasEntry, ReleasedKey, Released, ItemKey, IsEntry;
    ParsedIsSound(content);
    DocumentKeyIsEntry(Parse(content).sections, lines);
  }

  lemma ParsedEntryIs(content: string, lines: seq<string>)
    requires DocumentHasEntry(Parse(content).sections, lines)
    ensures IsEntry(lines)
  {
    hide Parse, FormedSections, AllNumbered, Formed, DocumentHasEntry, IsEntry;
    ParsedIsSound(content);
    DocumentEntryIs(Parse(content).sections, lines);
  }

  /**
   No entry is lost: without keys from earlier releases, and with repeated
   categories beginning with an item, every entry of the changelog is, with
   the same lines, an entry of the fixed changelog.
   */
  lemma NoEntryIsLost(content: string, starts: set<nat>, keys: set<string>, lines: seq<string>)
    requires IsKeySet(keys, Parse(content).sections, {})
    requires AllRepeatsStart(Parse(content).sections)
    requires DocumentHasEntry(Parse(content).sections, lines)
    ensures DocumentHasEntry(Parse(Fixed(content, starts, keys)).sections, lines)
  {
    hide *;
    ParsedEntryIs(content, lines);
    ParsedKeyIsEntry(content, lines);
    NoKeyIsLost(content, starts, keys, ItemKey(lines));
    ParsedKeyIsEntry(Fixed(content, starts, keys), lines);
  }

  /** Every entry of a release that starts on a promotable line is, with the same lines, under the same title in Unreleased of the fixed changelog. */
  lemma PromotedItemsArrive(content: string, starts: set<nat>, keys: set<string>, k: nat, j: nat, i: nat)
    requires AllRepeatsStart(Parse(content).sections)
    requires k < |Parse(content).sections| && IsReleased(Parse(content).sections[k])
    requires j < |Parse(content).sections[k].subsections|
    requires i < |Items(Parse(content).sections[k].subsections[j].lines)|
    requires Items(Parse(content).sections[k].subsections[j].lines)[i].startLine in starts
    ensures var s := Parse(content).sections[k].subsections[j];
            Arrived(Parse(Fixed(content, starts, keys)).sections, s.title, Items(s.lines)[i].lines)
  {
    hide Parse, Items, Fixed, AllRepeatsStart, FormedSections, AllNumbered, Formed, InUnreleased, Arrived, ItemKey, IsEntry;
    var s := Parse(content).sections[k].subsections[j];
    var lines := Items(s.lines)[i].lines;
    assert HasEntry(s, lines);
    assert SectionHasEntry(Parse(content).sections[k], lines);
    ParsedEntryIs(content, lines);
    PromotedKeyArrives(content, starts, keys, k, j, i);
    ParsedIsSound(Fixed(content, starts, keys));
    ArrivedKey(Parse(Fixed(content, starts, keys)).sections, s.title, lines);
  }

  // ---- the entries of the fixed changelog ----

  /** An entry of the section once its categories are merged. */
  ghost predicate MergedEntry(section: Section, lines: seq<string>) {
    exists title {:trigger BodiesUnder(section.subsections, title)} :: lines in JoinItems(BodiesUnder(section.subsections, title))
  }

  ghost predicate SomeMergedEntry(sections: seq<Section>, lines: seq<string>) {
    exists k {:trigger sections[k]} :: 0 <= k < |sections| && MergedEntry(sections[k], lines)
  }

  lemma JoinedAreEntries(subsections: seq<Subsection>, title: string, lines: seq<string>)
    requires FormedSubsections(subsections) && lines in JoinItems(BodiesUnder(subsections, title))
    ensures IsEntry(lines)
  {
    hide FormedSubsection, BodiesUnder, JoinItems, Joined, MergeAll, AreBodies, Items, ItemTexts, IsEntry;
    var list := MergeAll(subsections);
    MergeJoinsBodies(subsections);
    MergedAreFormed(subsections);
    assert JoinItems([]) == [] by { NothingIsJoined(); }
    assert HasCategory(list, title);
    var j :| 0 <= j < |list| && list[j].title == title;
    assert FormedSubsection(list[j]);
    MergedTitleItems(subsections, j);
    ItemsHaveTexts(list[j].lines);
    var i :| 0 <= i < |ItemTexts(Texts(list[j].lines))| && ItemTexts(Texts(list[j].lines))[i] == lines;
    assert Items(list[j].lines)[i].lines == lines;
    EntryIs(list[j], lines);
  }

  lemma NothingIsJoined()
    ensures JoinItems([]) == []
  {
  }

  lemma MergedKeyIsEntry(section: Section, lines: seq<string>)
    requires FormedSection(section)
    ensures MergedEntry(section, lines) ==> IsEntry(lines)
    ensures IsEntry(lines) ==> (MergedItem(section, ItemKey(lines)) <==> MergedEntry(section, lines))
  {
    hide FormedSection, FormedSubsection, BodiesUnder, JoinItems, ItemKey, IsEntry;
    var subsections := section.subsections;
    PartsFormed(section);
    forall title, x | x in JoinItems(BodiesUnder(subsections, title)) ensures IsEntry(x) {
      JoinedAreEntries(subsections, title, x);
    }
    if IsEntry(lines) && MergedItem(section, ItemKey(lines)) {
      var title :| KeyAmong(JoinItems(BodiesUnder(subsections, title)), ItemKey(lines));
      var i :| 0 <= i < |JoinItems(BodiesUnder(subsections, title))|
        && ItemKey(JoinItems(BodiesUnder(subsections, title))[i]) == ItemKey(lines);
      EntryKeys(JoinItems(BodiesUnder(subsections, title))[i], lines);
    }
    if MergedEntry(section, lines) {
      var title :| lines in JoinItems(BodiesUnder(subsections, title));
      var i :| 0 <= i < |JoinItems(BodiesUnder(subsections, title))| && JoinItems(BodiesUnder(subsections, title))[i] == lines;
      assert KeyAmong(JoinItems(BodiesUnder(subsections, title)), ItemKey(lines));
    }
  }

  lemma SomeMergedKeyIsEntry(sections: seq<Section>, lines: seq<string>)
    requires FormedSections(sections)
    ensures SomeMergedEntry(sections, lines) ==> IsEntry(lines)
    ensures IsEntry(lines) ==> (SomeMergedItem(sections, ItemKey(lines)) <==> SomeMergedEntry(sections, lines))
  {
    hide FormedSection, MergedItem, MergedEntry, ItemKey, IsEntry;
    forall k | 0 <= k < |sections|
      ensures MergedEntry(sections[k], lines) ==> IsEntry(lines)
      ensures IsEntry(lines) ==> (MergedItem(sections[k], ItemKey(lines)) <==> MergedEntry(sections[k], lines))
    {
      assert FormedSection(sections[k]);
      MergedKeyIsEntry(sections[k], lines);
    }
  }

  lemma GatheredIsFormed(content: string, starts: set<nat>, keys: set<string>)
    ensures FormedSections(Gathered(content, starts, keys))
  {
    hide *;
    ParsedIsSound(content);
    DroppedIsSound(Parse(content).sections, keys);
    PromotedIsFormed(Dropped(Parse(content).sections, keys), StartPick(starts));
    GatheredIs(content, starts, keys);
  }

  /**
   The entries of the fixed changelog, exactly and by their lines: those of
   the categories as they are joined, so every entry that no later category
   of its title, beginning with plain text, lengthens, and the lengthened ones.
   */
  lemma FixedItems(content: string, starts: set<nat>, keys: set<string>, lines: seq<string>)
    ensures DocumentHasEntry(Parse(Fixed(content, starts, keys)).sections, lines)
       <==> SomeMergedEntry(Gathered(content, starts, keys), lines)
  {
    hide *;
    GatheredIsFormed(content, starts, keys);
    SomeMergedKeyIsEntry(Gathered(content, starts, keys), lines);
    if DocumentHasEntry(Parse(Fixed(content, starts, keys)).sections, lines) {
      ParsedEntryIs(Fixed(content, starts, keys), lines);
    }
    if IsEntry(lines) {
      ParsedKeyIsEntry(Fixed(content, starts, keys), lines);
      FixedKeys(content, starts, keys, ItemKey(lines));
    }
  }

  /** If nothing is absorbed the output has every entry of the input, and none that the gathered sections do not have. */
  lemma NothingAbsorbed(content: string, starts: set<nat>, keys: set<string>, lines: seq<string>)
    requires IsKeySet(keys, Parse(content).sections, {}) && AllKeepItems(Gathered(content, starts, keys))
    ensures DocumentHasEntry(Parse(Fixed(content, starts, keys)).sections, lines)
       <==> DocumentHasEntry(Gathered(content, starts, keys), lines)
    ensures DocumentHasEntry(Parse(content).sections, lines)
        ==> DocumentHasEntry(Parse(Fixed(content, starts, keys)).sections, lines)
  {
    hide *;
    var gathered, fixed := Gathered(content, starts, keys), Fixed(content, starts, keys);
    GatheredIsFormed(content, starts, keys);
    if DocumentHasEntry(Parse(fixed).sections, lines) {
      ParsedEntryIs(fixed, lines);
    }
    if DocumentHasEntry(gathered, lines) {
      DocumentEntryIs(gathered, lines);
    }
    if DocumentHasEntry(Parse(content).sections, lines) {
      ParsedEntryIs(content, lines);
    }
    if IsEntry(lines) {
      ParsedKeyIsEntry(fixed, lines);
      ParsedKeyIsEntry(content, lines);
      DocumentKeyIsEntry(gathered, lines);
      NothingAbsorbedKeys(content, starts, keys, ItemKey(lines));
    }
  }
}
