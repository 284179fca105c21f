/** Changelogs that a second fix changes, one for each half of the condition. */
module ChangelogTwoPasses {
  import opened ChangelogText
  import opened ChangelogDocument
  import opened ChangelogRoundTrip
  import opened ChangelogItems
  import opened ChangelogEditing
  import opened ChangelogMerge
  import opened ChangelogBodies
  import opened ChangelogPromotion
  import opened ChangelogFix
  import opened ChangelogKept
  import opened ChangelogForm
  import opened ChangelogOutcome
  import opened ChangelogTwice
  import opened ChangelogRepeats
  import opened Wrappers

  // ---- what is seen of a section up to blank lines and line numbers ----

  lemma CleanMergesAlike(a: Section, b: Section)
    requires CleanSection(a) == CleanSection(b)
    ensures MergesCleanly(a.subsections) <==> MergesCleanly(b.subsections)
    ensures forall key {:trigger JoinedHasKey(a, key)} :: JoinedHasKey(a, key) <==> JoinedHasKey(b, key)
  {
    hide *;
    NormalizedOfClean(a);
    NormalizedOfClean(b);
    NormalTwice(a);
    NormalTwice(b);
    forall key ensures JoinedHasKey(a, key) <==> JoinedHasKey(b, key) {
      NormalizedHasKey(a, key);
      NormalizedHasKey(b, key);
    }
  }

  lemma Unfold(s: Section)
    ensures CleanSection(s).title == s.title
  {
  }

  // ---- lines of the examples ----

  const UNRELEASED_HEADING := "## [Unreleased]"
  const RELEASE_HEADING := "## [1.0.0]"

  /** An item line, a plain line, another item line. */
  const A := "- a"
  const B := "  b"
  const C := "- c"

  lemma PlainText(line: string)
    requires line == A || line == B || line == C || line == ""
    ensures !IsReleaseHeading(line) && !IsSubsectionHeading(line) && OneLine(line)
    ensures IsListItem(line) <==> line == A || line == C
    ensures Blank(line) <==> line == ""
  {
    if line == B {
      assert line[2] == 'b' && !IsSpace(line[2]);
      assert TrimStart(B) == TrimStart(B[1..]) == TrimStart(B[1..][1..]) && B[1..][1..] == "b";
      assert TrimStart("b") == "b";
    } else if line != "" {
      assert !IsSpace(line[0]) && TrimStart(line) == line;
    }
  }

  lemma HeadingIs(title: string)
    requires title == "Unreleased" || title == "1.0.0"
    ensures IsReleaseHeading("## [" + title + "]") && OneLine("## [" + title + "]") && ReleaseTitle("## [" + title + "]") == title
  {
    BracketedHeading("## [", title);
  }

  lemma AddedIsTitle()
    ensures IsTitle("Added") && OneLine("Added")
  {
    assert TrimStart("Added") == "Added" && TrimEnd("Added") == "Added";
  }

  predicate OfLines(lines: seq<string>) {
    forall k :: 0 <= k < |lines| ==> lines[k] == A || lines[k] == B || lines[k] == C || lines[k] == ""
  }

  function Added(lines: seq<string>): Subsection {
    Subsection("Added", Synthetic(lines))
  }

  lemma AddedIsFormed(lines: seq<string>)
    requires OfLines(lines)
    ensures FormedSubsection(Added(lines))
  {
    hide IsReleaseHeading, IsSubsectionHeading, OneLine, IsTitle;
    AddedIsTitle();
    assert Texts(Synthetic(lines)) == lines;
    forall k | 0 <= k < |lines| ensures !IsReleaseHeading(lines[k]) && !IsSubsectionHeading(lines[k]) && OneLine(lines[k]) {
      PlainText(lines[k]);
    }
  }

  lemma VersionIsNumeric()
    ensures Numeric(Version("1.0.0"))
  {
    assert SplitDots("") == [""];
    OnePart("0");
    DotAfter("0", "0");
    DotAfter("1", "0.0");
    assert TrimStart("1") == "1" && TrimStart("0") == "0";
    assert ParseInt("1").Some? && ParseInt("0").Some?;
  }

  lemma OnePart(digit: string)
    requires |digit| == 1 && digit[0] != '.'
    ensures SplitDots(digit) == [digit]
  {
    assert SplitDots(digit[1..]) == [""] && digit == [digit[0]] + "";
  }

  lemma DotAfter(digit: string, rest: string)
    requires |digit| == 1 && digit[0] != '.'
    ensures SplitDots(digit + "." + rest) == [digit] + SplitDots(rest)
  {
    var s := digit + "." + rest;
    assert s[1..] == "." + rest && s[1..][1..] == rest;
    assert SplitDots(s[1..]) == [""] + SplitDots(rest);
    assert digit == [digit[0]] + "";
  }

  // ---- the examples ----

  function Release(subsections: seq<Subsection>): Section {
    Section(RELEASE_HEADING, "1.0.0", [], subsections)
  }

  function Unreleased(subsections: seq<Subsection>): Section {
    Section(UNRELEASED_HEADING, "Unreleased", [], subsections)
  }

  lemma SectionIsFormed(section: Section, bodies: seq<seq<string>>)
    requires section.heading == "## [" + section.title + "]" && section.leadingLines == []
    requires section.title == "Unreleased" || section.title == "1.0.0"
    requires |section.subsections| == |bodies| && forall k :: 0 <= k < |bodies| ==> OfLines(bodies[k]) && section.subsections[k] == Added(bodies[k])
    ensures FormedSection(section)
  {
    hide IsReleaseHeading, OneLine, ReleaseTitle, IsSubsectionHeading, FormedSubsection, OfLines;
    HeadingIs(section.title);
    assert Texts([]) == [];
    NothingIsPlain();
    forall k | 0 <= k < |bodies| ensures FormedSubsection(section.subsections[k]) {
      AddedIsFormed(bodies[k]);
    }
  }

  /** What is read back from sections of the examples, up to blank lines and line numbers. */
  lemma ExampleReadsBack(sections: seq<Section>)
    requires FormedSections(sections) && forall k :: 0 <= k < |sections| ==> sections[k].title == "Unreleased" || sections[k].title == "1.0.0"
    ensures var again := Parse(Render(Document([], sections))).sections;
      CleanSections(again) == CleanSections(sections) && NumericReleases(again)
  {
    hide Parse, Render, FormedSections, Version, Numeric, CleanLines, CleanSubsections;
    var document := Document([], sections);
    assert Texts([]) == [];
    NothingIsPlain();
    FormedParts(document);
    RenderRoundTrip(document);
    var again := Parse(Render(document)).sections;
    assert |CleanSections(again)| == |CleanSections(sections)|;
    VersionIsNumeric();
    forall s | s in again && IsReleased(s) ensures Numeric(Version(s.title)) {
      var k :| 0 <= k < |again| && again[k] == s;
      assert CleanSections(again)[k] == CleanSections(sections)[k];
      assert s.title == sections[k].title;
    }
  }

  lemma BodyOfAdded(lines: seq<string>)
    requires lines != [] && OfLines(lines) && lines[0] != "" && lines[|lines| - 1] != "" && !GapBeforeItem(lines)
    ensures CompactBody(Added(lines)) == lines && Trimmed(lines)
  {
    hide IsListItem, Blank, Compact, TrimBlank, GapBeforeItem;
    PlainText(lines[0]);
    PlainText(lines[|lines| - 1]);
    assert Texts(Synthetic(lines)) == lines;
    TrimOfTrimmed(lines);
    CompactIsStable(lines);
  }

  lemma TwoBodies(first: seq<string>, second: seq<string>)
    requires CompactBody(Added(first)) == first != [] && CompactBody(Added(second)) == second != []
    ensures BodiesUnder([Added(first)], "Added") == [first]
    ensures BodiesUnder([Added(first), Added(second)], "Added") == [first, second]
    ensures forall title :: title != "Added" ==> BodiesUnder([Added(first), Added(second)], title) == []
  {
    hide CompactBody;
    var one, two := [Added(first)], [Added(first), Added(second)];
    assert one[..0] == [] && two[..1] == one;
    forall title | title != "Added" ensures BodiesUnder(two, title) == [] {
      assert BodiesUnder(one, title) == [];
    }
  }

  /** An item of two lines, and the category again with another item. */
  const JOINED_LATE := [Release([Added([A, B]), Added([C])])]

  lemma LateBodies()
    ensures BodiesUnder(JOINED_LATE[0].subsections, "Added") == [[A, B], [C]]
    ensures !MergesCleanly(JOINED_LATE[0].subsections)
  {
    hide IsListItem, Blank, CompactBody, BodiesUnder;
    PlainText(A);
    PlainText(B);
    PlainText(C);
    assert !GapBeforeItem([A, B]) && !GapBeforeItem([C]);
    BodyOfAdded([A, B]);
    BodyOfAdded([C]);
    TwoBodies([A, B], [C]);
    var bodies := [[A, B], [C]];
    assert LeavesGap(bodies, 1);
    assert !JoinsCleanly(bodies);
  }

  /** The empty line that the first fix puts before the second item, the second fix takes out. */
  lemma SecondFixClosesGap(keys: set<string>, keysAgain: set<string>)
    requires IsKeySet(keys, Parse(Render(Document([], JOINED_LATE))).sections, {})
    requires IsKeySet(keysAgain, Parse(Fixed(Render(Document([], JOINED_LATE)), {}, keys)).sections, {})
    ensures var content := Render(Document([], JOINED_LATE));
      Fixed(Fixed(content, {}, keys), {}, keysAgain) != Fixed(content, {}, keys)
  {
    hide Render, Parse, Fixed, IsKeySet, NumericReleases, MergesCleanly, FormedSection, CleanSubsections, CleanLines, JoinedApart, BodiesUnder,
         UnreleasedIndex;
    var content := Render(Document([], JOINED_LATE));
    var sections := Parse(content).sections;
    assert OfLines([A, B]) && OfLines([C]);
    SectionIsFormed(JOINED_LATE[0], [[A, B], [C]]);
    ExampleReadsBack(JOINED_LATE);
    LateBodies();
    assert |CleanSections(sections)| == 1 && CleanSections(sections)[0] == CleanSections(JOINED_LATE)[0];
    CleanMergesAlike(sections[0], JOINED_LATE[0]);
    Unfold(sections[0]);
    Unfold(JOINED_LATE[0]);
    assert IsReleased(sections[0]);
    assert Dropped(sections, keys) == sections;
    FixTwiceExactly(content, keys, keysAgain);
    assert !MergesCleanly(sections[0].subsections);
  }

  const LATE_LINES := ["## [1.0.0]", "", "### Added", "", A, B, "", "### Added", "", C]

  lemma LateLines()
    ensures PrefixLines(Document([], JOINED_LATE)) + SectionsLines(JOINED_LATE) == LATE_LINES + [""]
  {
    hide IsListItem, Blank, TrimBlank;
    var section := JOINED_LATE[0];
    BodyIs([A, B]);
    BodyIs([C]);
    assert Texts([]) == [];
    TrimOfTrimmed([]);
    var first, second := Added([A, B]), Added([C]);
    assert SubsectionHeading("Added") == "### Added";
    assert SubsectionLines(first) == ["", "### Added", "", A, B] && SubsectionLines(second) == ["", "### Added", "", C];
    assert section.subsections[1..] == [second] && [second][1..] == [];
    assert SubsectionsLines([second]) == SubsectionLines(second) + [];
    assert SubsectionsLines(section.subsections) == SubsectionLines(first) + SubsectionsLines([second]);
    assert SectionLines(section) == LATE_LINES;
    assert JOINED_LATE[1..] == [] && SectionsLines([]) == [];
    assert SectionsLines(JOINED_LATE) == LATE_LINES + [""] + [];
    assert PrefixLines(Document([], JOINED_LATE)) == [];
  }

  lemma LateText()
    ensures Closed(LATE_LINES) == "## [1.0.0]\n\n### Added\n\n- a\n" + "  b\n\n### Added\n\n- c\n"
  {
    hide Join;
    var lines := LATE_LINES;
    JoinTwo(lines, 5);
    assert lines[..5] == ["## [1.0.0]", "", "### Added", "", A] && lines[5..] == [B, "", "### Added", "", C];
    FirstHalf();
    SecondHalf();
  }

  lemma FirstHalf()
    ensures Join(["## [1.0.0]", "", "### Added", "", A]) + "\n" == "## [1.0.0]\n\n### Added\n\n- a\n"
  {
    hide Join;
    FiveLinesJoin("## [1.0.0]", "### Added", A);
  }

  lemma SecondHalf()
    ensures Join([B, "", "### Added", "", C]) + "\n" == "  b\n\n### Added\n\n- c\n"
  {
    hide Join;
    FiveLinesJoin(B, "### Added", C);
  }

  /** Three lines with an empty one between any two. */
  lemma FiveLinesJoin(a: string, b: string, c: string)
    ensures Join([a, "", b, "", c]) == a + "\n\n" + b + "\n\n" + c
  {
    var all := [a, "", b, "", c];
    assert all[1..] == ["", b, "", c] && all[1..][1..] == [b, "", c];
    assert all[1..][1..][1..] == ["", c] && all[1..][1..][1..][1..] == [c];
    assert Join([c]) == c && Join(["", c]) == "\n" + c;
    assert Join([b, "", c]) == b + "\n" + Join(["", c]);
    assert Join(["", b, "", c]) == "\n" + Join([b, "", c]);
    assert Join(all) == a + "\n" + Join(["", b, "", c]);
  }

  /** The content of that changelog, character by character. */
  lemma LateContent()
    ensures Render(Document([], JOINED_LATE)) == "## [1.0.0]\n\n### Added\n\n- a\n" + "  b\n\n### Added\n\n- c\n"
  {
    hide PrefixLines, SectionsLines, Closed;
    LateLines();
    LateText();
    assert (LATE_LINES + [""])[..10] == LATE_LINES;
    assert DropEmpty(LATE_LINES) == LATE_LINES;
  }

  lemma JoinTwo(lines: seq<string>, k: nat)
    requires 0 < k < |lines|
    ensures Join(lines) == Join(lines[..k]) + "\n" + Join(lines[k..])
  {
    assert lines == lines[..k] + lines[k..];
    JoinConcat(lines[..k], lines[k..]);
  }

  lemma BodyIs(lines: seq<string>)
    requires lines != [] && OfLines(lines) && lines[0] != "" && lines[|lines| - 1] != ""
    ensures Body(Synthetic(lines)) == lines
  {
    hide IsListItem, Blank, TrimBlank;
    PlainText(lines[0]);
    PlainText(lines[|lines| - 1]);
    assert Texts(Synthetic(lines)) == lines;
    TrimOfTrimmed(lines);
  }

  /** Unreleased has an item and, under the category again, a plain line; a release has the two as one item. */
  const JOINED_SAME := [Unreleased([Added([A]), Added([B])]), Release([Added([A, "", B])])]

  function SameKey(): string {
    ItemKey([A, "", B])
  }

  lemma ExampleItems()
    ensures ItemTexts([A, "", B]) == [[A, "", B]] && ItemTexts([A]) == [[A]] && ItemTexts([B]) == []
    ensures ItemKey([A]) != SameKey() && SameKey() != ""
  {
    hide IsListItem, Blank, TrimBlank, TextsFrom;
    PlainText(A);
    PlainText(B);
    PlainText("");
    var both := [A, "", B];
    assert both[1..] == ["", B] && both[1..][1..] == [B] && [B][1..] == [];
    assert NextItemText([B]) == 1 && NextItemText(["", B]) == 2 && NextItemText([]) == 0;
    assert [A][1..] == [];
    OneItem(both);
    OneItem([A]);
    NoItemsFound([B]);
    assert Trimmed([A]) && Trimmed(both);
    TrimOfTrimmed([A]);
    TrimOfTrimmed(both);
    assert Join([A]) == A && Join(both) == A + "\n" + Join(["", B]);
    assert |Join(both)| > |A|;
  }

  lemma SameBodies()
    ensures BodiesUnder(JOINED_SAME[0].subsections, "Added") == [[A], [B]]
    ensures BodiesUnder(JOINED_SAME[1].subsections, "Added") == [[A, "", B]]
    ensures Joined([[A], [B]]) == [A, "", B] && Joined([[A, "", B]]) == [A, "", B]
  {
    hide CompactBody, BodiesUnder, GapBeforeItem, OfLines, Joined;
    NoGaps();
    BodyOfAdded([A]);
    BodyOfAdded([B]);
    BodyOfAdded([A, "", B]);
    TwoBodies([A], [B]);
    TwoBodies([A, "", B], [A]);
    JoinedOne([A]);
    JoinedOne([A, "", B]);
    JoinedTwo([A], [B]);
  }

  lemma NoGaps()
    ensures OfLines([A]) && OfLines([B]) && OfLines([A, "", B])
    ensures !GapBeforeItem([A]) && !GapBeforeItem([B]) && !GapBeforeItem([A, "", B])
    ensures Separator([A], [B]) == [""]
  {
    hide IsListItem, Blank;
    PlainText(A);
    PlainText(B);
    PlainText("");
  }

  lemma JoinedTwo(a: seq<string>, b: seq<string>)
    requires a != [] && b != []
    ensures Joined([a, b]) == a + Separator(a, b) + b
  {
    hide Separator;
    assert [a, b][..1] == [a];
    JoinedOne(a);
  }

  lemma BothHaveTheKey()
    ensures JoinedHasKey(JOINED_SAME[0], SameKey()) && JoinedHasKey(JOINED_SAME[1], SameKey())
  {
    hide BodiesUnder, Joined, ItemTexts, ItemKey;
    SameBodies();
    ExampleItems();
    OneKey([A, "", B], SameKey());
    assert KeyAmong(ItemTexts(Joined(BodiesUnder(JOINED_SAME[0].subsections, "Added"))), SameKey());
    assert KeyAmong(ItemTexts(Joined(BodiesUnder(JOINED_SAME[1].subsections, "Added"))), SameKey());
  }

  /** As written, they share no item. */
  lemma NotSharedYet(key: string)
    ensures SectionHasKey(JOINED_SAME[0], key) ==> key == ItemKey([A])
    ensures SectionHasKey(JOINED_SAME[1], key) ==> key == SameKey()
  {
    hide ItemTexts, ItemKey, HasKey;
    ExampleItems();
    assert Texts(Synthetic([A])) == [A] && Texts(Synthetic([B])) == [B] && Texts(Synthetic([A, "", B])) == [A, "", B];
    KeysOfTexts(Added([A]), key);
    KeysOfTexts(Added([B]), key);
    KeysOfTexts(Added([A, "", B]), key);
    OneKey([A], key);
    OneKey([A, "", B], key);
  }

  /** Read back from the content, they share no item yet, but will. */
  lemma SameReadBack(sections: seq<Section>, keys: set<string>)
    requires CleanSections(sections) == CleanSections(JOINED_SAME) && IsKeySet(keys, sections, {})
    ensures Dropped(sections, keys) == sections && !JoinedApart(sections)
  {
    hide CleanSection, UnreleasedIndex, SectionHasKey, JoinedHasKey, SameKey, Dropped;
    assert |CleanSections(sections)| == 2;
    assert CleanSections(sections)[0] == CleanSections(JOINED_SAME)[0] && CleanSections(sections)[1] == CleanSections(JOINED_SAME)[1];
    CleanSameKeys(sections, JOINED_SAME);
    assert sections[0].title == JOINED_SAME[0].title && sections[1].title == JOINED_SAME[1].title;
    FirstUnreleased(sections);
    ExampleItems();
    forall key | key in keys ensures !SectionHasKey(sections[0], key) {
      NotSharedYet(key);
      assert ReleasedKey(sections, key);
    }
    NothingToDrop(sections, keys);
    CleanMergesAlike(sections[0], JOINED_SAME[0]);
    CleanMergesAlike(sections[1], JOINED_SAME[1]);
    BothHaveTheKey();
    assert JoinedHasKey(sections[1], SameKey()) && IsReleased(sections[1]);
  }

  /** The first fix makes an item of Unreleased that a release has, and the second fix drops it. */
  lemma SecondFixDropsItem(keys: set<string>, keysAgain: set<string>)
    requires IsKeySet(keys, Parse(Render(Document([], JOINED_SAME))).sections, {})
    requires IsKeySet(keysAgain, Parse(Fixed(Render(Document([], JOINED_SAME)), {}, keys)).sections, {})
    ensures var content := Render(Document([], JOINED_SAME));
      Fixed(Fixed(content, {}, keys), {}, keysAgain) != Fixed(content, {}, keys)
  {
    hide *;
    SameIsFormed();
    ExampleReadsBack(JOINED_SAME);
    var content := Render(Document([], JOINED_SAME));
    SameReadBack(Parse(content).sections, keys);
    FixTwiceExactly(content, keys, keysAgain);
  }

  lemma SameIsFormed()
    ensures FormedSections(JOINED_SAME)
    ensures forall k :: 0 <= k < |JOINED_SAME| ==> JOINED_SAME[k].title == "Unreleased" || JOINED_SAME[k].title == "1.0.0"
  {
    hide FormedSection;
    assert OfLines([A]) && OfLines([B]) && OfLines([A, "", B]);
    SectionIsFormed(JOINED_SAME[0], [[A], [B]]);
    SectionIsFormed(JOINED_SAME[1], [[A, "", B]]);
  }

  lemma FirstUnreleased(sections: seq<Section>)
    requires sections != [] && !IsReleased(sections[0])
    ensures UnreleasedIndex(sections) == 0
  {
  }
}
