/** Every step of the fix leaves a document that can be written out and read back, and keeps where items begin. */
module ChangelogForm {
  import opened ChangelogText
  import opened ChangelogDocument
  import opened ChangelogRoundTrip
  import opened ChangelogItems
  import opened ChangelogEditing
  import opened ChangelogMerge
  import opened ChangelogPromotion
  import opened ChangelogFix
  import opened ChangelogKept
  import opened Wrappers

  // ---- plain lines ----

  predicate PlainLine(line: string) {
    !IsReleaseHeading(line) && !IsSubsectionHeading(line) && OneLine(line)
  }

  lemma PlainMembers(texts: seq<string>)
    ensures PlainLines(texts) <==> forall x {:trigger PlainLine(x)} :: x in texts ==> PlainLine(x)
  {
    hide IsReleaseHeading, IsSubsectionHeading, OneLine;
    if PlainLines(texts) {
      forall x | x in texts ensures PlainLine(x) {
        var k :| 0 <= k < |texts| && texts[k] == x;
      }
    }
    if forall x {:trigger PlainLine(x)} :: x in texts ==> PlainLine(x) {
      forall k | 0 <= k < |texts| ensures !IsReleaseHeading(texts[k]) && !IsSubsectionHeading(texts[k]) && OneLine(texts[k]) {
        assert PlainLine(texts[k]);
      }
    }
  }

  /** Lines taken from plain lines, and empty ones, are plain. */
  lemma FromPlain(texts: seq<string>, source: seq<string>)
    requires PlainLines(source) && forall x :: x in texts ==> x in source || x == ""
    ensures PlainLines(texts)
  {
    hide PlainLines, IsReleaseHeading, IsSubsectionHeading;
    PlainMembers(source);
    PlainMembers(texts);
    BlankIsPlain();
    forall x | x in texts ensures PlainLine(x) {
    }
  }

  lemma TrimMembers(texts: seq<string>)
    ensures forall x :: x in TrimBlank(texts) ==> x in texts
  {
    hide TrimBlank, AllBlank, Trimmed;
    var before, after := TrimParts(texts);
  }

  lemma {:induction false} ItemMembers(texts: seq<string>)
    ensures forall i, x {:trigger x in TextsFrom(texts)[i]} ::
              0 <= i < |TextsFrom(texts)| && x in TextsFrom(texts)[i] ==> x in texts
    decreases |texts|
  {
    hide TextsFrom, TrimBlank, NextItemText;
    if texts == [] {
      NoTexts();
    } else {
      var k := 1 + NextItemText(texts[1..]);
      FromStep(texts);
      TrimMembers(texts[..k]);
      ItemMembers(texts[k..]);
    }
  }

  lemma {:induction false} FlatMembers(items: seq<seq<string>>, source: seq<string>)
    requires forall i, x {:trigger x in items[i]} :: 0 <= i < |items| && x in items[i] ==> x in source
    ensures forall x :: x in Flat(items) ==> x in source
  {
    if items != [] {
      assert forall i, x {:trigger x in items[1..][i]} ::
        0 <= i < |items[1..]| && x in items[1..][i] ==> x in items[i + 1];
      FlatMembers(items[1..], source);
    }
  }

  lemma CompactMembers(lines: seq<string>)
    ensures forall x :: x in Compact(lines) ==> x in lines
  {
    hide TrimBlank, TextsFrom, Flat, NonBlank, NextItemText;
    var trimmed := TrimBlank(lines);
    TrimMembers(lines);
    ItemMembers(trimmed[NextItemText(trimmed)..]);
    FlatMembers(ItemTexts(trimmed), trimmed);
  }

  lemma CompactBodyIsPlain(s: Subsection)
    requires FormedSubsection(s)
    ensures PlainLines(CompactBody(s))
  {
    hide PlainLines, TrimBlank, Compact;
    TrimMembers(Texts(s.lines));
    CompactMembers(TrimBlank(Texts(s.lines)));
    FromPlain(CompactBody(s), Texts(s.lines));
  }

  lemma AppendedIsPlain(target: seq<NumberedLine>, source: seq<string>)
    requires PlainLines(Texts(target)) && PlainLines(source)
    ensures PlainLines(Texts(Appended(target, source)))
  {
    hide PlainLines, TrimBlank, IsListItem;
    var trimmed, existing := TrimBlank(source), Body(target);
    TrimMembers(source);
    TrimMembers(Texts(target));
    var both := Texts(target) + source;
    BothPlain(Texts(target), source);
    FromPlain(Texts(Appended(target, source)), both);
  }

  lemma BothPlain(a: seq<string>, b: seq<string>)
    requires PlainLines(a) && PlainLines(b)
    ensures PlainLines(a + b)
  {
    hide NoRelease, NoCategory;
    ConcatPlain(a, b);
  }

  lemma SyntheticIsFormed(title: string, body: seq<string>)
    requires IsTitle(title) && OneLine(title) && PlainLines(body)
    ensures FormedSubsection(Subsection(title, Synthetic(body)))
  {
    hide PlainLines, IsTitle, OneLine;
    assert Texts(Synthetic(body)) == body;
  }

  lemma {:induction false} MergedAreFormed(subsections: seq<Subsection>)
    requires FormedSubsections(subsections)
    ensures FormedSubsections(MergeAll(subsections))
  {
    hide FormedSubsection, CompactBody, Appended;
    if subsections != [] {
      var n := |subsections| - 1;
      assert FormedSubsection(subsections[n]);
      forall k | 0 <= k < n ensures FormedSubsection(subsections[..n][k]) {
        assert FormedSubsection(subsections[k]);
      }
      MergedAreFormed(subsections[..n]);
      MergeOneFormed(MergeAll(subsections[..n]), subsections[n]);
    }
  }

  lemma MergeOneFormed(list: seq<Subsection>, s: Subsection)
    requires FormedSubsections(list) && FormedSubsection(s)
    ensures FormedSubsections(MergeOne(list, s))
  {
    hide CompactBody, Appended, PlainLines, IsTitle, OneLine;
    CompactBodyIsPlain(s);
    SyntheticIsFormed(s.title, CompactBody(s));
    var j := IndexOf(list, s.title);
    if j < |list| {
      assert FormedSubsection(list[j]);
      AppendedIsPlain(list[j].lines, CompactBody(s));
    }
    var next := MergeOne(list, s);
    forall k | 0 <= k < |next| ensures FormedSubsection(next[k]) {
      assert k < |list| ==> FormedSubsection(list[k]);
    }
  }

  lemma NormalizedIsFormed(section: Section)
    requires FormedSection(section)
    ensures FormedSection(Normalized(section))
  {
    hide FormedSubsection, IsReleaseHeading, OneLine, ReleaseTitle, MergeAll, InOrder, TrimBlank, NoRelease, NoCategory;
    MergedAreFormed(section.subsections);
    BodyIsPlain(section.leadingLines);
    assert Texts(CleanLines(section.leadingLines)) == Body(section.leadingLines);
    var merged := MergeAll(section.subsections);
    var sorted := InOrder(merged);
    forall k | 0 <= k < |sorted| ensures FormedSubsection(sorted[k]) {
      assert sorted[k] in multiset(merged);
      var j :| 0 <= j < |merged| && merged[j] == sorted[k];
      assert FormedSubsection(merged[j]);
    }
  }

  lemma StrippedIsFormed(s: Subsection, pick: ParsedItem -> bool)
    requires FormedSubsection(s) && Increasing(s.lines)
    ensures FormedSubsection(Stripped(s, pick)) && Increasing(Stripped(s, pick).lines)
  {
    hide PlainLines, IsTitle, OneLine, Items, Picked, Increasing, Without;
    var left := Stripped(s, pick).lines;
    WithoutIncreasing(s.lines, Picked(Items(s.lines), pick, true));
    forall x | x in Texts(left) ensures x in Texts(s.lines) {
      var i :| 0 <= i < |left| && left[i].text == x;
      assert left[i] in s.lines;
      var j :| 0 <= j < |s.lines| && s.lines[j] == left[i];
      assert Texts(s.lines)[j] == x;
    }
    FromPlain(Texts(left), Texts(s.lines));
  }

  lemma StrippedSectionIsFormed(section: Section, pick: ParsedItem -> bool)
    requires FormedSection(section) && NumberedSection(section)
    ensures FormedSection(StrippedSection(section, pick)) && NumberedSection(StrippedSection(section, pick))
  {
    hide FormedSubsection, IsReleaseHeading, OneLine, ReleaseTitle, Stripped, Increasing, PlainLines;
    forall j | 0 <= j < |section.subsections|
      ensures FormedSubsection(StrippedAll(section.subsections, pick)[j])
      ensures Increasing(StrippedAll(section.subsections, pick)[j].lines)
    {
      assert FormedSubsection(section.subsections[j]);
      StrippedIsFormed(section.subsections[j], pick);
    }
  }

  // ---- moves ----

  ghost predicate FormedMove(move: Move) {
    IsTitle(move.title) && OneLine(move.title) && PlainLines(move.lines) && IsItemText(move.lines)
  }

  ghost predicate FormedMoves(moves: seq<Move>) {
    forall i {:trigger FormedMove(moves[i])} :: 0 <= i < |moves| ==> FormedMove(moves[i])
  }

  lemma ItemIsFormed(s: Subsection, i: nat)
    requires FormedSubsection(s) && i < |Items(s.lines)|
    ensures FormedMove(Move(s.title, Items(s.lines)[i].lines))
  {
    hide PlainLines, IsTitle, OneLine, Items, TextsFrom, IsItemText, NextItemText;
    ItemsHaveTexts(s.lines);
    ItemsAreItems(Texts(s.lines));
    var texts := Texts(s.lines);
    ItemMembers(texts[NextItemText(texts)..]);
    assert IsItemText(ItemTexts(texts)[i]);
    FromPlain(ItemTexts(texts)[i], texts);
  }

  lemma SubsectionMovesAreFormed(s: Subsection, pick: ParsedItem -> bool)
    requires FormedSubsection(s)
    ensures FormedMoves(SubsectionMoves(s, pick))
  {
    hide FormedSubsection, FormedMove, Items, Picked;
    var picked := Picked(Items(s.lines), pick, true);
    forall i | 0 <= i < |picked| ensures FormedMove(SubsectionMoves(s, pick)[i]) {
      PickedAre(Items(s.lines), pick, true, i);
      var j :| 0 <= j < |Items(s.lines)| && Items(s.lines)[j] == picked[i];
      ItemIsFormed(s, j);
    }
  }

  lemma ConcatFormed(a: seq<Move>, b: seq<Move>)
    requires FormedMoves(a) && FormedMoves(b)
    ensures FormedMoves(a + b)
  {
    hide FormedMove;
    forall i | 0 <= i < |a + b| ensures FormedMove((a + b)[i]) {
      assert if i < |a| then FormedMove(a[i]) else FormedMove(b[i - |a|]);
    }
  }

  lemma {:induction false} SectionMovesAreFormed(subsections: seq<Subsection>, pick: ParsedItem -> bool)
    requires FormedSubsections(subsections)
    ensures FormedMoves(SectionMoves(subsections, pick))
  {
    hide FormedSubsection, FormedMove, SubsectionMoves;
    if subsections != [] {
      var n := |subsections| - 1;
      assert FormedSubsection(subsections[n]);
      forall k | 0 <= k < n ensures FormedSubsection(subsections[..n][k]) {
        assert FormedSubsection(subsections[k]);
      }
      SectionMovesAreFormed(subsections[..n], pick);
      SubsectionMovesAreFormed(subsections[n], pick);
      ConcatFormed(SectionMoves(subsections[..n], pick), SubsectionMoves(subsections[n], pick));
    }
  }

  lemma {:induction false} MovesAreFormed(sections: seq<Section>, pick: ParsedItem -> bool)
    requires FormedSections(sections)
    ensures FormedMoves(Moves(sections, pick))
  {
    hide FormedSection, FormedMove, SectionMoves;
    if sections != [] {
      var n := |sections| - 1;
      assert FormedSection(sections[n]);
      forall k | 0 <= k < n ensures FormedSection(sections[..n][k]) {
        assert FormedSection(sections[k]);
      }
      MovesAreFormed(sections[..n], pick);
      PartsFormed(sections[n]);
      SectionMovesAreFormed(sections[n].subsections, pick);
      ConcatFormed(Moves(sections[..n], pick), SectionMoves(sections[n].subsections, pick));
    }
  }

  lemma PartsFormed(section: Section)
    requires FormedSection(section)
    ensures FormedSubsections(section.subsections)
  {
    hide FormedSubsection;
  }

  lemma AddOneFormed(section: Section, move: Move)
    requires FormedSubsections(section.subsections) && FormedMove(move)
    ensures FormedSubsections(AddOne(section, move).subsections)
  {
    hide PlainLines, IsTitle, OneLine, Appended, SubsectionHasItem, LastIndexOf, IsItemText;
    var ready := WithCategory(section, move.title);
    var j := LastIndexOf(ready.subsections, move.title);
    NothingIsPlain();
    assert Texts([]) == [];
    forall k | 0 <= k < |ready.subsections| ensures FormedSubsection(ready.subsections[k]) {
      assert k < |section.subsections| ==> FormedSubsection(section.subsections[k]);
    }
    assert FormedSubsection(ready.subsections[j]);
    AppendedIsPlain(ready.subsections[j].lines, move.lines);
    var next := AddOne(section, move).subsections;
    forall k | 0 <= k < |next| ensures FormedSubsection(next[k]) {
      assert FormedSubsection(ready.subsections[k]);
    }
  }

  lemma NothingIsPlain()
    ensures PlainLines([])
  {
  }

  lemma {:induction false} AddAllFormed(section: Section, moves: seq<Move>)
    requires FormedSection(section) && FormedMoves(moves)
    ensures FormedSection(AddAll(section, moves))
  {
    hide FormedSubsection, FormedMove, AddOne, IsReleaseHeading, ReleaseTitle, OneLine, PlainLines;
    AddAllKeepsTitle(section, moves);
    if moves != [] {
      var n := |moves| - 1;
      assert FormedMove(moves[n]);
      forall k | 0 <= k < n ensures FormedMove(moves[..n][k]) {
        assert FormedMove(moves[k]);
      }
      AddAllFormed(section, moves[..n]);
      AddOneFormed(AddAll(section, moves[..n]), moves[n]);
    }
  }

  /** A heading made of a bracketed title reads back as that title. */
  lemma BracketedHeading(open: string, title: string)
    requires open == "## [" && title != "" && ']' !in title && OneLine(title)
    ensures IsReleaseHeading(open + title + "]") && ReleaseTitle(open + title + "]") == title && OneLine(open + title + "]")
  {
    hide IsSpace;
    var h := open + title + "]";
    var end := 4 + |title|;
    assert h[end] == ']' && h[4..end] == title;
    var k := BracketEnd(h, 4);
    assert forall i :: 4 <= i < end ==> h[i] == title[i - 4];
  }

  lemma NewUnreleasedIsFormed()
    ensures FormedSection(NEW_UNRELEASED)
  {
    hide IsReleaseHeading, ReleaseTitle;
    BracketedHeading("## [", UNRELEASED);
    assert NEW_UNRELEASED.heading == "## [" + UNRELEASED + "]";
    assert Texts([]) == [];
    NothingIsPlain();
  }

  // ---- where items begin ----

  /** The lines before the first item, or all lines if there is none, are blank. */
  ghost predicate LeadIsBlank(texts: seq<string>) {
    AllBlank(texts[..NextItemText(texts)])
  }

  lemma {:induction false} NoLinesLeft(lines: seq<string>)
    ensures NonBlank(lines) == [] <==> AllBlank(lines)
  {
    hide Blank;
    if AllBlank(lines) {
      NonBlankOfBlanks(lines);
    } else if !Blank(lines[0]) {
    } else {
      var k :| 0 <= k < |lines| && !Blank(lines[k]);
      assert !Blank(lines[1..][k - 1]);
      NoLinesLeft(lines[1..]);
    }
  }

  /** The same lines up to blank ones, trimmed, begin with an item exactly if only blank lines come before the first item. */
  lemma StartOf(texts: seq<string>, c: seq<string>)
    requires Trimmed(c) && NonBlank(c) == NonBlank(texts) && ItemTexts(c) == ItemTexts(texts)
    ensures StartsWithItem(c) <==> LeadIsBlank(texts)
  {
    hide NonBlank, TextsFrom, Flat, NextItemText, Blank, IsListItem, ItemTexts, AllBlank;
    var k, j := NextItemText(c), NextItemText(texts);
    ItemLines(c);
    ItemLines(texts);
    assert c == c[..k] + c[k..] && texts == texts[..j] + texts[j..];
    NonBlankConcat(c[..k], c[k..]);
    NonBlankConcat(texts[..j], texts[j..]);
    assert |NonBlank(c[..k])| == |NonBlank(texts[..j])|;
    NoLinesLeft(texts[..j]);
    NoLinesLeft(c[..k]);
    if k > 0 {
      assert c[..k][0] == c[0] && !Blank(c[0]);
      FirstNotBlank(c[..k]);
    } else {
      NothingFlat();
      NoBlankLines();
      assert c[..0] == [];
    }
  }

  lemma FirstNotBlank(lines: seq<string>)
    requires lines != [] && !Blank(lines[0])
    ensures !AllBlank(lines)
  {
    hide Blank;
  }

  lemma CompactStart(s: Subsection)
    ensures StartsWithItem(CompactBody(s)) <==> LeadIsBlank(Texts(s.lines))
  {
    hide CompactBody, LeadIsBlank, StartsWithItem, ItemTexts, NonBlank;
    BodyLines(s);
    StartOf(Texts(s.lines), CompactBody(s));
  }

  lemma StrippedLead(s: Subsection, pick: ParsedItem -> bool)
    requires Increasing(s.lines) && LeadIsBlank(Texts(s.lines))
    ensures LeadIsBlank(Texts(Stripped(s, pick).lines))
  {
    hide Items, Picked, Without, Increasing, NextItem, NextItemText, AllBlank;
    RemovingLeavesOthers(s.lines, pick);
    var left := Stripped(s, pick).lines;
    SameNext(left);
    SameNext(s.lines);
    SliceTexts(left, 0, NextItem(left));
    SliceTexts(s.lines, 0, NextItem(s.lines));
    assert left[0..NextItem(left)] == left[..NextItem(left)] && s.lines[0..NextItem(s.lines)] == s.lines[..NextItem(s.lines)];
  }

  lemma StrippedRepeats(subsections: seq<Subsection>, pick: ParsedItem -> bool)
    requires RepeatsStartWithItem(subsections)
    requires forall j {:trigger subsections[j]} :: 0 <= j < |subsections| ==> Increasing(subsections[j].lines)
    ensures RepeatsStartWithItem(StrippedAll(subsections, pick))
  {
    hide CompactBody, StartsWithItem, Stripped, Increasing, LeadIsBlank;
    var next := StrippedAll(subsections, pick);
    forall h, i | 0 <= h < i < |next| && next[h].title == next[i].title ensures StartsWithItem(CompactBody(next[i])) {
      StrippedTitle(subsections[h], pick);
      StrippedTitle(subsections[i], pick);
      assert subsections[h].title == subsections[i].title;
      CompactStart(subsections[i]);
      StrippedLead(subsections[i], pick);
      CompactStart(next[i]);
    }
  }

  lemma StrippedTitle(s: Subsection, pick: ParsedItem -> bool)
    ensures Stripped(s, pick).title == s.title
  {
  }

  lemma AppendedLead(target: seq<NumberedLine>, lines: seq<string>)
    requires IsItemText(lines) && LeadIsBlank(Texts(target))
    ensures LeadIsBlank(Texts(Appended(target, lines)))
  {
    hide NextItemText, Blank, IsListItem, AllBlank, LeadIsBlank, ItemTexts, NonBlank, TrimBlank, Separator;
    ItemKeyIsText(lines);
    var existing := Body(target);
    TrimmedBody(target);
    ItemsOfTrimmed(Texts(target));
    NonBlankOfTrimmed(Texts(target));
    StartOf(Texts(target), existing);
    var texts := Texts(Appended(target, lines));
    var expected := if existing == [] then lines else existing + Separator(existing, lines) + lines;
    assert texts == expected;
    ItemParts(lines);
    assert texts[0] == (if existing == [] then lines[0] else existing[0]) && texts[|texts| - 1] == lines[|lines| - 1];
    StartOf(texts, texts);
  }

  lemma ItemParts(lines: seq<string>)
    requires IsItemText(lines)
    ensures IsListItem(lines[0]) && !Blank(lines[0]) && !Blank(lines[|lines| - 1])
  {
    hide Blank, IsListItem, NextItemText;
    FirstIsNotBlank(lines[0]);
  }

  lemma ReadyRepeats(section: Section, title: string)
    requires RepeatsStartWithItem(section.subsections)
    ensures RepeatsStartWithItem(WithCategory(section, title).subsections)
  {
    hide CompactBody, StartsWithItem, LastIndexOf;
    var list, next := section.subsections, WithCategory(section, title).subsections;
    forall h, i | 0 <= h < i < |next| && next[h].title == next[i].title ensures StartsWithItem(CompactBody(next[i])) {
      if i < |list| {
        assert list[h].title == list[i].title && next[i] == list[i];
      }
    }
  }

  lemma AddOneRepeats(section: Section, move: Move)
    requires RepeatsStartWithItem(section.subsections) && IsItemText(move.lines)
    ensures RepeatsStartWithItem(AddOne(section, move).subsections)
  {
    hide CompactBody, StartsWithItem, LastIndexOf, LeadIsBlank, IsItemText, SubsectionHasItem, Appended, RepeatsStartWithItem;
    var ready := WithCategory(section, move.title);
    ReadyRepeats(section, move.title);
    var j := LastIndexOf(ready.subsections, move.title);
    var target := ready.subsections[j];
    if !SubsectionHasItem(target, move.lines) {
      PutRepeats(ready.subsections, j, move.lines);
    }
  }

  lemma PutRepeats(list: seq<Subsection>, j: nat, lines: seq<string>)
    requires RepeatsStartWithItem(list) && j < |list| && IsItemText(lines)
    ensures RepeatsStartWithItem(list[j := Subsection(list[j].title, Appended(list[j].lines, lines))])
  {
    hide CompactBody, StartsWithItem, LeadIsBlank, IsItemText, Appended;
    var next := list[j := Subsection(list[j].title, Appended(list[j].lines, lines))];
    forall h, i | 0 <= h < i < |next| && next[h].title == next[i].title ensures StartsWithItem(CompactBody(next[i])) {
      assert list[h].title == list[i].title;
      if i == j {
        CompactStart(list[j]);
        AppendedLead(list[j].lines, lines);
        CompactStart(next[j]);
      }
    }
  }

  lemma {:induction false} AddAllRepeats(section: Section, moves: seq<Move>)
    requires RepeatsStartWithItem(section.subsections) && ItemMoves(moves)
    ensures RepeatsStartWithItem(AddAll(section, moves).subsections)
  {
    hide RepeatsStartWithItem, AddOne, IsItemText;
    if moves != [] {
      var n := |moves| - 1;
      assert forall i :: 0 <= i < n ==> moves[..n][i] == moves[i];
      AddAllRepeats(section, moves[..n]);
      AddOneRepeats(AddAll(section, moves[..n]), moves[n]);
    }
  }
}
