/** The fixer: drop, promote, normalise, sort, and render. */
module ChangelogFix {
  import opened ChangelogText
  import opened ChangelogDocument
  import opened ChangelogItems
  import opened ChangelogEditing
  import opened ChangelogMerge
  import opened ChangelogPromotion
  import opened Wrappers

  // ---- the sections ----

  function UnreleasedIndex(sections: seq<Section>): (u: nat)
    ensures u <= |sections| && (u < |sections| ==> !IsReleased(sections[u]))
    ensures forall i {:trigger sections[i]} :: 0 <= i < u ==> IsReleased(sections[i])
  {
    if sections == [] || !IsReleased(sections[0]) then 0 else 1 + UnreleasedIndex(sections[1..])
  }

  function Dropped(sections: seq<Section>, keys: set<string>): seq<Section> {
    var u := UnreleasedIndex(sections);
    if u < |sections| then sections[u := StrippedSection(sections[u], KeyPick(keys))] else sections
  }

  function StrippedRelease(section: Section, pick: ParsedItem -> bool): Section {
    if IsReleased(section) then StrippedSection(section, pick) else section
  }

  function StrippedReleases(sections: seq<Section>, pick: ParsedItem -> bool): (r: seq<Section>)
    ensures |r| == |sections|
    ensures forall k :: 0 <= k < |r| ==> r[k] == StrippedRelease(sections[k], pick)
  {
    seq(|sections|, k requires 0 <= k < |sections| => StrippedRelease(sections[k], pick))
  }

  /** The first section named Unreleased, if there is one. */
  function Target(sections: seq<Section>): Option<Section> {
    var u := UnreleasedIndex(sections);
    if u < |sections| then Some(sections[u]) else None
  }

  /** The sections with Unreleased put where it was, or at the front if it was not there. */
  function WithTarget(sections: seq<Section>, u: nat, target: Option<Section>): seq<Section> {
    if target.None? then sections
    else if u < |sections| then sections[u := target.value]
    else [target.value] + sections
  }

  function Promoted(sections: seq<Section>, pick: ParsedItem -> bool): seq<Section> {
    WithTarget(StrippedReleases(sections, pick), UnreleasedIndex(sections), After(Target(sections), Moves(sections, pick)))
  }

  function NormalizedAll(sections: seq<Section>): (r: seq<Section>)
    ensures |r| == |sections|
    ensures forall k :: 0 <= k < |r| ==> r[k] == Normalized(sections[k])
  {
    seq(|sections|, k requires 0 <= k < |sections| => Normalized(sections[k]))
  }

  // ---- the order of the releases ----

  function IsDigit(c: char): bool {
    '0' <= c <= '9'
  }

  function DigitsValue(s: string, value: nat): nat {
    if s == "" || !IsDigit(s[0]) then value else DigitsValue(s[1..], 10 * value + (s[0] as int - '0' as int))
  }

  /** The number a text begins with, white space and a sign before it included; none if it begins with no number. */
  function ParseInt(text: string): Option<int> {
    var t := TrimStart(text);
    var signed := t != "" && (t[0] == '-' || t[0] == '+');
    var digits := if signed then t[1..] else t;
    if digits == "" || !IsDigit(digits[0]) then None
    else
      var value: int := DigitsValue(digits, 0);
      Some(if signed && t[0] == '-' then -value else value)
  }

  function SplitDots(s: string): (r: seq<string>)
    ensures |r| >= 1
  {
    if s == "" then [""]
    else if s[0] == '.' then [""] + SplitDots(s[1..])
    else
      var rest := SplitDots(s[1..]);
      [[s[0]] + rest[0]] + rest[1..]
  }

  function Version(title: string): (r: seq<Option<int>>)
    ensures |r| >= 1
  {
    var parts := SplitDots(title);
    seq(|parts|, i requires 0 <= i < |parts| => ParseInt(parts[i]))
  }

  /** Missing parts count as zero; a part that is no number ends the comparison without a result. */
  function Compare(left: seq<Option<int>>, right: seq<Option<int>>): int
    decreases |left| + |right|
  {
    if left == [] && right == [] then 0
    else
      var l, r := if left == [] then Some(0) else left[0], if right == [] then Some(0) else right[0];
      if l.None? || r.None? then 0
      else if r.value != l.value then r.value - l.value
      else Compare(if left == [] then [] else left[1..], if right == [] then [] else right[1..])
  }

  function CompareTitles(left: string, right: string): int {
    Compare(Version(left), Version(right))
  }

  function PlaceRelease(s: Section, list: seq<Section>): (r: seq<Section>)
    ensures multiset(r) == multiset(list) + multiset{s}
  {
    if list == [] || CompareTitles(s.title, list[0].title) < 0 then [s] + list
    else
      assert list == [list[0]] + list[1..];
      [list[0]] + PlaceRelease(s, list[1..])
  }

  /** The stable sort of the releases, newest first. */
  function NewestFirst(list: seq<Section>): (r: seq<Section>)
    ensures multiset(r) == multiset(list)
  {
    if list == [] then []
    else
      assert list == list[..|list| - 1] + [list[|list| - 1]];
      PlaceRelease(list[|list| - 1], NewestFirst(list[..|list| - 1]))
  }

  function Select(sections: seq<Section>, released: bool): seq<Section> {
    if sections == [] then []
    else (if IsReleased(sections[0]) == released then [sections[0]] else []) + Select(sections[1..], released)
  }

  function SortedSections(sections: seq<Section>): seq<Section> {
    Select(sections, false) + NewestFirst(Select(sections, true))
  }

  // ---- the fix ----

  function FixedSections(sections: seq<Section>, starts: set<nat>, keys: set<string>): seq<Section> {
    SortedSections(NormalizedAll(Promoted(Dropped(sections, keys), StartPick(starts))))
  }

  ghost predicate IsKeySet(keys: set<string>, sections: seq<Section>, historical: set<string>) {
    forall key :: key in keys <==> key in historical || ReleasedKey(sections, key)
  }

  /** The lines of each category are numbered upward. */
  ghost predicate NumberedSection(section: Section) {
    forall j {:trigger section.subsections[j]} :: 0 <= j < |section.subsections| ==> Increasing(section.subsections[j].lines)
  }

  ghost predicate NumberedReleases(sections: seq<Section>) {
    forall k {:trigger sections[k]} :: 0 <= k < |sections| && IsReleased(sections[k]) ==> NumberedSection(sections[k])
  }

  /** A stripped release has nothing more to give up. */
  lemma StrippedGivesNothing(s: Subsection, starts: set<nat>)
    requires Increasing(s.lines)
    ensures SubsectionMoves(Stripped(s, StartPick(starts)), StartPick(starts)) == []
    ensures Stripped(Stripped(s, StartPick(starts)), StartPick(starts)) == Stripped(s, StartPick(starts))
  {
    hide Items, Picked, Without, Increasing, NextItem;
    RemovingLeavesOthers(s.lines, StartPick(starts));
    NothingLeft(Items(s.lines), StartPick(starts));
    NothingToStrip(Stripped(s, StartPick(starts)), StartPick(starts));
  }

  lemma {:induction false} NothingLeft(items: seq<ParsedItem>, pick: ParsedItem -> bool)
    ensures Picked(Picked(items, pick, false), pick, true) == []
  {
    if items != [] {
      NothingLeft(items[1..], pick);
      var rest := Picked(items[1..], pick, false);
      assert ([items[0]] + rest)[1..] == rest;
      assert [] + rest == rest;
    }
  }

  lemma {:induction false} NoSectionMoves(subsections: seq<Subsection>, pick: ParsedItem -> bool)
    requires forall j {:trigger subsections[j]} :: 0 <= j < |subsections| ==> SubsectionMoves(subsections[j], pick) == []
    ensures SectionMoves(subsections, pick) == []
  {
    hide SubsectionMoves;
    if subsections != [] {
      var n := |subsections| - 1;
      assert forall j :: 0 <= j < n ==> subsections[..n][j] == subsections[j];
      NoSectionMoves(subsections[..n], pick);
    }
  }

  lemma StrippedSectionGivesNothing(section: Section, starts: set<nat>)
    requires NumberedSection(section)
    ensures var stripped := StrippedSection(section, StartPick(starts));
            SectionMoves(stripped.subsections, StartPick(starts)) == [] && StrippedSection(stripped, StartPick(starts)) == stripped
  {
    hide Stripped, SubsectionMoves, Increasing, SectionMoves;
    var stripped := StrippedSection(section, StartPick(starts));
    forall j | 0 <= j < |section.subsections|
      ensures SubsectionMoves(stripped.subsections[j], StartPick(starts)) == []
      ensures Stripped(stripped.subsections[j], StartPick(starts)) == stripped.subsections[j]
    {
      StrippedGivesNothing(section.subsections[j], starts);
    }
    NoSectionMoves(stripped.subsections, StartPick(starts));
    assert StrippedAll(stripped.subsections, StartPick(starts)) == stripped.subsections;
  }

  class ChangelogFixer {
    var prefixLines: seq<NumberedLine>
    var sections: seq<Section>

    constructor (content: string)
      ensures Document(prefixLines, sections) == Parse(content)
    {
      var document := ParseChangelog(content);
      prefixLines, sections := document.prefixLines, document.sections;
    }

    /** Takes out of the first Unreleased section what a release or an earlier release already has. */
    method DropUnreleasedDuplicates(historical: set<string>) returns (dropped: nat, ghost keys: set<string>)
      modifies this`sections
      ensures IsKeySet(keys, old(sections), historical)
      ensures sections == Dropped(old(sections), keys)
    {
      hide Stripped, ReleasedKey, UnreleasedIndex;
      dropped := 0;
      var current := sections;
      var released := CollectReleasedItemKeys(current);
      var all := released + historical;
      keys := all;
      var u := UnreleasedIndex(current);
      if u == |current| {
        return;
      }
      var subsections := current[u].subsections;
      var kept: seq<Subsection> := [];
      for j := 0 to |subsections|
        invariant kept == StrippedAll(subsections, KeyPick(all))[..j]
      {
        var s, taken := StripSubsection(subsections[j], KeyPick(all));
        kept := kept + [s];
        dropped := dropped + |taken|;
      }
      assert kept == StrippedAll(subsections, KeyPick(all));
      sections := current[u := current[u].(subsections := kept)];
      assert sections == Dropped(current, keys);
    }

    /**
     The releases give up the items that start on the given lines. The loop
     runs over the sections while Unreleased may be put in front of them, so
     the release that made it is met a second time, with nothing left to give.
     */
    method PromoteItems(starts: set<nat>) returns (promoted: nat)
      requires NumberedReleases(sections)
      modifies this`sections
      ensures sections == Promoted(old(sections), StartPick(starts))
      ensures promoted == |Moves(old(sections), StartPick(starts))|
    {
      hide *;
      ghost var before := sections;
      ghost var i := 0;
      var pick := StartPick(starts);
      var u := UnreleasedIndex(sections);
      var place := if u < |sections| then u else 0;
      var target := Target(sections);
      promoted := 0;
      var index := 0;
      PromotionStarts(before, pick);
      while index < |sections|
        invariant 0 <= i <= |before|
        invariant AtStep(before, i, sections, target, promoted, pick)
        invariant IsNext(index, i, before, target)
        decreases |before| - i, |sections| - index
      {
        i := Visits(before, i, sections, target, promoted, index, place, starts);
        var n;
        sections, target, n := Visit(sections, index, place, target, pick);
        promoted := promoted + n;
        index := index + 1;
      }
      PromotionEnds(before, i, sections, target, promoted, index, pick);
    }

    method NormalizeSections() returns (merged: nat, removed: nat)
      modifies this`sections
      ensures sections == NormalizedAll(old(sections))
    {
      hide Normalized, MergeAll;
      merged, removed := 0, 0;
      var current := sections;
      var done: seq<Section> := [];
      for k := 0 to |current|
        invariant done == NormalizedAll(current)[..k]
      {
        var section, m, e := NormalizeSection(current[k]);
        done := done + [section];
        merged, removed := merged + m, removed + e;
      }
      sections := done;
    }

    method SortReleaseSections()
      modifies this`sections
      ensures sections == SortedSections(old(sections))
    {
      sections := Select(sections, false) + NewestFirst(Select(sections, true));
    }
  }

  /** The fix of a whole changelog. */
  method FixChangelogContent(content: string, starts: set<nat>, historical: set<string>)
    returns (result: string, promoted: nat, ghost keys: set<string>)
    ensures IsKeySet(keys, Parse(content).sections, historical)
    ensures result == Fixed(content, starts, keys)
    ensures promoted == |Moves(Dropped(Parse(content).sections, keys), StartPick(starts))|
  {
    hide *;
    var fixer := new ChangelogFixer(content);
    ghost var before := fixer.sections;
    var dropped, merged, removed;
    dropped, keys := fixer.DropUnreleasedDuplicates(historical);
    DroppedAreNumbered(content, keys);
    promoted := fixer.PromoteItems(starts);
    merged, removed := fixer.NormalizeSections();
    fixer.SortReleaseSections();
    FixedIs(content, starts, keys);
    result := RenderChangelog(Document(fixer.prefixLines, fixer.sections));
  }

  function Fixed(content: string, starts: set<nat>, keys: set<string>): string {
    var document := Parse(content);
    Render(Document(document.prefixLines, FixedSections(document.sections, starts, keys)))
  }

  lemma FixedIs(content: string, starts: set<nat>, keys: set<string>)
    ensures FixedSections(Parse(content).sections, starts, keys)
         == SortedSections(NormalizedAll(Promoted(Dropped(Parse(content).sections, keys), StartPick(starts))))
    ensures Fixed(content, starts, keys)
         == Render(Document(Parse(content).prefixLines, FixedSections(Parse(content).sections, starts, keys)))
  {
    hide Parse, FixedSections, Render, SortedSections, NormalizedAll, Promoted, Dropped, StartPick;
    FixedSectionsIs(Parse(content).sections, starts, keys);
  }

  lemma FixedSectionsIs(sections: seq<Section>, starts: set<nat>, keys: set<string>)
    ensures FixedSections(sections, starts, keys) == SortedSections(NormalizedAll(Promoted(Dropped(sections, keys), StartPick(starts))))
  {
    hide SortedSections, NormalizedAll, Promoted, Dropped, StartPick;
  }

  // ---- line numbers ----

  lemma {:induction false} ParsedCategoriesAreNumbered(lines: seq<NumberedLine>)
    requires Increasing(lines)
    ensures forall j {:trigger ParseSubsections(lines)[j]} ::
              0 <= j < |ParseSubsections(lines)| ==> Increasing(ParseSubsections(lines)[j].lines)
    decreases |lines|
  {
    hide Increasing, SubsectionTitle, NextSubsection;
    if lines != [] {
      var k := NextSubsection(lines[1..]);
      SliceIncreasing(lines, 1, 1 + k);
      SliceIncreasing(lines, 1 + k, |lines|);
      assert lines[1..][..k] == lines[1..1 + k] && lines[1..][k..] == lines[1 + k..|lines|];
      ParsedCategoriesAreNumbered(lines[1..][k..]);
    }
  }

  ghost predicate AllNumbered(sections: seq<Section>) {
    forall k {:trigger sections[k]} :: 0 <= k < |sections| ==> NumberedSection(sections[k])
  }

  lemma ParsedSectionIsNumbered(heading: string, body: seq<NumberedLine>)
    requires Increasing(body)
    ensures NumberedSection(ParseSection(heading, body))
  {
    hide Increasing, ReleaseTitle, NextSubsection, ParseSubsections;
    var j := NextSubsection(body);
    SliceIncreasing(body, j, |body|);
    assert body[j..|body|] == body[j..];
    ParsedCategoriesAreNumbered(body[j..]);
  }

  lemma {:induction false} ParsedSectionsAreNumbered(lines: seq<NumberedLine>)
    requires Increasing(lines)
    ensures AllNumbered(ParseSections(lines))
    decreases |lines|
  {
    hide Increasing, NextRelease, ParseSection, NumberedSection;
    if lines != [] {
      var k := NextRelease(lines[1..]);
      var body, later := lines[1..][..k], lines[1..][k..];
      SliceIncreasing(lines, 1, 1 + k);
      SliceIncreasing(lines, 1 + k, |lines|);
      assert body == lines[1..1 + k] && later == lines[1 + k..|lines|];
      ParsedSectionsAreNumbered(later);
      ParsedSectionIsNumbered(lines[0].text, body);
      var all := ParseSections(lines);
      assert all == [ParseSection(lines[0].text, body)] + ParseSections(later);
      forall i | 0 <= i < |all| ensures NumberedSection(all[i]) {
        assert i > 0 ==> all[i] == ParseSections(later)[i - 1];
      }
    }
  }

  lemma ParsedAreNumbered(content: string)
    ensures AllNumbered(Parse(content).sections)
  {
    hide NextRelease, ParseSections, AllNumbered, ContentLines;
    var lines := Numbered(ContentLines(content));
    var k := NextRelease(lines);
    SliceIncreasing(lines, k, |lines|);
    assert lines[k..|lines|] == lines[k..];
    ParsedSectionsAreNumbered(lines[k..]);
  }

  lemma DroppedAreNumbered(content: string, keys: set<string>)
    ensures NumberedReleases(Dropped(Parse(content).sections, keys))
  {
    hide Stripped, NumberedSection, Parse;
    ParsedAreNumbered(content);
  }

  /** The first sections stripped, the others as they were. */
  ghost function Halfway(sections: seq<Section>, i: nat, pick: ParsedItem -> bool): (r: seq<Section>)
    requires i <= |sections|
    ensures |r| == |sections|
    ensures forall k :: 0 <= k < |r| ==> r[k] == if k < i then StrippedRelease(sections[k], pick) else sections[k]
  {
    StrippedReleases(sections[..i], pick) + sections[i..]
  }

  /** One if Unreleased has been put in front of the sections. */
  ghost function Shift(sections: seq<Section>, target: Option<Section>): nat {
    if UnreleasedIndex(sections) < |sections| || target.None? then 0 else 1
  }

  /** The loop index is at the next section, or once more at the one that has just made Unreleased. */
  ghost predicate IsNext(index: nat, i: nat, sections: seq<Section>, target: Option<Section>)
    requires i <= |sections|
  {
    || index == i + Shift(sections, target)
    || (index == i && i > 0 && Shift(sections, target) == 1 && IsReleased(sections[i - 1]))
  }

  function SectionGives(section: Section, pick: ParsedItem -> bool): seq<Move> {
    if IsReleased(section) then SectionMoves(section.subsections, pick) else []
  }

  function VisitedSections(sections: seq<Section>, index: nat, place: nat, target: Option<Section>, pick: ParsedItem -> bool): seq<Section>
    requires index < |sections| && place < |sections|
  {
    var stripped := sections[index := StrippedRelease(sections[index], pick)];
    var moves := SectionGives(sections[index], pick);
    if moves == [] then stripped
    else if target.None? then [After(target, moves).value] + stripped
    else stripped[place := After(target, moves).value]
  }

  /** One section visited: a release gives up its items; Unreleased is replaced where it is, or put in front. */
  method Visit(sections: seq<Section>, index: nat, place: nat, target: Option<Section>, pick: ParsedItem -> bool)
    returns (r: seq<Section>, next: Option<Section>, promoted: nat)
    requires index < |sections| && place < |sections|
    ensures r == VisitedSections(sections, index, place, target, pick)
    ensures next == After(target, SectionGives(sections[index], pick)) && promoted == |SectionGives(sections[index], pick)|
  {
    hide StrippedSection, SectionMoves, AddAll;
    r, next, promoted := sections, target, 0;
    var section := sections[index];
    if !IsReleased(section) {
      return;
    }
    var stripped;
    stripped, next, promoted := PromoteSection(section, target, pick);
    r := r[index := stripped];
    if promoted > 0 {
      if target.None? {
        r := [next.value] + r;
      } else {
        r := r[place := next.value];
      }
    }
  }

  /** The state after the first i sections. */
  ghost predicate AtStep(before: seq<Section>, i: nat, sections: seq<Section>, target: Option<Section>, promoted: nat, pick: ParsedItem -> bool)
    requires i <= |before|
  {
    && target == After(Target(before), Moves(before[..i], pick))
    && promoted == |Moves(before[..i], pick)|
    && sections == WithTarget(Halfway(before, i, pick), UnreleasedIndex(before), target)
  }

  lemma PromotionStarts(sections: seq<Section>, pick: ParsedItem -> bool)
    ensures AtStep(sections, 0, sections, Target(sections), 0, pick) && IsNext(0, 0, sections, Target(sections))
  {
    hide UnreleasedIndex;
    assert Halfway(sections, 0, pick) == sections;
  }

  lemma {:induction false} AddAllKeepsTitle(section: Section, moves: seq<Move>)
    ensures AddAll(section, moves).title == section.title && AddAll(section, moves).heading == section.heading
    ensures AddAll(section, moves).leadingLines == section.leadingLines
  {
    hide LastIndexOf, SubsectionHasItem, Appended;
    if moves != [] {
      AddAllKeepsTitle(section, moves[..|moves| - 1]);
    }
  }

  lemma MovesStep(sections: seq<Section>, i: nat, pick: ParsedItem -> bool)
    requires i < |sections|
    ensures Moves(sections[..i + 1], pick) == Moves(sections[..i], pick) + SectionGives(sections[i], pick)
  {
    hide SectionMoves;
    assert sections[..i + 1][..i] == sections[..i];
  }

  /** Where the i-th section is met, and that Unreleased itself gives nothing. */
  lemma Meets(before: seq<Section>, i: nat, sections: seq<Section>, target: Option<Section>, promoted: nat, pick: ParsedItem -> bool)
    requires i < |before| && AtStep(before, i, sections, target, promoted, pick)
    ensures var index := i + Shift(before, target);
            && |sections| == |before| + Shift(before, target) && index < |sections|
            && SectionGives(sections[index], pick) == SectionGives(before[i], pick)
            && (i != UnreleasedIndex(before) ==> sections[index] == before[i])
            && (i == UnreleasedIndex(before) ==> sections[index] == target.GetOr(before[i]) && !IsReleased(sections[index]))
  {
    hide SectionMoves, Moves, StrippedRelease, AddAll, UnreleasedIndex;
    if UnreleasedIndex(before) < |before| {
      AddAllKeepsTitle(Target(before).value, Moves(before[..i], pick));
    }
  }

  /** Visiting a section that is not Unreleased, Unreleased being where it was found. */
  lemma VisitFound(base: seq<Section>, i: nat, u: nat, target: Section, pick: ParsedItem -> bool)
    requires i < |base| && u < |base| && i != u
    ensures VisitedSections(base[u := target], i, u, Some(target), pick)
         == WithTarget(base[i := StrippedRelease(base[i], pick)], u, After(Some(target), SectionGives(base[i], pick)))
  {
    hide SectionGives, StrippedRelease, AddAll;
  }

  /** Visiting Unreleased where it was found. */
  lemma VisitSelf(base: seq<Section>, u: nat, target: Section, pick: ParsedItem -> bool)
    requires u < |base| && !IsReleased(base[u]) && !IsReleased(target)
    ensures VisitedSections(base[u := target], u, u, Some(target), pick)
         == WithTarget(base[u := StrippedRelease(base[u], pick)], u, After(Some(target), SectionGives(base[u], pick)))
  {
    hide AddAll;
  }

  /** Visiting a section, Unreleased missing or in front. */
  lemma VisitMissing(base: seq<Section>, i: nat, target: Option<Section>, pick: ParsedItem -> bool)
    requires i < |base|
    ensures VisitedSections(WithTarget(base, |base|, target), if target.None? then i else i + 1, 0, target, pick)
         == WithTarget(base[i := StrippedRelease(base[i], pick)], |base|, After(target, SectionGives(base[i], pick)))
  {
    hide SectionGives, StrippedRelease, AddAll;
    var next := base[i := StrippedRelease(base[i], pick)];
    if target.Some? {
      assert ([target.value] + base)[i + 1 := next[i]] == [target.value] + next;
    }
  }

  lemma VisitsNext(before: seq<Section>, i: nat, sections: seq<Section>, target: Option<Section>, promoted: nat,
                   index: nat, place: nat, pick: ParsedItem -> bool)
    requires i <= |before| && AtStep(before, i, sections, target, promoted, pick)
    requires index == i + Shift(before, target) < |sections|
    requires place == if UnreleasedIndex(before) < |before| then UnreleasedIndex(before) else 0
    ensures i < |before| && place < |sections|
    ensures VisitedSections(sections, index, place, target, pick)
         == WithTarget(Halfway(before, i + 1, pick), UnreleasedIndex(before), After(target, SectionGives(before[i], pick)))
  {
    hide *;
    var base, u := Halfway(before, i, pick), UnreleasedIndex(before);
    AtStepParts(before, i, sections, target, promoted, pick);
    WithTargetLength(base, u, target);
    HalfwayStep(before, i, pick);
    VisitsBase(base, i, u, target, index, place, pick);
  }

  lemma AtStepParts(before: seq<Section>, i: nat, sections: seq<Section>, target: Option<Section>, promoted: nat, pick: ParsedItem -> bool)
    requires i <= |before| && AtStep(before, i, sections, target, promoted, pick)
    ensures var base, u := Halfway(before, i, pick), UnreleasedIndex(before);
            && sections == WithTarget(base, u, target)
            && Shift(before, target) == (if u < |before| || target.None? then 0 else 1)
            && (u < |before| ==> target.Some? && !IsReleased(target.value) && !IsReleased(base[u]))
            && (i < |before| ==> base[i] == before[i])
  {
    hide Moves, StrippedSection, AddAll, UnreleasedIndex, WithTarget;
    if UnreleasedIndex(before) < |before| {
      AddAllKeepsTitle(Target(before).value, Moves(before[..i], pick));
    }
  }

  lemma HalfwayStep(before: seq<Section>, i: nat, pick: ParsedItem -> bool)
    requires i < |before|
    ensures Halfway(before, i + 1, pick) == Halfway(before, i, pick)[i := StrippedRelease(before[i], pick)]
  {
    hide StrippedRelease;
  }

  lemma WithTargetLength(base: seq<Section>, u: nat, target: Option<Section>)
    ensures |WithTarget(base, u, target)| == |base| + if u < |base| || target.None? then 0 else 1
  {
  }

  lemma VisitsBase(base: seq<Section>, i: nat, u: nat, target: Option<Section>, index: nat, place: nat, pick: ParsedItem -> bool)
    requires i < |base| && u <= |base|
    requires u < |base| ==> target.Some? && !IsReleased(target.value) && !IsReleased(base[u])
    requires index == i + (if u < |base| || target.None? then 0 else 1) && place == if u < |base| then u else 0
    ensures index < |WithTarget(base, u, target)| && place < |WithTarget(base, u, target)|
    ensures VisitedSections(WithTarget(base, u, target), index, place, target, pick)
         == WithTarget(base[i := StrippedRelease(base[i], pick)], u, After(target, SectionGives(base[i], pick)))
  {
    hide SectionGives, StrippedRelease, AddAll, IsReleased, VisitedSections, After;
    WithTargetLength(base, u, target);
    if u == |base| {
      VisitMissing(base, i, target, pick);
    } else if i != u {
      VisitFound(base, i, u, target.value, pick);
    } else {
      VisitSelf(base, u, target.value, pick);
    }
  }

  /** One round of the loop: the next section is visited, or the one that has just made Unreleased again. */
  lemma Visits(before: seq<Section>, i: nat, sections: seq<Section>, target: Option<Section>, promoted: nat,
               index: nat, place: nat, starts: set<nat>)
    returns (j: nat)
    requires i <= |before| && AtStep(before, i, sections, target, promoted, StartPick(starts)) && NumberedReleases(before)
    requires IsNext(index, i, before, target) && index < |sections|
    requires place == if UnreleasedIndex(before) < |before| then UnreleasedIndex(before) else 0
    ensures place < |sections| && i <= j <= |before| && (j > i || |VisitedSections(sections, index, place, target, StartPick(starts))| == |sections|)
    ensures var gives := SectionGives(sections[index], StartPick(starts));
            && AtStep(before, j, VisitedSections(sections, index, place, target, StartPick(starts)), After(target, gives),
                      promoted + |gives|, StartPick(starts))
            && IsNext(index + 1, j, before, After(target, gives))
  {
    hide SectionGives, Moves, StrippedRelease, AddAll, UnreleasedIndex, StartPick, VisitedSections, NumberedReleases, Halfway, WithTarget;
    var pick := StartPick(starts);
    if index == i + Shift(before, target) {
      j := i + 1;
      VisitsNext(before, i, sections, target, promoted, index, place, pick);
      Meets(before, i, sections, target, promoted, pick);
      MovesStep(before, i, pick);
      AfterConcat(Target(before), Moves(before[..i], pick), SectionGives(before[i], pick));
      GivesReleased(before[i], pick);
    } else {
      j := i;
      VisitsAgain(before, i, sections, target, promoted, index, place, starts);
    }
  }

  lemma GivesReleased(section: Section, pick: ParsedItem -> bool)
    ensures SectionGives(section, pick) != [] ==> IsReleased(section)
  {
  }

  lemma VisitsAgain(before: seq<Section>, i: nat, sections: seq<Section>, target: Option<Section>, promoted: nat,
                    index: nat, place: nat, starts: set<nat>)
    requires i <= |before| && AtStep(before, i, sections, target, promoted, StartPick(starts)) && NumberedReleases(before)
    requires index == i > 0 && Shift(before, target) == 1 && IsReleased(before[i - 1]) && index < |sections|
    requires place < |sections|
    ensures SectionGives(sections[index], StartPick(starts)) == []
    ensures After(target, []) == target && VisitedSections(sections, index, place, target, StartPick(starts)) == sections
    ensures IsNext(index + 1, i, before, target)
  {
    hide Moves, Stripped, StrippedAll, SectionMoves, AddAll, UnreleasedIndex, StartPick, NumberedSection;
    var pick := StartPick(starts);
    assert sections[index] == Halfway(before, i, pick)[i - 1] == StrippedSection(before[i - 1], pick);
    assert NumberedSection(before[i - 1]);
    StrippedSectionGivesNothing(before[i - 1], starts);
  }

  lemma PromotionEnds(before: seq<Section>, i: nat, sections: seq<Section>, target: Option<Section>, promoted: nat,
                      index: nat, pick: ParsedItem -> bool)
    requires i <= |before| && AtStep(before, i, sections, target, promoted, pick)
    requires IsNext(index, i, before, target) && index >= |sections|
    ensures sections == Promoted(before, pick) && promoted == |Moves(before, pick)|
  {
    hide Moves, StrippedRelease, AddAll, UnreleasedIndex;
    if i < |before| {
      Meets(before, i, sections, target, promoted, pick);
    }
    assert before[..|before|] == before && Halfway(before, |before|, pick) == StrippedReleases(before, pick);
  }
}
