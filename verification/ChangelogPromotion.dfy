/** Moving items added to a released section back to Unreleased, and dropping what Unreleased repeats of the releases. */
module ChangelogPromotion {
  import opened ChangelogText
  import opened ChangelogDocument
  import opened ChangelogItems
  import opened ChangelogEditing
  import opened Wrappers

  const UNRELEASED := "Unreleased"

  predicate IsReleased(section: Section) {
    section.title != UNRELEASED
  }

  /** Two items are the same if their trimmed lines are. */
  function ItemKey(lines: seq<string>): string {
    Join(TrimBlank(lines))
  }

  lemma JoinIsInjective(a: seq<string>, b: seq<string>)
    requires OneLines(a) && OneLines(b) && Trimmed(a) && Trimmed(b)
    ensures Join(a) == Join(b) <==> a == b
  {
    hide OneLine;
    if Join(a) == Join(b) {
      OnlyNothingIsEmpty(a);
      OnlyNothingIsEmpty(b);
      if a != [] && b != [] {
        SplitJoin(a);
        SplitJoin(b);
      }
    }
  }

  lemma OnlyNothingIsEmpty(lines: seq<string>)
    requires Trimmed(lines)
    ensures Join(lines) == "" <==> lines == []
  {
    if lines != [] {
      assert !Blank(lines[0]);
    }
  }

  /** Items have the same key exactly if their trimmed lines are the same, all of them. */
  lemma KeyIsText(a: seq<string>, b: seq<string>)
    requires OneLines(a) && OneLines(b)
    ensures ItemKey(a) == ItemKey(b) <==> TrimBlank(a) == TrimBlank(b)
    ensures ItemKey(a) == "" <==> AllBlank(a)
  {
    hide OneLine, Blank, TrimBlank;
    TrimmedLines(a);
    TrimmedLines(b);
    JoinIsInjective(TrimBlank(a), TrimBlank(b));
    OnlyNothingIsEmpty(TrimBlank(a));
  }

  lemma TrimmedLines(lines: seq<string>)
    requires OneLines(lines)
    ensures OneLines(TrimBlank(lines)) && Trimmed(TrimBlank(lines)) && (TrimBlank(lines) == [] <==> AllBlank(lines))
  {
    hide OneLine, Blank, TrimBlank;
    var before, after := TrimParts(lines);
    var core := TrimBlank(lines);
    forall k | 0 <= k < |core| ensures OneLine(core[k]) {
      assert OneLine(lines[|before| + k]);
    }
    if core == [] {
      forall k | 0 <= k < |lines| ensures Blank(lines[k]) {
        assert if k < |before| then Blank(before[k]) else Blank(after[k - |before|]);
      }
    } else {
      assert lines[|before|] == core[0] && !Blank(core[0]);
    }
  }

  function KeyPick(keys: set<string>): ParsedItem -> bool {
    (item: ParsedItem) => ItemKey(item.lines) in keys
  }

  function StartPick(starts: set<nat>): ParsedItem -> bool {
    (item: ParsedItem) => item.startLine in starts
  }

  // ---- taking items out ----

  function Stripped(s: Subsection, pick: ParsedItem -> bool): Subsection {
    Subsection(s.title, Without(s.lines, Picked(Items(s.lines), pick, true)))
  }

  function StrippedAll(subsections: seq<Subsection>, pick: ParsedItem -> bool): (r: seq<Subsection>)
    ensures |r| == |subsections|
    ensures forall j :: 0 <= j < |r| ==> r[j] == Stripped(subsections[j], pick)
  {
    seq(|subsections|, j requires 0 <= j < |subsections| => Stripped(subsections[j], pick))
  }

  function StrippedSection(section: Section, pick: ParsedItem -> bool): Section {
    section.(subsections := StrippedAll(section.subsections, pick))
  }

  method PickItems(items: seq<ParsedItem>, pick: ParsedItem -> bool) returns (r: seq<ParsedItem>)
    ensures r == Picked(items, pick, true)
  {
    r := [];
    for i := 0 to |items|
      invariant r + Picked(items[i..], pick, true) == Picked(items, pick, true)
    {
      assert items[i..][1..] == items[i + 1..];
      if pick(items[i]) {
        r := r + [items[i]];
      }
    }
    assert items[|items|..] == [];
  }

  lemma NothingToStrip(s: Subsection, pick: ParsedItem -> bool)
    requires Picked(Items(s.lines), pick, true) == []
    ensures Stripped(s, pick) == s
  {
    hide Items, Picked;
    WithoutNone(s.lines, []);
  }

  method StripSubsection(s: Subsection, pick: ParsedItem -> bool) returns (r: Subsection, taken: seq<ParsedItem>)
    ensures r == Stripped(s, pick) && taken == Picked(Items(s.lines), pick, true)
  {
    hide Items, Picked, Without;
    var items := ParseItems(s.lines);
    taken := PickItems(items, pick);
    r := s;
    if |taken| == 0 {
      NothingToStrip(s, pick);
      return;
    }
    var lines := RemoveItems(s.lines, taken);
    r := Subsection(s.title, lines);
  }

  // ---- keys of the releases ----

  ghost predicate HasKey(s: Subsection, key: string) {
    exists i :: 0 <= i < |Items(s.lines)| && ItemKey(Items(s.lines)[i].lines) == key
  }

  ghost predicate SectionHasKey(section: Section, key: string) {
    exists j :: 0 <= j < |section.subsections| && HasKey(section.subsections[j], key)
  }

  ghost predicate ReleasedKey(sections: seq<Section>, key: string) {
    key != "" && exists k :: 0 <= k < |sections| && IsReleased(sections[k]) && SectionHasKey(sections[k], key)
  }

  method SubsectionKeys(s: Subsection) returns (keys: set<string>)
    ensures forall key :: key in keys <==> key != "" && HasKey(s, key)
  {
    hide Items, ItemKey;
    var items := ParseItems(s.lines);
    keys := {};
    for i := 0 to |items|
      invariant forall key :: key in keys <==> key != "" && exists h :: 0 <= h < i && ItemKey(items[h].lines) == key
    {
      var key := ItemKey(items[i].lines);
      if key != "" {
        keys := keys + {key};
      }
    }
  }

  method SectionKeys(section: Section) returns (keys: set<string>)
    ensures forall key :: key in keys <==> key != "" && SectionHasKey(section, key)
  {
    hide HasKey;
    keys := {};
    for j := 0 to |section.subsections|
      invariant forall key :: key in keys <==>
        key != "" && exists h :: 0 <= h < j && HasKey(section.subsections[h], key)
    {
      var more := SubsectionKeys(section.subsections[j]);
      keys := keys + more;
    }
  }

  method CollectReleasedItemKeys(sections: seq<Section>) returns (keys: set<string>)
    ensures forall key :: key in keys <==> ReleasedKey(sections, key)
  {
    hide SectionHasKey;
    keys := {};
    for k := 0 to |sections|
      invariant forall key :: key in keys <==>
        key != "" && exists h :: 0 <= h < k && IsReleased(sections[h]) && SectionHasKey(sections[h], key)
    {
      if IsReleased(sections[k]) {
        var more := SectionKeys(sections[k]);
        keys := keys + more;
      }
    }
  }

  // ---- putting items in ----

  datatype Move = Move(title: string, lines: seq<string>)

  function MovesOf(title: string, items: seq<ParsedItem>): (r: seq<Move>)
    ensures |r| == |items|
    ensures forall i :: 0 <= i < |r| ==> r[i] == Move(title, items[i].lines)
  {
    seq(|items|, i requires 0 <= i < |items| => Move(title, items[i].lines))
  }

  function SubsectionMoves(s: Subsection, pick: ParsedItem -> bool): seq<Move> {
    MovesOf(s.title, Picked(Items(s.lines), pick, true))
  }

  function SectionMoves(subsections: seq<Subsection>, pick: ParsedItem -> bool): seq<Move> {
    if subsections == [] then []
    else SectionMoves(subsections[..|subsections| - 1], pick) + SubsectionMoves(subsections[|subsections| - 1], pick)
  }

  /** The items the releases give up, in the order of the document. */
  function Moves(sections: seq<Section>, pick: ParsedItem -> bool): seq<Move> {
    if sections == [] then []
    else
      var last := sections[|sections| - 1];
      Moves(sections[..|sections| - 1], pick) + if IsReleased(last) then SectionMoves(last.subsections, pick) else []
  }

  /** The last category of the title, or the number of categories. */
  function LastIndexOf(list: seq<Subsection>, title: string): (j: nat)
    ensures j <= |list| && (j < |list| ==> list[j].title == title)
    ensures j == |list| ==> forall i {:trigger list[i]} :: 0 <= i < |list| ==> list[i].title != title
    ensures forall i {:trigger list[i]} :: j < i < |list| ==> list[i].title != title
    decreases |list|
  {
    if list == [] then 0
    else
      var n := |list| - 1;
      if list[n].title == title then n
      else
        var j := LastIndexOf(list[..n], title);
        assert forall i :: 0 <= i < n ==> list[..n][i] == list[i];
        if j == n then |list| else j
  }

  predicate SubsectionHasItem(s: Subsection, lines: seq<string>) {
    ItemKey(lines) == "" || exists i :: 0 <= i < |Items(s.lines)| && ItemKey(Items(s.lines)[i].lines) == ItemKey(lines)
  }

  /** The section with a category of the title, made if there is none. */
  function WithCategory(section: Section, title: string): (r: Section)
    ensures LastIndexOf(r.subsections, title) < |r.subsections|
  {
    if LastIndexOf(section.subsections, title) < |section.subsections| then section
    else section.(subsections := section.subsections + [Subsection(title, [])])
  }

  function PutItem(section: Section, j: nat, lines: seq<string>): Section
    requires j < |section.subsections|
  {
    var target := section.subsections[j];
    if SubsectionHasItem(target, lines) then section
    else section.(subsections := section.subsections[j := Subsection(target.title, Appended(target.lines, lines))])
  }

  /** The last category of the title, made if there is none, gets the item unless it has it. */
  function AddOne(section: Section, move: Move): Section {
    var ready := WithCategory(section, move.title);
    PutItem(ready, LastIndexOf(ready.subsections, move.title), move.lines)
  }

  function AddAll(section: Section, moves: seq<Move>): Section {
    if moves == [] then section
    else AddOne(AddAll(section, moves[..|moves| - 1]), moves[|moves| - 1])
  }

  lemma {:induction false} AddAllConcat(section: Section, a: seq<Move>, b: seq<Move>)
    ensures AddAll(section, a + b) == AddAll(AddAll(section, a), b)
  {
    hide AddOne;
    if b == [] {
      assert a + b == a;
    } else {
      assert (a + b)[..|a + b| - 1] == a + b[..|b| - 1];
      AddAllConcat(section, a, b[..|b| - 1]);
    }
  }

  const NEW_UNRELEASED := Section("## [Unreleased]", UNRELEASED, [], [])

  lemma {:induction false} LastIs(list: seq<Subsection>, title: string, j: nat)
    requires j < |list| && list[j].title == title
    requires forall i {:trigger list[i]} :: j < i < |list| ==> list[i].title != title
    ensures LastIndexOf(list, title) == j
  {
  }

  lemma PutItemStays(section: Section, title: string, lines: seq<string>)
    requires LastIndexOf(section.subsections, title) < |section.subsections|
    ensures var j := LastIndexOf(section.subsections, title);
            var r := PutItem(section, j, lines);
            |r.subsections| == |section.subsections| && LastIndexOf(r.subsections, title) == j
  {
    hide SubsectionHasItem, Appended, LastIndexOf;
    var j := LastIndexOf(section.subsections, title);
    LastIs(PutItem(section, j, lines).subsections, title, j);
  }

  /** The category is looked up once for all items of one source category. */
  method AddItems(section: Section, title: string, items: seq<ParsedItem>) returns (r: Section)
    requires items != []
    ensures r == AddAll(section, MovesOf(title, items))
  {
    hide LastIndexOf, PutItem;
    r := WithCategory(section, title);
    var j := LastIndexOf(r.subsections, title);
    ghost var moves := MovesOf(title, items);
    for i := 0 to |items|
      invariant j < |r.subsections| && LastIndexOf(r.subsections, title) == j
      invariant WithCategory(AddAll(section, moves[..i]), title) == r
      invariant i > 0 ==> AddAll(section, moves[..i]) == r
    {
      assert moves[..i + 1][..i] == moves[..i] && moves[i] == Move(title, items[i].lines);
      PutItemStays(r, title, items[i].lines);
      r := PutItem(r, j, items[i].lines);
    }
    assert moves[..|items|] == moves;
  }

  /** Unreleased with items added to it; made if there are some and it is missing. */
  function After(target: Option<Section>, moves: seq<Move>): Option<Section> {
    if moves == [] then target else Some(AddAll(target.GetOr(NEW_UNRELEASED), moves))
  }

  lemma AfterConcat(target: Option<Section>, a: seq<Move>, b: seq<Move>)
    ensures After(After(target, a), b) == After(target, a + b)
  {
    hide AddAll;
    if a == [] {
      assert a + b == b;
    } else if b == [] {
      assert a + b == a;
    } else {
      AddAllConcat(target.GetOr(NEW_UNRELEASED), a, b);
    }
  }

  method PromoteSubsection(s: Subsection, target0: Option<Section>, pick: ParsedItem -> bool)
    returns (stripped: Subsection, target: Option<Section>, promoted: nat)
    ensures stripped == Stripped(s, pick) && promoted == |SubsectionMoves(s, pick)|
    ensures target == After(target0, SubsectionMoves(s, pick))
  {
    hide Stripped, Picked, Items, AddAll;
    target, promoted := target0, 0;
    var taken;
    stripped, taken := StripSubsection(s, pick);
    if |taken| > 0 {
      var unreleased := target.GetOr(NEW_UNRELEASED);
      unreleased := AddItems(unreleased, s.title, taken);
      target := Some(unreleased);
      promoted := |taken|;
    }
  }

  /** One release: what it keeps, and Unreleased with what it gave up. */
  method PromoteSection(section: Section, target0: Option<Section>, pick: ParsedItem -> bool)
    returns (stripped: Section, target: Option<Section>, promoted: nat)
    ensures stripped == StrippedSection(section, pick)
    ensures promoted == |SectionMoves(section.subsections, pick)|
    ensures target == After(target0, SectionMoves(section.subsections, pick))
  {
    hide Stripped, SubsectionMoves, After;
    target, promoted := target0, 0;
    NothingAfter(target0);
    var kept: seq<Subsection> := [];
    var subsections := section.subsections;
    for j := 0 to |subsections|
      invariant kept == StrippedAll(subsections, pick)[..j]
      invariant promoted == |SectionMoves(subsections[..j], pick)|
      invariant target == After(target0, SectionMoves(subsections[..j], pick))
    {
      assert subsections[..j + 1][..j] == subsections[..j];
      AfterConcat(target0, SectionMoves(subsections[..j], pick), SubsectionMoves(subsections[j], pick));
      var s, n;
      s, target, n := PromoteSubsection(subsections[j], target, pick);
      kept := kept + [s];
      promoted := promoted + n;
    }
    assert subsections[..|subsections|] == subsections;
    stripped := section.(subsections := kept);
  }

  lemma NothingAfter(target: Option<Section>)
    ensures After(target, []) == target
  {
  }
}
