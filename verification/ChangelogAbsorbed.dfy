/** Which items a merge changes: the last one before a repeated category that begins with plain text takes that text in. */
module ChangelogAbsorbed {
  import opened ChangelogText
  import opened ChangelogDocument
  import opened ChangelogRoundTrip
  import opened ChangelogItems
  import opened ChangelogEditing
  import opened ChangelogMerge
  import opened ChangelogBodies
  import opened ChangelogPromotion
  import opened ChangelogFix
  import opened ChangelogKept
  import opened ChangelogOutcome
  import opened ChangelogRepeats

  // ---- appending plain text after items ----

  /** The text before the first item, without blank lines at its ends. */
  function Lead(body: seq<string>): seq<string> {
    TrimBlank(body[..NextItemText(body)])
  }

  /** Where the last item begins. */
  lemma LastItem(a: seq<string>) returns (j: nat)
    requires ItemTexts(a) != [] && Trimmed(a)
    ensures j < |a| && IsItemText(a[j..]) && ItemTexts(a) == ItemTexts(a[..j]) + [a[j..]]
  {
    hide IsListItem, Blank, TextsFrom, ItemTexts;
    NoItemsFound(a);
    j := |a| - 1;
    while !IsListItem(a[j])
      invariant NextItemText(a) <= j < |a| && forall i :: j < i < |a| ==> !IsListItem(a[i])
      decreases j
    {
      j := j - 1;
    }
    var last := a[j..];
    assert forall i :: 0 <= i < |last| - 1 ==> last[1..][i] == a[j + 1 + i];
    NextItemTextIs(last[1..], |last| - 1);
    OneItem(last);
    ItemsConcat(a[..j], last);
    assert a == a[..j] + last;
  }

  /** An item, an empty line and plain text are one item. */
  lemma LongerItem(item: seq<string>, plain: seq<string>)
    requires IsItemText(item) && plain != [] && !Blank(plain[0]) && forall i :: 0 <= i < |plain| ==> !IsListItem(plain[i])
    ensures ItemTexts(item + [""] + plain) == [item + [""] + TrimBlank(plain)]
  {
    hide IsListItem, Blank, TextsFrom, ItemTexts, AllBlank, TrimBlank, NextItemText;
    var core := TrimBlank(plain);
    TrimmedPrefix(plain);
    var before, after := TrimParts(plain);
    PlainAfter(plain, before, core, after);
    var long := item + [""] + core;
    PlainLine();
    forall i | 0 <= i < |long[1..]| ensures !IsListItem(long[1..][i]) {
      assert item[1..] == long[1..][..|item| - 1];
      assert i < |item| - 1 ==> long[1..][i] == item[1..][i];
      assert i > |item| - 1 ==> long[1..][i] == core[i - |item|] == plain[i - |item|];
    }
    NextItemTextIs(long[1..], |long| - 1);
    OneItem(long);
    ItemsBeforeBlanks(long, after);
    assert item + [""] + plain == long + after;
  }

  lemma PlainAfter(plain: seq<string>, before: seq<string>, core: seq<string>, after: seq<string>)
    requires plain == before + core + after && core <= plain && core != [] && AllBlank(before) && AllBlank(after)
    requires plain != [] && !Blank(plain[0])
    ensures before == [] && plain == core + after
  {
    hide Blank;
    StartsBlank(before, core + after);
    assert plain == before + (core + after);
  }

  lemma StartsBlank(before: seq<string>, rest: seq<string>)
    requires AllBlank(before)
    ensures before != [] ==> Blank((before + rest)[0])
  {
    hide Blank;
  }

  /** The last item of `a` takes in the text with which `b` begins; all other items stay. */
  lemma Absorbing(a: seq<string>, b: seq<string>)
    requires Trimmed(a) && Trimmed(b) && b != [] && !IsListItem(b[0]) && ItemTexts(a) != []
    ensures var items := ItemTexts(a);
      ItemTexts(a + [""] + b) == items[..|items| - 1] + [items[|items| - 1] + [""] + Lead(b)] + ItemTexts(b)
  {
    hide IsListItem, Blank, TextsFrom, ItemTexts, IsItemText, TrimBlank;
    var j := LastItem(a);
    var k := NextItemText(b);
    var plain, rest := b[..k], b[k..];
    FirstNotBlank(b);
    assert k > 0 && plain[0] == b[0];
    LongerItem(a[j..], plain);
    NoItemsFound(plain);
    NextItemTextIs(plain, k);
    ItemsConcat(plain, rest);
    assert b == plain + rest && [] + ItemTexts(rest) == ItemTexts(rest);
    var long := a[j..] + [""] + plain;
    ItemStarts(a[j..]);
    ItemsConcat(a[..j], long);
    ItemsConcat(a[..j] + long, rest);
    assert a + [""] + b == a[..j] + long + rest;
  }

  lemma ItemStarts(item: seq<string>)
    requires IsItemText(item)
    ensures item != [] && IsListItem(item[0])
  {
  }

  lemma FirstNotBlank(b: seq<string>)
    requires Trimmed(b) && b != []
    ensures !Blank(b[0])
  {
    hide Blank;
  }

  // ---- the items of joined bodies ----

  /** The items of the bodies joined one after the other. */
  function JoinItems(bodies: seq<seq<string>>): seq<seq<string>> {
    if bodies == [] then []
    else
      var n := |bodies| - 1;
      var before, b := JoinItems(bodies[..n]), bodies[n];
      if before == [] || StartsWithItem(b) then before + ItemTexts(b)
      else before[..|before| - 1] + [before[|before| - 1] + [""] + Lead(b)] + ItemTexts(b)
  }

  lemma {:induction false} JoinedItemTexts(bodies: seq<seq<string>>)
    requires AreBodies(bodies)
    ensures ItemTexts(Joined(bodies)) == JoinItems(bodies)
    decreases |bodies|
  {
    hide IsListItem, Blank, ItemTexts, Lead, Separator, Settled, Trimmed;
    var n := |bodies| - 1;
    if bodies == [] {
      NothingToParse();
    } else if n == 0 {
      JoinedOne(bodies[0]);
      assert bodies == [bodies[0]] && bodies[..0] == [] && [] + ItemTexts(bodies[0]) == ItemTexts(bodies[0]);
    } else {
      var init, b := bodies[..n], bodies[n];
      assert IsBody(b) && forall i :: 0 <= i < n ==> init[i] == bodies[i];
      JoinedItemTexts(init);
      JoinedEnds(init);
      JoinOne(Joined(init), b);
    }
  }

  lemma JoinOne(a: seq<string>, b: seq<string>)
    requires a != [] && Trimmed(a) && b != [] && Trimmed(b)
    ensures var items := ItemTexts(a);
      ItemTexts(a + Separator(a, b) + b)
        == if items == [] || StartsWithItem(b) then items + ItemTexts(b)
           else items[..|items| - 1] + [items[|items| - 1] + [""] + Lead(b)] + ItemTexts(b)
  {
    hide IsListItem, Blank, ItemTexts, Lead;
    SeparatorIsBlank(a, b);
    if ItemTexts(a) == [] || IsListItem(b[0]) {
      JoinedItems(a, Separator(a, b), b);
    } else {
      Absorbing(a, b);
    }
  }

  // ---- when nothing is absorbed ----

  function AllItems(bodies: seq<seq<string>>): seq<seq<string>> {
    if bodies == [] then [] else AllItems(bodies[..|bodies| - 1]) + ItemTexts(bodies[|bodies| - 1])
  }

  /** Only the first bodies, up to the first with an item, begin with plain text. */
  ghost predicate KeepsItems(bodies: seq<seq<string>>) {
    forall i {:trigger bodies[i]} :: 0 <= i < |bodies| && !StartsWithItem(bodies[i]) ==> AllItems(bodies[..i]) == []
  }

  function LineTotal(items: seq<seq<string>>): nat {
    if items == [] then 0 else LineTotal(items[..|items| - 1]) + |items[|items| - 1]|
  }

  lemma {:induction false} TotalConcat(a: seq<seq<string>>, b: seq<seq<string>>)
    ensures LineTotal(a + b) == LineTotal(a) + LineTotal(b)
    decreases |b|
  {
    if b == [] {
      assert a + b == a;
    } else {
      assert (a + b)[..|a + b| - 1] == a + b[..|b| - 1];
      TotalConcat(a, b[..|b| - 1]);
    }
  }

  /** Joining makes no item and loses none, it only lengthens some. */
  lemma {:induction false} JoinLengthens(bodies: seq<seq<string>>)
    ensures |JoinItems(bodies)| == |AllItems(bodies)| && LineTotal(JoinItems(bodies)) >= LineTotal(AllItems(bodies))
    ensures JoinItems(bodies) == AllItems(bodies) <==> KeepsItems(bodies)
    decreases |bodies|
  {
    hide ItemTexts, StartsWithItem, Lead, LineTotal;
    if bodies == [] {
      assert JoinItems(bodies) == AllItems(bodies);
    } else {
      var n := |bodies| - 1;
      var init, b := bodies[..n], bodies[n];
      JoinLengthens(init);
      var before, all := JoinItems(init), AllItems(init);
      SnocKeeps(bodies);
      TotalConcat(all, ItemTexts(b));
      if before == [] || StartsWithItem(b) {
        TotalConcat(before, ItemTexts(b));
        SameEnd(before, all, ItemTexts(b));
      } else {
        var m := |before| - 1;
        var longer := before[m] + [""] + Lead(b);
        TotalConcat(before[..m], [longer]);
        TotalConcat(before[..m], [before[m]]);
        TotalConcat(before[..m] + [longer], ItemTexts(b));
        OneTotal(longer);
        OneTotal(before[m]);
        assert before == before[..m] + [before[m]];
      }
    }
  }

  lemma OneTotal(item: seq<string>)
    ensures LineTotal([item]) == |item|
  {
    assert [item][..0] == [] && LineTotal([]) == 0;
  }

  lemma SameEnd(a: seq<seq<string>>, b: seq<seq<string>>, end: seq<seq<string>>)
    requires |a| == |b|
    ensures a + end == b + end <==> a == b
  {
    assert (a + end)[..|a|] == a && (b + end)[..|b|] == b;
  }

  lemma SnocKeeps(bodies: seq<seq<string>>)
    requires bodies != []
    ensures var n := |bodies| - 1;
      KeepsItems(bodies) <==> KeepsItems(bodies[..n]) && (StartsWithItem(bodies[n]) || AllItems(bodies[..n]) == [])
  {
    hide StartsWithItem, AllItems;
    var n := |bodies| - 1;
    var init := bodies[..n];
    forall i | 0 <= i < n ensures init[i] == bodies[i] && init[..i] == bodies[..i] {
    }
    if KeepsItems(bodies) {
      forall i | 0 <= i < |init| && !StartsWithItem(init[i]) ensures AllItems(init[..i]) == [] {
        assert !StartsWithItem(bodies[i]);
      }
    }
    if KeepsItems(init) && (StartsWithItem(bodies[n]) || AllItems(init) == []) {
      forall i | 0 <= i < |bodies| && !StartsWithItem(bodies[i]) ensures AllItems(bodies[..i]) == [] {
        assert i < n ==> !StartsWithItem(init[i]);
      }
    }
  }

  lemma {:induction false} ItemsOfBodies(subsections: seq<Subsection>, title: string)
    ensures AllItems(BodiesUnder(subsections, title)) == ItemsUnder(subsections, title)
  {
    hide CompactBody, ItemTexts;
    if subsections != [] {
      var n := |subsections| - 1;
      var s := subsections[n];
      var before := BodiesUnder(subsections[..n], title);
      ItemsOfBodies(subsections[..n], title);
      SnocBodies(subsections, title);
      BodyLines(s);
      NothingToParse();
      assert (before + [CompactBody(s)])[..|before|] == before;
      assert ItemsUnder(subsections[..n], title) + [] == ItemsUnder(subsections[..n], title);
    }
  }

  /** No title has a category with plain text after an item of the title. */
  ghost predicate TitlesKeepItems(subsections: seq<Subsection>) {
    forall title {:trigger BodiesUnder(subsections, title)} :: KeepsItems(BodiesUnder(subsections, title))
  }

  /** What one title ends up with. */
  lemma TitleItems(subsections: seq<Subsection>, title: string)
    ensures JoinItems(BodiesUnder(subsections, title)) == ItemsUnder(subsections, title) <==> KeepsItems(BodiesUnder(subsections, title))
    ensures BodiesUnder(subsections, title) == [] ==> ItemsUnder(subsections, title) == [] && KeepsItems(BodiesUnder(subsections, title))
  {
    hide *;
    JoinLengthens(BodiesUnder(subsections, title));
    ItemsOfBodies(subsections, title);
    NoBodies();
  }

  lemma MergedTitleItems(subsections: seq<Subsection>, j: nat)
    requires j < |MergeAll(subsections)|
    ensures var s := MergeAll(subsections)[j]; ItemTexts(Texts(s.lines)) == JoinItems(BodiesUnder(subsections, s.title))
  {
    hide MergeAll, BodiesUnder, ItemTexts, Joined, JoinItems, AreBodies, HasCategory;
    MergeJoinsBodies(subsections);
    JoinedItemTexts(BodiesUnder(subsections, MergeAll(subsections)[j].title));
  }

  /** Every title keeps exactly the sequence of its items if and only if no repeated category brings plain text after an item. */
  lemma MergeKeepsItemsIff(subsections: seq<Subsection>)
    ensures GathersItems(MergeAll(subsections), subsections) <==> TitlesKeepItems(subsections)
  {
    hide MergeAll, BodiesUnder, ItemTexts, ItemsUnder, Joined, JoinItems, AllItems, KeepsItems, AreBodies;
    var list := MergeAll(subsections);
    MergeJoinsBodies(subsections);
    if GathersItems(list, subsections) {
      forall title ensures KeepsItems(BodiesUnder(subsections, title)) {
        TitleItems(subsections, title);
        if HasCategory(list, title) {
          var j :| 0 <= j < |list| && list[j].title == title;
          MergedTitleItems(subsections, j);
        }
      }
    }
    if TitlesKeepItems(subsections) {
      forall j | 0 <= j < |list| ensures ItemTexts(Texts(list[j].lines)) == ItemsUnder(subsections, list[j].title) {
        TitleItems(subsections, list[j].title);
        MergedTitleItems(subsections, j);
      }
      forall title | !HasCategory(list, title) ensures ItemsUnder(subsections, title) == [] {
        TitleItems(subsections, title);
      }
    }
  }

  lemma NoBodies()
    ensures KeepsItems([]) && AllItems([]) == []
  {
  }

  // ---- the whole fix ----

  /** The key of an item of the section once its categories are merged. */
  ghost predicate MergedItem(section: Section, key: string) {
    exists title {:trigger BodiesUnder(section.subsections, title)} :: KeyAmong(JoinItems(BodiesUnder(section.subsections, title)), key)
  }

  lemma MergedItemIs(section: Section, key: string)
    ensures SectionHasKey(Normalized(section), key) <==> MergedItem(section, key)
  {
    hide BodiesUnder, Joined, JoinItems, ItemTexts, KeyAmong, SectionHasKey, Normalized, AreBodies;
    NormalizedHasKey(section, key);
    forall title ensures ItemTexts(Joined(BodiesUnder(section.subsections, title))) == JoinItems(BodiesUnder(section.subsections, title)) {
      BodiesAre(section.subsections, title);
      JoinedItemTexts(BodiesUnder(section.subsections, title));
    }
  }

  /** The sections before they are normalised. */
  function Gathered(content: string, starts: set<nat>, keys: set<string>): seq<Section> {
    Promoted(Dropped(Parse(content).sections, keys), StartPick(starts))
  }

  ghost predicate SomeMergedItem(sections: seq<Section>, key: string) {
    exists k {:trigger sections[k]} :: 0 <= k < |sections| && MergedItem(sections[k], key)
  }

  lemma NormalizedAllHas(sections: seq<Section>, key: string)
    ensures DocumentHas(SortedSections(NormalizedAll(sections)), key) <==> SomeMergedItem(sections, key)
  {
    hide MergedItem, SectionHasKey, Normalized, SortedSections;
    var normalized := NormalizedAll(sections);
    var sorted := SortedSections(normalized);
    SortedMembers(normalized);
    forall k | 0 <= k < |sections| ensures SectionHasKey(normalized[k], key) <==> MergedItem(sections[k], key) {
      MergedItemIs(sections[k], key);
    }
    if DocumentHas(sorted, key) {
      var p :| 0 <= p < |sorted| && SectionHasKey(sorted[p], key);
      assert sorted[p] in normalized;
      var k :| 0 <= k < |normalized| && normalized[k] == sorted[p];
      assert MergedItem(sections[k], key);
    }
    if SomeMergedItem(sections, key) {
      var k :| 0 <= k < |sections| && MergedItem(sections[k], key);
      assert SectionHasKey(normalized[k], key);
      assert normalized[k] in sorted;
      var p :| 0 <= p < |sorted| && sorted[p] == normalized[k];
    }
  }

  /**
   The items of the fixed changelog, exactly: those of the categories as they
   are joined, so every item that no later category of its title, beginning
   with plain text, lengthens, and the lengthened ones.
   */
  lemma FixedKeys(content: string, starts: set<nat>, keys: set<string>, key: string)
    ensures DocumentHas(Parse(Fixed(content, starts, keys)).sections, key) <==> SomeMergedItem(Gathered(content, starts, keys), key)
  {
    hide *;
    var fixed, again := FixedSections(Parse(content).sections, starts, keys), Parse(Fixed(content, starts, keys)).sections;
    FixedReadsBack(content, starts, keys);
    FixedSectionsIs(Parse(content).sections, starts, keys);
    GatheredIs(content, starts, keys);
    NormalizedAllHas(Gathered(content, starts, keys), key);
    if DocumentHas(fixed, key) {
      ReadBackHas(fixed, again, key);
    }
    if DocumentHas(again, key) {
      ReadBackHas(again, fixed, key);
    }
  }

  lemma GatheredIs(content: string, starts: set<nat>, keys: set<string>)
    ensures Gathered(content, starts, keys) == Promoted(Dropped(Parse(content).sections, keys), StartPick(starts))
  {
    hide Promoted, Dropped, Parse, StartPick;
  }

  ghost predicate AllKeepItems(sections: seq<Section>) {
    forall k {:trigger sections[k]} :: 0 <= k < |sections| ==> TitlesKeepItems(sections[k].subsections)
  }

  lemma KeptAreMerged(section: Section, key: string)
    requires TitlesKeepItems(section.subsections)
    ensures MergedItem(section, key) <==> SectionHasKey(section, key)
  {
    hide BodiesUnder, JoinItems, KeyAmong, SectionHasKey, KeepsItems, ItemsUnder, AllItems, Has;
    SectionHas(section, key);
    forall t ensures KeyAmong(JoinItems(BodiesUnder(section.subsections, t)), key) <==> Has(section.subsections, t, key) {
      TitleItems(section.subsections, t);
      KeysUnder(section.subsections, t, key);
    }
    if SectionHasKey(section, key) {
      var t :| Has(section.subsections, t, key);
      assert KeyAmong(JoinItems(BodiesUnder(section.subsections, t)), key);
    }
  }

  /** If nothing is absorbed the output has every input item, and no item that the gathered sections do not have. */
  lemma NothingAbsorbedKeys(content: string, starts: set<nat>, keys: set<string>, key: string)
    requires IsKeySet(keys, Parse(content).sections, {}) && AllKeepItems(Gathered(content, starts, keys))
    ensures DocumentHas(Parse(Fixed(content, starts, keys)).sections, key) <==> DocumentHas(Gathered(content, starts, keys), key)
    ensures DocumentHas(Parse(content).sections, key) ==> DocumentHas(Parse(Fixed(content, starts, keys)).sections, key)
  {
    hide Parse, Fixed, Promoted, Dropped, StartPick, SectionHasKey, MergedItem, TitlesKeepItems, Sound, IsKeySet, Gathered;
    var sections := Parse(content).sections;
    var gathered := Gathered(content, starts, keys);
    FixedKeys(content, starts, keys, key);
    forall k | 0 <= k < |gathered| ensures MergedItem(gathered[k], key) <==> SectionHasKey(gathered[k], key) {
      KeptAreMerged(gathered[k], key);
    }
    if DocumentHas(sections, key) {
      ParsedIsSound(content);
      DroppedKeepsKey(sections, keys, key);
      DroppedIsSound(sections, keys);
      PromotedKeepsKey(Dropped(sections, keys), StartPick(starts), key);
      GatheredIs(content, starts, keys);
    }
  }
}
