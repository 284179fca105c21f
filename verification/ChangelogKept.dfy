/** No entry is lost by the fix, and promoted items end up under their category in Unreleased. */
module ChangelogKept {
  import opened ChangelogText
  import opened ChangelogDocument
  import opened ChangelogRoundTrip
  import opened ChangelogItems
  import opened ChangelogEditing
  import opened ChangelogMerge
  import opened ChangelogPromotion
  import opened ChangelogFix
  import opened Wrappers

  // ---- where a key is ----

  ghost predicate KeyAmong(items: seq<seq<string>>, key: string) {
    exists i :: 0 <= i < |items| && ItemKey(items[i]) == key
  }

  /** Some category of the title has the item. */
  ghost predicate Has(subsections: seq<Subsection>, title: string, key: string) {
    exists j {:trigger subsections[j]} :: 0 <= j < |subsections| && subsections[j].title == title && HasKey(subsections[j], key)
  }

  ghost predicate DocumentHas(sections: seq<Section>, key: string) {
    exists k :: 0 <= k < |sections| && SectionHasKey(sections[k], key)
  }

  lemma KeysOfTexts(s: Subsection, key: string)
    ensures HasKey(s, key) <==> KeyAmong(ItemTexts(Texts(s.lines)), key)
  {
    hide Items, ItemTexts, ItemKey;
    ItemsHaveTexts(s.lines);
  }

  lemma KeyAmongConcat(a: seq<seq<string>>, b: seq<seq<string>>, key: string)
    ensures KeyAmong(a + b, key) <==> KeyAmong(a, key) || KeyAmong(b, key)
  {
    hide ItemKey;
    var all := a + b;
    if KeyAmong(a, key) {
      var i :| 0 <= i < |a| && ItemKey(a[i]) == key;
      assert ItemKey(all[i]) == key;
    }
    if KeyAmong(b, key) {
      var i :| 0 <= i < |b| && ItemKey(b[i]) == key;
      assert ItemKey(all[|a| + i]) == key;
    }
    if KeyAmong(all, key) {
      var i :| 0 <= i < |all| && ItemKey(all[i]) == key;
      assert if i < |a| then ItemKey(a[i]) == key else ItemKey(b[i - |a|]) == key;
    }
  }

  lemma SectionHas(section: Section, key: string)
    ensures SectionHasKey(section, key) <==> exists t :: Has(section.subsections, t, key)
  {
    hide HasKey;
    if SectionHasKey(section, key) {
      var j :| 0 <= j < |section.subsections| && HasKey(section.subsections[j], key);
      assert Has(section.subsections, section.subsections[j].title, key);
    }
  }

  // ---- normalising ----

  lemma SnocHas(init: seq<Subsection>, s: Subsection, t: string, key: string)
    ensures Has(init + [s], t, key) <==> Has(init, t, key) || (s.title == t && HasKey(s, key))
  {
    hide HasKey;
    var all := init + [s];
    if Has(init, t, key) {
      var j :| 0 <= j < |init| && init[j].title == t && HasKey(init[j], key);
      assert all[j] == init[j];
    }
    if s.title == t && HasKey(s, key) {
      assert all[|init|] == s;
    }
  }

  lemma {:induction false} KeysUnder(subsections: seq<Subsection>, t: string, key: string)
    ensures KeyAmong(ItemsUnder(subsections, t), key) <==> Has(subsections, t, key)
  {
    hide ItemTexts, HasKey, KeyAmong, Has;
    if subsections == [] {
      NoKeys(t, key);
    } else {
      var n := |subsections| - 1;
      KeysUnder(subsections[..n], t, key);
      assert subsections == subsections[..n] + [subsections[n]];
      SnocHas(subsections[..n], subsections[n], t, key);
      KeysOfTexts(subsections[n], key);
      KeyAmongConcat(ItemsUnder(subsections[..n], t), ItemTexts(Texts(subsections[n].lines)), key);
      assert ItemsUnder(subsections[..n], t) + [] == ItemsUnder(subsections[..n], t);
    }
  }

  lemma NoKeys(t: string, key: string)
    ensures !KeyAmong([], key) && !Has([], t, key)
  {
  }

  /** Merging the categories leaves each item under its title, and brings in none. */
  lemma MergeKeepsKeys(subsections: seq<Subsection>, t: string, key: string)
    requires RepeatsStartWithItem(subsections)
    ensures Has(MergeAll(subsections), t, key) <==> Has(subsections, t, key)
  {
    hide HasKey, KeyAmong, ItemTexts, MergeAll, RepeatsStartWithItem, ItemsUnder;
    MergeGathersItems(subsections);
    KeysUnder(subsections, t, key);
    var list := MergeAll(subsections);
    if Has(list, t, key) {
      var j :| 0 <= j < |list| && list[j].title == t && HasKey(list[j], key);
      KeysOfTexts(list[j], key);
    }
    if Has(subsections, t, key) {
      NoKeys(t, key);
      assert HasCategory(list, t);
      var j :| 0 <= j < |list| && list[j].title == t;
      KeysOfTexts(list[j], key);
    }
  }

  lemma SortKeepsKeys(list: seq<Subsection>, t: string, key: string)
    ensures Has(InOrder(list), t, key) <==> Has(list, t, key)
  {
    hide HasKey, InOrder;
    var sorted := InOrder(list);
    if Has(list, t, key) {
      var j :| 0 <= j < |list| && list[j].title == t && HasKey(list[j], key);
      assert list[j] in multiset(sorted);
      var i :| 0 <= i < |sorted| && sorted[i] == list[j];
    }
    if Has(sorted, t, key) {
      var i :| 0 <= i < |sorted| && sorted[i].title == t && HasKey(sorted[i], key);
      assert sorted[i] in multiset(list);
      var j :| 0 <= j < |list| && list[j] == sorted[i];
    }
  }

  lemma NormalizedKeepsKeys(section: Section, t: string, key: string)
    requires RepeatsStartWithItem(section.subsections)
    ensures Has(Normalized(section).subsections, t, key) <==> Has(section.subsections, t, key)
  {
    hide Has, MergeAll, InOrder, RepeatsStartWithItem, CleanLines;
    MergeKeepsKeys(section.subsections, t, key);
    SortKeepsKeys(MergeAll(section.subsections), t, key);
  }

  // ---- taking items out ----

  lemma {:induction false} PickedHas(items: seq<ParsedItem>, pick: ParsedItem -> bool, want: bool, i: nat)
    requires i < |items| && pick(items[i]) == want
    ensures exists j :: 0 <= j < |Picked(items, pick, want)| && Picked(items, pick, want)[j] == items[i]
  {
    if i > 0 {
      PickedHas(items[1..], pick, want, i - 1);
      var rest := Picked(items[1..], pick, want);
      var j :| 0 <= j < |rest| && rest[j] == items[i];
      var head := if pick(items[0]) == want then [items[0]] else [];
      assert Picked(items, pick, want) == head + rest;
      assert (head + rest)[|head| + j] == items[i];
    } else {
      assert Picked(items, pick, want)[0] == items[0];
    }
  }

  lemma {:induction false} PickedAre(items: seq<ParsedItem>, pick: ParsedItem -> bool, want: bool, j: nat)
    requires j < |Picked(items, pick, want)|
    ensures pick(Picked(items, pick, want)[j]) == want && Picked(items, pick, want)[j] in items
  {
    if items != [] {
      var rest := Picked(items[1..], pick, want);
      var head := if pick(items[0]) == want then [items[0]] else [];
      assert Picked(items, pick, want) == head + rest;
      if j >= |head| {
        PickedAre(items[1..], pick, want, j - |head|);
      }
    }
  }

  /** A category without picked items has all its other items. */
  lemma StrippedKeeps(s: Subsection, pick: ParsedItem -> bool, i: nat)
    requires Increasing(s.lines) && i < |Items(s.lines)| && !pick(Items(s.lines)[i])
    ensures HasKey(Stripped(s, pick), ItemKey(Items(s.lines)[i].lines))
  {
    hide Items, ItemKey, Picked, Without, Increasing, NextItem;
    RemovingLeavesOthers(s.lines, pick);
    PickedHas(Items(s.lines), pick, false, i);
    var left := Items(Stripped(s, pick).lines);
    var j :| 0 <= j < |left| && left[j] == Items(s.lines)[i];
    assert ItemKey(left[j].lines) == ItemKey(Items(s.lines)[i].lines);
  }

  /** The move is among the moves. */
  ghost predicate Among(moves: seq<Move>, move: Move) {
    exists i :: 0 <= i < |moves| && moves[i] == move
  }

  lemma AmongConcat(a: seq<Move>, b: seq<Move>, move: Move)
    requires Among(a, move) || Among(b, move)
    ensures Among(a + b, move)
  {
    var all := a + b;
    if Among(a, move) {
      var i :| 0 <= i < |a| && a[i] == move;
      assert all[i] == move;
    } else {
      var i :| 0 <= i < |b| && b[i] == move;
      assert all[|a| + i] == move;
    }
  }

  lemma SubsectionMoved(s: Subsection, pick: ParsedItem -> bool, i: nat)
    requires i < |Items(s.lines)| && pick(Items(s.lines)[i])
    ensures Among(SubsectionMoves(s, pick), Move(s.title, Items(s.lines)[i].lines))
  {
    hide Items, Picked;
    PickedHas(Items(s.lines), pick, true, i);
    var picked := Picked(Items(s.lines), pick, true);
    var j :| 0 <= j < |picked| && picked[j] == Items(s.lines)[i];
    assert SubsectionMoves(s, pick)[j] == Move(s.title, Items(s.lines)[i].lines);
  }

  lemma {:induction false} SectionMoved(subsections: seq<Subsection>, pick: ParsedItem -> bool, j: nat, i: nat)
    requires j < |subsections| && i < |Items(subsections[j].lines)| && pick(Items(subsections[j].lines)[i])
    ensures Among(SectionMoves(subsections, pick), Move(subsections[j].title, Items(subsections[j].lines)[i].lines))
  {
    hide Items, SubsectionMoves, Among;
    var n := |subsections| - 1;
    var move := Move(subsections[j].title, Items(subsections[j].lines)[i].lines);
    if j == n {
      SubsectionMoved(subsections[n], pick, i);
    } else {
      SectionMoved(subsections[..n], pick, j, i);
    }
    AmongConcat(SectionMoves(subsections[..n], pick), SubsectionMoves(subsections[n], pick), move);
  }

  lemma {:induction false} Moved(sections: seq<Section>, pick: ParsedItem -> bool, k: nat, j: nat, i: nat)
    requires k < |sections| && IsReleased(sections[k]) && j < |sections[k].subsections|
    requires var s := sections[k].subsections[j]; i < |Items(s.lines)| && pick(Items(s.lines)[i])
    ensures var s := sections[k].subsections[j]; Among(Moves(sections, pick), Move(s.title, Items(s.lines)[i].lines))
  {
    hide Items, SectionMoves, Among;
    var n := |sections| - 1;
    var s := sections[k].subsections[j];
    var move := Move(s.title, Items(s.lines)[i].lines);
    var more := if IsReleased(sections[n]) then SectionMoves(sections[n].subsections, pick) else [];
    if k == n {
      SectionMoved(sections[n].subsections, pick, j, i);
    } else {
      Moved(sections[..n], pick, k, j, i);
    }
    AmongConcat(Moves(sections[..n], pick), more, move);
  }

  // ---- putting items in ----

  ghost predicate ItemMoves(moves: seq<Move>) {
    forall i {:trigger moves[i]} :: 0 <= i < |moves| ==> IsItemText(moves[i].lines)
  }

  lemma ItemKeyIsText(lines: seq<string>)
    requires IsItemText(lines)
    ensures ItemKey(lines) != "" && TrimBlank(lines) == lines
  {
    hide TrimBlank, IsListItem, NextItemText;
    FirstIsNotBlank(lines[0]);
    TrimOfTrimmed(lines);
    FirstIsLine(lines[0]);
  }

  lemma FirstIsLine(line: string)
    requires IsListItem(line)
    ensures line != ""
  {
  }

  lemma {:induction false} SectionMovesAreItems(subsections: seq<Subsection>, pick: ParsedItem -> bool)
    ensures ItemMoves(SectionMoves(subsections, pick))
  {
    hide Items, Picked, IsItemText, ItemTexts;
    if subsections != [] {
      var n := |subsections| - 1;
      SectionMovesAreItems(subsections[..n], pick);
      var s := subsections[n];
      ItemsHaveTexts(s.lines);
      ItemsAreItems(Texts(s.lines));
      var picked := Picked(Items(s.lines), pick, true);
      forall i | 0 <= i < |picked| ensures IsItemText(picked[i].lines) {
        PickedAre(Items(s.lines), pick, true, i);
        var j :| 0 <= j < |Items(s.lines)| && Items(s.lines)[j] == picked[i];
        assert IsItemText(ItemTexts(Texts(s.lines))[j]);
      }
    }
  }

  lemma {:induction false} MovesAreItems(sections: seq<Section>, pick: ParsedItem -> bool)
    ensures ItemMoves(Moves(sections, pick))
  {
    hide SectionMoves, IsItemText;
    if sections != [] {
      var n := |sections| - 1;
      MovesAreItems(sections[..n], pick);
      SectionMovesAreItems(sections[n].subsections, pick);
    }
  }

  lemma AppendedKeys(target: Subsection, lines: seq<string>, key: string)
    requires IsItemText(lines)
    ensures HasKey(Subsection(target.title, Appended(target.lines, lines)), key)
       <==> HasKey(target, key) || key == ItemKey(lines)
  {
    hide ItemTexts, ItemKey, Appended, TrimBlank, KeyAmong, HasKey, IsListItem, NextItemText;
    ItemKeyIsText(lines);
    AppendedItems(target.lines, lines);
    OneItem(lines);
    var next := Subsection(target.title, Appended(target.lines, lines));
    KeysOfTexts(next, key);
    KeysOfTexts(target, key);
    KeyAmongConcat(ItemTexts(Texts(target.lines)), [lines], key);
    OneKey(lines, key);
  }

  lemma OneKey(lines: seq<string>, key: string)
    ensures KeyAmong([lines], key) <==> key == ItemKey(lines)
  {
    hide ItemKey;
    if key == ItemKey(lines) {
      assert ItemKey([lines][0]) == key;
    }
  }

  lemma UpdateHas(list: seq<Subsection>, j: nat, s: Subsection, t: string, key: string)
    requires j < |list| && list[j].title == s.title && (HasKey(list[j], key) ==> HasKey(s, key))
    ensures Has(list, t, key) ==> Has(list[j := s], t, key)
    ensures s.title == t && HasKey(s, key) ==> Has(list[j := s], t, key)
  {
    hide HasKey;
    var next := list[j := s];
    if Has(list, t, key) {
      var i :| 0 <= i < |list| && list[i].title == t && HasKey(list[i], key);
      assert next[i].title == t && HasKey(next[i], key);
    }
    assert next[j] == s;
  }

  /** After adding an item its category has it, and no category has lost one. */
  lemma AddOneHas(section: Section, move: Move, t: string, key: string)
    requires IsItemText(move.lines)
    ensures Has(section.subsections, t, key) ==> Has(AddOne(section, move).subsections, t, key)
    ensures Has(AddOne(section, move).subsections, move.title, ItemKey(move.lines))
  {
    hide HasKey, ItemKey, Appended, LastIndexOf, IsItemText, Has;
    var ready := WithCategory(section, move.title);
    var j := LastIndexOf(ready.subsections, move.title);
    var target := ready.subsections[j];
    ReadyHas(section, move.title, t, key);
    ItemKeyIsText(move.lines);
    var own := ItemKey(move.lines);
    if SubsectionHasItem(target, move.lines) {
      FoundKey(target, move.lines);
      TargetHas(ready.subsections, j, own);
    } else {
      var next := Subsection(target.title, Appended(target.lines, move.lines));
      AppendedKeys(target, move.lines, key);
      AppendedKeys(target, move.lines, own);
      UpdateHas(ready.subsections, j, next, t, key);
      UpdateHas(ready.subsections, j, next, move.title, own);
    }
  }

  lemma FoundKey(target: Subsection, lines: seq<string>)
    requires SubsectionHasItem(target, lines) && ItemKey(lines) != ""
    ensures HasKey(target, ItemKey(lines))
  {
    hide Items, ItemKey;
  }

  lemma TargetHas(list: seq<Subsection>, j: nat, key: string)
    requires j < |list| && HasKey(list[j], key)
    ensures Has(list, list[j].title, key)
  {
    hide HasKey;
  }

  lemma ReadyHas(section: Section, title: string, t: string, key: string)
    ensures Has(section.subsections, t, key) ==> Has(WithCategory(section, title).subsections, t, key)
  {
    hide HasKey, LastIndexOf, Has;
    SnocHas(section.subsections, Subsection(title, []), t, key);
  }

  lemma {:induction false} AddAllHas(section: Section, moves: seq<Move>, t: string, key: string)
    requires ItemMoves(moves)
    ensures Has(section.subsections, t, key) ==> Has(AddAll(section, moves).subsections, t, key)
    ensures forall i {:trigger moves[i]} :: 0 <= i < |moves| && moves[i].title == t && ItemKey(moves[i].lines) == key
              ==> Has(AddAll(section, moves).subsections, t, key)
  {
    hide Has, AddOne, ItemKey, IsItemText;
    if moves != [] {
      var n := |moves| - 1;
      assert forall i :: 0 <= i < n ==> moves[..n][i] == moves[i];
      AddAllHas(section, moves[..n], t, key);
      AddOneHas(AddAll(section, moves[..n]), moves[n], t, key);
    }
  }
}
