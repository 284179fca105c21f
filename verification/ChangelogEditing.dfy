/** Removing items from a category, appending lines to one, and when closing gaps has nothing left to do. */
module ChangelogEditing {
  import opened ChangelogText
  import opened ChangelogDocument
  import opened ChangelogItems

  // ---- gaps ----

  /** Some item follows a blank line. */
  predicate GapBeforeItem(lines: seq<string>) {
    exists k :: 0 < k < |lines| && IsListItem(lines[k]) && Blank(lines[k - 1])
  }

  lemma FlatOfFrom(texts: seq<string>)
    requires texts != []
    ensures var k := 1 + NextItemText(texts[1..]);
            Flat(TextsFrom(texts)) == TrimBlank(texts[..k]) + Flat(TextsFrom(texts[k..]))
  {
    hide TextsFrom, TrimBlank, NextItemText;
    FromStep(texts);
    var k := 1 + NextItemText(texts[1..]);
    assert ([TrimBlank(texts[..k])] + TextsFrom(texts[k..]))[1..] == TextsFrom(texts[k..]);
  }

  lemma NothingFlat()
    ensures Flat(TextsFrom([])) == [] && NonBlank([]) == []
  {
  }

  /** Putting the items one after the other loses blank lines only. */
  lemma {:induction false} FlatKeepsLines(texts: seq<string>)
    ensures NonBlank(Flat(TextsFrom(texts))) == NonBlank(texts)
    ensures |Flat(TextsFrom(texts))| <= |texts|
    decreases |texts|
  {
    hide *;
    if texts == [] {
      NothingFlat();
    } else {
      var k := 1 + NextItemText(texts[1..]);
      FlatOfFrom(texts);
      FlatKeepsLines(texts[k..]);
      NonBlankOfTrimmed(texts[..k]);
      NonBlankConcat(TrimBlank(texts[..k]), Flat(TextsFrom(texts[k..])));
      assert texts == texts[..k] + texts[k..];
      NonBlankConcat(texts[..k], texts[k..]);
      var before, after := TrimParts(texts[..k]);
    }
  }

  lemma GapSplit(texts: seq<string>, k: nat)
    requires 0 < k <= |texts| && (k < |texts| ==> IsListItem(texts[k]))
    requires forall i :: 0 < i < k ==> !IsListItem(texts[i])
    ensures GapBeforeItem(texts) <==> (k < |texts| && Blank(texts[k - 1])) || GapBeforeItem(texts[k..])
  {
    hide IsListItem, Blank;
    var rest := texts[k..];
    if GapBeforeItem(texts) {
      var j :| 0 < j < |texts| && IsListItem(texts[j]) && Blank(texts[j - 1]);
      assert j > k ==> rest[j - k] == texts[j] && rest[j - k - 1] == texts[j - 1];
    }
    if GapBeforeItem(rest) {
      var j :| 0 < j < |rest| && IsListItem(rest[j]) && Blank(rest[j - 1]);
      assert texts[k + j] == rest[j] && texts[k + j - 1] == rest[j - 1];
    }
  }

  /** A chunk that begins with an item stays whole exactly if it does not end with a blank line. */
  lemma ChunkTrim(chunk: seq<string>)
    requires chunk != [] && !Blank(chunk[0])
    ensures Blank(chunk[|chunk| - 1]) ==> |TrimBlank(chunk)| < |chunk|
    ensures !Blank(chunk[|chunk| - 1]) ==> TrimBlank(chunk) == chunk
  {
    hide Blank, TrimBlank;
    var before, after := TrimParts(chunk);
    TrimmedPrefix(chunk);
    if Blank(chunk[|chunk| - 1]) {
      assert TrimBlank(chunk) == chunk ==> false;
    } else {
      TrimOfTrimmed(chunk);
    }
  }

  lemma {:induction false} FlatIsSame(texts: seq<string>)
    requires texts != [] ==> IsListItem(texts[0]) && !Blank(texts[|texts| - 1])
    ensures Flat(TextsFrom(texts)) == texts <==> !GapBeforeItem(texts)
    decreases |texts|
  {
    hide TextsFrom, Flat, NonBlank, TrimBlank, Blank, IsListItem, NextItemText, GapBeforeItem;
    if texts == [] {
      NothingFlat();
      NoGap();
    } else {
      var k := 1 + NextItemText(texts[1..]);
      var chunk, rest := texts[..k], texts[k..];
      assert forall i :: 0 < i < k ==> texts[i] == texts[1..][i - 1];
      assert k < |texts| ==> texts[k] == texts[1..][k - 1] == rest[0];
      GapSplit(texts, k);
      FlatOfFrom(texts);
      FirstIsNotBlank(texts[0]);
      ChunkTrim(chunk);
      assert chunk[|chunk| - 1] == texts[k - 1] && texts == chunk + rest;
      FlatIsSame(rest);
      FlatKeepsLines(rest);
      if k == |texts| {
        NothingFlat();
        NoGap();
      }
    }
  }

  lemma NoGap()
    ensures !GapBeforeItem([])
  {
  }

  lemma ItemsFromFirst(lines: seq<string>)
    requires lines != [] && IsListItem(lines[0])
    ensures ItemTexts(lines) == TextsFrom(lines) && TextsFrom(lines) != []
  {
    hide TextsFrom, NextItemText, IsListItem;
    NextItemTextIs(lines, 0);
    assert lines[0..] == lines;
    FromStep(lines);
  }

  lemma LaterItemsMiss(lines: seq<string>)
    requires lines != [] && !Blank(lines[0]) && !IsListItem(lines[0])
    ensures NonBlank(Flat(ItemTexts(lines))) != NonBlank(lines)
  {
    hide TextsFrom, Flat, Blank, IsListItem, TrimBlank;
    var k := NextItemText(lines);
    FlatKeepsLines(lines[k..]);
    assert lines == [lines[0]] + (lines[1..k] + lines[k..]);
    NonBlankConcat([lines[0]], lines[1..k] + lines[k..]);
    NonBlankConcat(lines[1..k], lines[k..]);
    OneLineLeft(lines[0]);
  }

  lemma OneLineLeft(line: string)
    requires !Blank(line)
    ensures NonBlank([line]) == [line]
  {
    hide Blank;
    assert [line][1..] == [];
  }

  /**
   When closing the gaps leaves a trimmed body as it is: exactly if the body
   does not begin with an item, or no item of it follows a blank line.
   */
  lemma CompactIsStable(lines: seq<string>)
    requires Trimmed(lines)
    ensures Compact(lines) == lines <==> lines == [] || !IsListItem(lines[0]) || !GapBeforeItem(lines)
  {
    hide TextsFrom, Flat, NonBlank, TrimBlank, Blank, IsListItem, ItemTexts, GapBeforeItem;
    TrimOfTrimmed(lines);
    if lines == [] {
      NothingToParse();
    } else if IsListItem(lines[0]) {
      ItemsFromFirst(lines);
      FlatKeepsLines(lines);
      FlatIsSame(lines);
    } else {
      LaterItemsMiss(lines);
    }
  }

  // ---- removing items ----

  ghost predicate Increasing(lines: seq<NumberedLine>) {
    forall i, j {:trigger lines[i], lines[j]} :: 0 <= i < j < |lines| ==> lines[i].lineNumber < lines[j].lineNumber
  }

  /** The items for which the test comes out as wanted. */
  function Picked(items: seq<ParsedItem>, pick: ParsedItem -> bool, want: bool): seq<ParsedItem> {
    if items == [] then []
    else (if pick(items[0]) == want then [items[0]] else []) + Picked(items[1..], pick, want)
  }

  predicate Spans(item: ParsedItem, n: nat) {
    item.startLine <= n <= item.endLine
  }

  predicate InSpans(items: seq<ParsedItem>, n: nat) {
    exists i :: 0 <= i < |items| && Spans(items[i], n)
  }

  function Without(lines: seq<NumberedLine>, items: seq<ParsedItem>): seq<NumberedLine> {
    if lines == [] then []
    else (if InSpans(items, lines[0].lineNumber) then [] else [lines[0]]) + Without(lines[1..], items)
  }

  method LineRangeSet(items: seq<ParsedItem>) returns (numbers: set<nat>)
    ensures forall n: nat :: n in numbers <==> InSpans(items, n)
  {
    numbers := {};
    for i := 0 to |items|
      invariant forall n: nat :: n in numbers <==> InSpans(items[..i], n)
    {
      ghost var before := numbers;
      var line := items[i].startLine;
      while line <= items[i].endLine
        invariant items[i].startLine <= line
        invariant line == items[i].startLine || line <= items[i].endLine + 1
        invariant forall n: nat :: n in numbers <==> n in before || (items[i].startLine <= n < line)
        decreases items[i].endLine - line
      {
        numbers := numbers + {line};
        line := line + 1;
      }
      assert forall n: nat :: n in numbers <==> n in before || Spans(items[i], n);
      assert items[..i + 1] == items[..i] + [items[i]];
      forall n: nat ensures InSpans(items[..i + 1], n) <==> InSpans(items[..i], n) || Spans(items[i], n) {
        SnocSpans(items[..i], items[i], n);
      }
    }
    assert items[..|items|] == items;
  }

  lemma SnocSpans(items: seq<ParsedItem>, item: ParsedItem, n: nat)
    ensures InSpans(items + [item], n) <==> InSpans(items, n) || Spans(item, n)
  {
    var all := items + [item];
    if InSpans(items, n) {
      var i :| 0 <= i < |items| && Spans(items[i], n);
      assert Spans(all[i], n);
    }
    if Spans(item, n) {
      assert Spans(all[|items|], n);
    }
  }

  lemma ConsSpans(item: ParsedItem, items: seq<ParsedItem>, n: nat)
    ensures InSpans([item] + items, n) <==> Spans(item, n) || InSpans(items, n)
  {
    var all := [item] + items;
    if InSpans(items, n) {
      var i :| 0 <= i < |items| && Spans(items[i], n);
      assert Spans(all[i + 1], n);
    }
    if Spans(item, n) {
      assert Spans(all[0], n);
    }
  }

  method RemoveItems(lines: seq<NumberedLine>, items: seq<ParsedItem>) returns (r: seq<NumberedLine>)
    ensures r == Without(lines, items)
  {
    var numbers := LineRangeSet(items);
    r := [];
    for i := 0 to |lines|
      invariant r + Without(lines[i..], items) == Without(lines, items)
    {
      assert lines[i..][1..] == lines[i + 1..];
      if lines[i].lineNumber !in numbers {
        r := r + [lines[i]];
      }
    }
    assert lines[|lines|..] == [];
  }

  lemma {:induction false} WithoutConcat(a: seq<NumberedLine>, b: seq<NumberedLine>, items: seq<ParsedItem>)
    ensures Without(a + b, items) == Without(a, items) + Without(b, items)
  {
    hide InSpans;
    if a == [] {
      assert a + b == b;
    } else {
      assert (a + b)[1..] == a[1..] + b;
      WithoutConcat(a[1..], b, items);
    }
  }

  lemma {:induction false} WithoutAll(lines: seq<NumberedLine>, items: seq<ParsedItem>)
    requires forall i {:trigger lines[i]} :: 0 <= i < |lines| ==> InSpans(items, lines[i].lineNumber)
    ensures Without(lines, items) == []
  {
    hide InSpans;
    if lines != [] {
      assert forall i :: 0 <= i < |lines[1..]| ==> lines[1..][i] == lines[i + 1];
      WithoutAll(lines[1..], items);
    }
  }

  lemma {:induction false} WithoutNone(lines: seq<NumberedLine>, items: seq<ParsedItem>)
    requires forall i {:trigger lines[i]} :: 0 <= i < |lines| ==> !InSpans(items, lines[i].lineNumber)
    ensures Without(lines, items) == lines
  {
    hide InSpans;
    if lines != [] {
      assert forall i :: 0 <= i < |lines[1..]| ==> lines[1..][i] == lines[i + 1];
      WithoutNone(lines[1..], items);
    }
  }

  lemma {:induction false} WithoutSame(lines: seq<NumberedLine>, a: seq<ParsedItem>, b: seq<ParsedItem>)
    requires forall i {:trigger lines[i]} :: 0 <= i < |lines| ==>
      (InSpans(a, lines[i].lineNumber) <==> InSpans(b, lines[i].lineNumber))
    ensures Without(lines, a) == Without(lines, b)
  {
    hide InSpans;
    if lines != [] {
      assert forall i :: 0 <= i < |lines[1..]| ==> lines[1..][i] == lines[i + 1];
      WithoutSame(lines[1..], a, b);
    }
  }

  lemma SliceIncreasing(lines: seq<NumberedLine>, lo: nat, hi: nat)
    requires Increasing(lines) && lo <= hi <= |lines|
    ensures Increasing(lines[lo..hi])
  {
    forall i, j | 0 <= i < j < hi - lo ensures lines[lo..hi][i].lineNumber < lines[lo..hi][j].lineNumber {
      assert lines[lo + i].lineNumber < lines[lo + j].lineNumber;
    }
  }

  /** The spans of picked items lie within the lines. */
  lemma {:induction false} PickedWithin(lines: seq<NumberedLine>, pick: ParsedItem -> bool, n: nat)
    requires Increasing(lines) && InSpans(Picked(ItemsFrom(lines), pick, true), n)
    ensures lines != [] && lines[0].lineNumber <= n <= lines[|lines| - 1].lineNumber
    decreases |lines|
  {
    hide InSpans, ItemsFrom, Picked, NextItem, TrimBlank, Increasing;
    if lines == [] {
      NoItems();
      NothingPicked(pick, n);
    } else {
      var k := 1 + NextItem(lines[1..]);
      ItemsFromStep(lines);
      PickedSpans(ItemOf(lines[..k]), ItemsFrom(lines[k..]), pick, n);
      AtMost(lines, 0, k - 1);
      AtMost(lines, k - 1, |lines| - 1);
      if InSpans(Picked(ItemsFrom(lines[k..]), pick, true), n) {
        SliceIncreasing(lines, k, |lines|);
        assert lines[k..|lines|] == lines[k..];
        PickedWithin(lines[k..], pick, n);
        AtMost(lines, 0, k);
      }
    }
  }

  lemma AtMost(lines: seq<NumberedLine>, i: nat, j: nat)
    requires Increasing(lines) && i <= j < |lines|
    ensures lines[i].lineNumber <= lines[j].lineNumber
  {
  }

  lemma NothingPicked(pick: ParsedItem -> bool, n: nat)
    ensures !InSpans(Picked([], pick, true), n) && Picked([], pick, true) == []
  {
  }

  lemma PickedStep(item: ParsedItem, rest: seq<ParsedItem>, pick: ParsedItem -> bool, want: bool)
    ensures Picked([item] + rest, pick, want) == (if pick(item) == want then [item] else []) + Picked(rest, pick, want)
  {
    assert ([item] + rest)[1..] == rest;
  }

  lemma PickedSpans(item: ParsedItem, rest: seq<ParsedItem>, pick: ParsedItem -> bool, n: nat)
    ensures InSpans(Picked([item] + rest, pick, true), n)
       <==> (pick(item) && Spans(item, n)) || InSpans(Picked(rest, pick, true), n)
  {
    hide InSpans, Spans, Picked;
    PickedStep(item, rest, pick, true);
    ConsSpans(item, Picked(rest, pick, true), n);
    assert [] + Picked(rest, pick, true) == Picked(rest, pick, true);
  }

  /** The spans of the later items do not reach back to the first chunk. */
  lemma LaterSpans(lines: seq<NumberedLine>, k: nat, pick: ParsedItem -> bool, i: nat)
    requires Increasing(lines) && i < k <= |lines|
    ensures !InSpans(Picked(ItemsFrom(lines[k..]), pick, true), lines[i].lineNumber)
  {
    hide InSpans, ItemsFrom, Picked, Increasing;
    SliceIncreasing(lines, k, |lines|);
    assert lines[k..|lines|] == lines[k..];
    if InSpans(Picked(ItemsFrom(lines[k..]), pick, true), lines[i].lineNumber) {
      PickedWithin(lines[k..], pick, lines[i].lineNumber);
      Below(lines, i, k);
      assert false;
    }
  }

  lemma ChunkItemSpans(lines: seq<NumberedLine>, k: nat, i: nat)
    requires Increasing(lines) && 0 < k <= |lines| && i < |lines|
    ensures Spans(ItemOf(lines[..k]), lines[i].lineNumber) <==> i < k
  {
    hide TrimBlank, Increasing;
    if i < k {
      AtMost(lines, 0, i);
      AtMost(lines, i, k - 1);
    } else {
      Below(lines, k - 1, i);
    }
  }

  /** The spans of the picked items on the lines of the first chunk, and on the lines after it. */
  lemma ChunkSpans(lines: seq<NumberedLine>, k: nat, pick: ParsedItem -> bool, i: nat)
    requires Increasing(lines) && 0 < k <= |lines| && k == 1 + NextItem(lines[1..]) && i < |lines|
    ensures InSpans(Picked(ItemsFrom(lines), pick, true), lines[i].lineNumber)
       <==> if i < k then pick(ItemOf(lines[..k])) else InSpans(Picked(ItemsFrom(lines[k..]), pick, true), lines[i].lineNumber)
  {
    hide *;
    ItemsFromStep(lines);
    PickedSpans(ItemOf(lines[..k]), ItemsFrom(lines[k..]), pick, lines[i].lineNumber);
    ChunkItemSpans(lines, k, i);
    if i < k {
      LaterSpans(lines, k, pick, i);
    }
  }

  /** One step of removing picked items: the first chunk goes or stays as a whole. */
  lemma WithoutChunk(lines: seq<NumberedLine>, k: nat, pick: ParsedItem -> bool)
    requires Increasing(lines) && 0 < k <= |lines| && k == 1 + NextItem(lines[1..])
    ensures Without(lines, Picked(ItemsFrom(lines), pick, true))
         == (if pick(ItemOf(lines[..k])) then [] else lines[..k])
            + Without(lines[k..], Picked(ItemsFrom(lines[k..]), pick, true))
  {
    hide InSpans, ItemsFrom, Picked, NextItem, ItemOf, Without, Increasing;
    var chunk, rest := lines[..k], lines[k..];
    var picked, later := Picked(ItemsFrom(lines), pick, true), Picked(ItemsFrom(rest), pick, true);
    assert lines == chunk + rest;
    WithoutConcat(chunk, rest, picked);
    forall i | 0 <= i < |chunk| ensures InSpans(picked, chunk[i].lineNumber) <==> pick(ItemOf(chunk)) {
      ChunkSpans(lines, k, pick, i);
    }
    if pick(ItemOf(chunk)) {
      WithoutAll(chunk, picked);
    } else {
      WithoutNone(chunk, picked);
    }
    forall i | 0 <= i < |rest| ensures InSpans(picked, rest[i].lineNumber) <==> InSpans(later, rest[i].lineNumber) {
      ChunkSpans(lines, k, pick, k + i);
    }
    WithoutSame(rest, picked, later);
  }

  lemma Below(lines: seq<NumberedLine>, i: nat, j: nat)
    requires Increasing(lines) && i < j < |lines|
    ensures lines[i].lineNumber < lines[j].lineNumber
  {
  }

  lemma {:induction false} WithoutPicked(lines: seq<NumberedLine>, pick: ParsedItem -> bool)
    requires Increasing(lines) && (lines != [] ==> IsListItem(lines[0].text))
    ensures var left := Without(lines, Picked(ItemsFrom(lines), pick, true));
            && ItemsFrom(left) == Picked(ItemsFrom(lines), pick, false)
            && (left != [] ==> IsListItem(left[0].text))
    decreases |lines|
  {
    hide InSpans, ItemsFrom, Picked, NextItem, ItemOf, Without, Increasing, IsListItem;
    if lines == [] {
      NoItems();
      NothingWithout(pick);
    } else {
      var k := 1 + NextItem(lines[1..]);
      var chunk, rest := lines[..k], lines[k..];
      SliceIncreasing(lines, k, |lines|);
      assert lines[k..|lines|] == rest;
      assert k < |lines| ==> rest[0] == lines[1..][k - 1];
      WithoutPicked(rest, pick);
      WithoutChunk(lines, k, pick);
      ItemsFromStep(lines);
      PickedStep(ItemOf(chunk), ItemsFrom(rest), pick, false);
      var after := Without(rest, Picked(ItemsFrom(rest), pick, true));
      if pick(ItemOf(chunk)) {
        assert [] + after == after;
      } else {
        ChunkFirst(chunk, after);
        assert (chunk + after)[0] == lines[0];
      }
    }
  }

  lemma NothingWithout(pick: ParsedItem -> bool)
    ensures Without([], Picked([], pick, true)) == [] && Picked([], pick, false) == []
  {
  }

  lemma ChunkFirst(chunk: seq<NumberedLine>, rest: seq<NumberedLine>)
    requires chunk != [] && 1 + NextItem(chunk[1..]) == |chunk|
    requires rest != [] ==> IsListItem(rest[0].text)
    ensures ItemsFrom(chunk + rest) == [ItemOf(chunk)] + ItemsFrom(rest)
  {
    hide ItemsFrom, IsListItem, ItemOf, NextItem;
    var all := chunk + rest;
    assert all[1..] == chunk[1..] + rest;
    assert forall i :: 0 <= i < |chunk| - 1 ==> all[1..][i] == chunk[1..][i];
    assert rest != [] ==> all[1..][|chunk| - 1] == rest[0];
    NextItemIs(all[1..], |chunk| - 1);
    ItemsFromStep(all);
    assert all[..|chunk|] == chunk && all[|chunk|..] == rest;
  }

  /** Removing picked items leaves the other items, in order, and the lines before the first item. */
  lemma RemovingLeavesOthers(lines: seq<NumberedLine>, pick: ParsedItem -> bool)
    requires Increasing(lines)
    ensures var left := Without(lines, Picked(Items(lines), pick, true));
            && Items(left) == Picked(Items(lines), pick, false)
            && left[..NextItem(left)] == lines[..NextItem(lines)]
  {
    hide InSpans, ItemsFrom, Picked, NextItem, Without, Increasing, IsListItem;
    var k := NextItem(lines);
    var before, rest := lines[..k], lines[k..];
    var picked := Picked(ItemsFrom(rest), pick, true);
    assert lines == before + rest;
    WithoutConcat(before, rest, picked);
    forall i | 0 <= i < |before| ensures !InSpans(picked, before[i].lineNumber) {
      LaterSpans(lines, k, pick, i);
    }
    WithoutNone(before, picked);
    SliceIncreasing(lines, k, |lines|);
    assert lines[k..|lines|] == rest;
    assert rest != [] ==> rest[0] == lines[k];
    WithoutPicked(rest, pick);
    var after := Without(rest, picked);
    var left := before + after;
    assert forall i :: 0 <= i < k ==> left[i] == lines[i];
    assert after != [] ==> left[k] == after[0];
    NextItemIs(left, k);
    assert left[k..] == after && left[..k] == before;
  }

  lemma {:induction false} WithoutMembers(lines: seq<NumberedLine>, items: seq<ParsedItem>)
    ensures forall i {:trigger Without(lines, items)[i]} :: 0 <= i < |Without(lines, items)| ==> Without(lines, items)[i] in lines
  {
    hide InSpans;
    if lines != [] {
      WithoutMembers(lines[1..], items);
    }
  }

  lemma ConsIncreasing(line: NumberedLine, rest: seq<NumberedLine>)
    requires Increasing(rest) && forall i {:trigger rest[i]} :: 0 <= i < |rest| ==> line.lineNumber < rest[i].lineNumber
    ensures Increasing([line] + rest)
  {
    forall i, j | 0 <= i < j < |[line] + rest| ensures ([line] + rest)[i].lineNumber < ([line] + rest)[j].lineNumber {
      assert ([line] + rest)[j] == rest[j - 1];
    }
  }

  lemma {:induction false} WithoutIncreasing(lines: seq<NumberedLine>, items: seq<ParsedItem>)
    requires Increasing(lines)
    ensures Increasing(Without(lines, items))
    ensures forall i {:trigger Without(lines, items)[i]} :: 0 <= i < |Without(lines, items)| ==> Without(lines, items)[i] in lines
  {
    hide InSpans, Increasing;
    WithoutMembers(lines, items);
    if lines == [] {
      NothingLess();
    } else {
      SliceIncreasing(lines, 1, |lines|);
      assert lines[1..|lines|] == lines[1..];
      WithoutIncreasing(lines[1..], items);
      var rest := Without(lines[1..], items);
      if !InSpans(items, lines[0].lineNumber) {
        forall i | 0 <= i < |rest| ensures lines[0].lineNumber < rest[i].lineNumber {
          var j :| 0 <= j < |lines[1..]| && lines[1..][j] == rest[i];
          Below(lines, 0, j + 1);
        }
        ConsIncreasing(lines[0], rest);
      } else {
        assert [] + rest == rest;
      }
    }
  }

  lemma NothingLess()
    ensures Increasing([])
  {
  }

  // ---- appending lines ----

  /** Lines put after the lines of a category: directly after an item line if they begin with one, or else after an empty line. */
  function Appended(target: seq<NumberedLine>, source: seq<string>): seq<NumberedLine> {
    var trimmed, existing := TrimBlank(source), Body(target);
    if trimmed == [] then target
    else if existing == [] then Synthetic(trimmed)
    else Synthetic(existing + Separator(existing, trimmed) + trimmed)
  }

  function Separator(existing: seq<string>, source: seq<string>): seq<string>
    requires existing != [] && source != []
  {
    if IsListItem(existing[|existing| - 1]) && IsListItem(source[0]) then [] else [""]
  }

  lemma SeparatorIsBlank(existing: seq<string>, source: seq<string>)
    requires existing != [] && source != []
    ensures AllBlank(Separator(existing, source))
  {
    hide IsListItem;
    assert Blank("");
  }

  /** Appending loses no line that is not blank. */
  lemma AppendedKeepsLines(target: seq<NumberedLine>, source: seq<string>)
    ensures NonBlank(Texts(Appended(target, source))) == NonBlank(Texts(target)) + NonBlank(source)
  {
    hide NonBlank, TrimBlank, AllBlank, Separator;
    var trimmed, existing := TrimBlank(source), Body(target);
    NonBlankOfTrimmed(source);
    NonBlankOfTrimmed(Texts(target));
    NothingFlat();
    if trimmed != [] && existing != [] {
      var separator := Separator(existing, trimmed);
      SeparatorIsBlank(existing, trimmed);
      NonBlankOfBlanks(separator);
      NonBlankConcat(existing + separator, trimmed);
      NonBlankConcat(existing, separator);
      assert Texts(Synthetic(existing + separator + trimmed)) == existing + separator + trimmed;
    } else if trimmed != [] {
      assert Texts(Synthetic(trimmed)) == trimmed;
    }
  }

  predicate StartsWithItem(lines: seq<string>) {
    lines == [] || IsListItem(lines[0])
  }

  lemma NonBlankLength(a: seq<string>, b: seq<string>)
    requires a != [] && !Blank(a[0])
    ensures |NonBlank(a + b)| > |NonBlank(b)|
  {
    hide Blank;
    assert a + b == [a[0]] + (a[1..] + b);
    NonBlankConcat([a[0]], a[1..] + b);
    NonBlankConcat(a[1..], b);
    OneLineLeft(a[0]);
  }

  lemma ItemLines(lines: seq<string>)
    ensures NonBlank(Flat(ItemTexts(lines))) == NonBlank(lines[NextItemText(lines)..])
  {
    hide NonBlank, TextsFrom, Flat, NextItemText;
    FlatKeepsLines(lines[NextItemText(lines)..]);
  }

  lemma {:induction false} FlatConcat(a: seq<seq<string>>, b: seq<seq<string>>)
    ensures Flat(a + b) == Flat(a) + Flat(b)
  {
    if a == [] {
      assert a + b == b;
    } else {
      assert (a + b)[1..] == a[1..] + b;
      FlatConcat(a[1..], b);
    }
  }

  lemma NoItemsFound(lines: seq<string>)
    ensures ItemTexts(lines) == [] <==> NextItemText(lines) == |lines|
  {
    hide TextsFrom, NextItemText;
    var rest := lines[NextItemText(lines)..];
    if rest == [] {
      NoTexts();
    } else {
      FromStep(rest);
    }
  }

  /** Lines that begin with other text, put after items, become part of the last one. */
  lemma AbsorbedText(existing: seq<string>, separator: seq<string>, source: seq<string>)
    requires AllBlank(separator) && source != [] && !Blank(source[0]) && !IsListItem(source[0])
    requires ItemTexts(existing) != []
    ensures ItemTexts(existing + separator + source) != ItemTexts(existing) + ItemTexts(source)
  {
    hide NonBlank, TextsFrom, Flat, NextItemText, Blank, IsListItem, ItemTexts, AllBlank;
    var all := existing + separator + source;
    var k, j := NextItemText(existing), NextItemText(source);
    NoItemsFound(existing);
    assert forall i :: 0 <= i < |existing| ==> all[i] == existing[i];
    NextItemTextIs(all, k);
    ItemLines(all);
    ItemLines(existing);
    ItemLines(source);
    FlatConcat(ItemTexts(existing), ItemTexts(source));
    NonBlankConcat(Flat(ItemTexts(existing)), Flat(ItemTexts(source)));
    assert all[k..] == existing[k..] + (separator + source);
    NonBlankConcat(existing[k..], separator + source);
    NonBlankConcat(separator, source);
    NonBlankOfBlanks(separator);
    FirstIsSkipped(source);
    assert source == source[..j] + source[j..];
    NonBlankLength(source[..j], source[j..]);
  }

  lemma FirstIsSkipped(source: seq<string>)
    requires source != [] && !IsListItem(source[0])
    ensures NextItemText(source) > 0
  {
  }

  lemma JoinedItems(existing: seq<string>, separator: seq<string>, source: seq<string>)
    requires AllBlank(separator) && source != [] && (IsListItem(source[0]) || ItemTexts(existing) == [])
    ensures ItemTexts(existing + separator + source) == ItemTexts(existing) + ItemTexts(source)
  {
    hide TextsFrom, NextItemText, IsListItem, ItemTexts, AllBlank;
    if IsListItem(source[0]) {
      ItemsConcat(existing + separator, source);
      ItemsBeforeBlanks(existing, separator);
    } else {
      PlainPrefix(existing, separator + source);
      assert existing + separator + source == existing + (separator + source);
      ItemsAfterBlanks(separator, source);
    }
  }

  lemma PlainPrefix(a: seq<string>, b: seq<string>)
    requires ItemTexts(a) == []
    ensures ItemTexts(a + b) == ItemTexts(b)
  {
    hide TextsFrom, NextItemText, IsListItem;
    NoItemsFound(a);
    var k := NextItemText(b);
    assert forall i :: 0 <= i < |a| ==> (a + b)[i] == a[i];
    assert forall i :: 0 <= i < |b| ==> (a + b)[|a| + i] == b[i];
    NextItemTextIs(a + b, |a| + k);
    assert (a + b)[|a| + k..] == b[k..];
  }

  /**
   When appending adds exactly the items of the source: unless the source
   begins with text of no item and the target has an item to absorb it.
   */
  lemma AppendedItems(target: seq<NumberedLine>, source: seq<string>)
    ensures ItemTexts(Texts(Appended(target, source))) == ItemTexts(Texts(target)) + ItemTexts(source)
       <==> StartsWithItem(TrimBlank(source)) || ItemTexts(Texts(target)) == []
  {
    hide TrimBlank, AllBlank, Separator, ItemTexts, Blank, IsListItem;
    var trimmed, existing := TrimBlank(source), Body(target);
    ItemsOfTrimmed(source);
    ItemsOfTrimmed(Texts(target));
    NothingToParse();
    var before, after := TrimParts(source);
    if trimmed != [] && existing != [] {
      var separator := Separator(existing, trimmed);
      SeparatorIsBlank(existing, trimmed);
      assert Texts(Synthetic(existing + separator + trimmed)) == existing + separator + trimmed;
      if IsListItem(trimmed[0]) || ItemTexts(existing) == [] {
        JoinedItems(existing, separator, trimmed);
      } else {
        AbsorbedText(existing, separator, trimmed);
      }
    } else if trimmed != [] {
      assert Texts(Synthetic(trimmed)) == trimmed;
    }
  }
}
