/** List items in the body of a changelog category: finding, removing and appending them, and closing the gaps between them. */
module ChangelogItems {
  import opened ChangelogText
  import opened ChangelogDocument

  datatype ParsedItem = ParsedItem(startLine: nat, endLine: nat, lines: seq<string>)

  // ---- finding items ----

  function NextItem(lines: seq<NumberedLine>): (k: nat)
    ensures k <= |lines| && (k < |lines| ==> IsListItem(lines[k].text))
    ensures forall i :: 0 <= i < k ==> !IsListItem(lines[i].text)
  {
    if lines == [] || IsListItem(lines[0].text) then 0 else 1 + NextItem(lines[1..])
  }

  lemma {:induction false} NextItemIs(lines: seq<NumberedLine>, k: nat)
    requires k <= |lines| && (k < |lines| ==> IsListItem(lines[k].text))
    requires forall i :: 0 <= i < k ==> !IsListItem(lines[i].text)
    ensures NextItem(lines) == k
  {
  }

  function ItemOf(lines: seq<NumberedLine>): ParsedItem
    requires lines != []
  {
    ParsedItem(lines[0].lineNumber, lines[|lines| - 1].lineNumber, TrimBlank(Texts(lines)))
  }

  /** The items of lines that begin with an item. */
  function ItemsFrom(lines: seq<NumberedLine>): seq<ParsedItem> {
    if lines == [] then []
    else
      var k := 1 + NextItem(lines[1..]);
      [ItemOf(lines[..k])] + ItemsFrom(lines[k..])
  }

  /** An item reaches from its first line to the next item; lines before the first item belong to none. */
  function Items(lines: seq<NumberedLine>): seq<ParsedItem> {
    ItemsFrom(lines[NextItem(lines)..])
  }

  lemma NoItems()
    ensures ItemsFrom([]) == []
  {
  }

  lemma ItemStep(lines: seq<NumberedLine>, index: nat, next: nat)
    requires index < |lines| && next == index + 1 + NextItem(lines[index + 1..])
    ensures ItemsFrom(lines[index..]) == [ItemOf(lines[index..next])] + ItemsFrom(lines[next..])
  {
    hide NextItem, ItemOf;
    var rest := lines[index..];
    assert rest[1..] == lines[index + 1..];
    assert rest[..next - index] == lines[index..next] && rest[next - index..] == lines[next..];
  }

  method SkipToItem(lines: seq<NumberedLine>, from: nat) returns (index: nat)
    requires from <= |lines|
    ensures index == from + NextItem(lines[from..])
  {
    index := from;
    while index < |lines| && !IsListItem(lines[index].text)
      invariant from <= index <= |lines|
      invariant forall i :: from <= i < index ==> !IsListItem(lines[i].text)
    {
      index := index + 1;
    }
    NextItemIs(lines[from..], index - from);
  }

  method ParseItems(lines: seq<NumberedLine>) returns (items: seq<ParsedItem>)
    ensures items == Items(lines)
  {
    hide IsListItem, ItemsFrom, ItemOf, TrimBlank;
    NoItems();
    items := [];
    var index := SkipToItem(lines, 0);
    assert lines[0..] == lines;
    while index < |lines|
      invariant 0 <= index <= |lines|
      invariant items + ItemsFrom(lines[index..]) == Items(lines)
    {
      var next := SkipToItem(lines, index + 1);
      var itemLines := lines[index..next];
      var text := TrimBlankLines(Texts(itemLines));
      ItemStep(lines, index, next);
      ItemIs(itemLines);
      items := items + [ParsedItem(itemLines[0].lineNumber, itemLines[|itemLines| - 1].lineNumber, text)];
      index := next;
    }
    assert lines[index..] == [];
  }

  lemma ItemIs(lines: seq<NumberedLine>)
    requires lines != []
    ensures ItemOf(lines) == ParsedItem(lines[0].lineNumber, lines[|lines| - 1].lineNumber, TrimBlank(Texts(lines)))
  {
  }

  // ---- the same on texts ----

  function NextItemText(texts: seq<string>): (k: nat)
    ensures k <= |texts| && (k < |texts| ==> IsListItem(texts[k]))
    ensures forall i :: 0 <= i < k ==> !IsListItem(texts[i])
  {
    if texts == [] || IsListItem(texts[0]) then 0 else 1 + NextItemText(texts[1..])
  }

  lemma {:induction false} NextItemTextIs(texts: seq<string>, k: nat)
    requires k <= |texts| && (k < |texts| ==> IsListItem(texts[k]))
    requires forall i :: 0 <= i < k ==> !IsListItem(texts[i])
    ensures NextItemText(texts) == k
  {
  }

  function TextsFrom(texts: seq<string>): seq<seq<string>> {
    if texts == [] then []
    else
      var k := 1 + NextItemText(texts[1..]);
      [TrimBlank(texts[..k])] + TextsFrom(texts[k..])
  }

  lemma FromStep(texts: seq<string>)
    requires texts != []
    ensures var k := 1 + NextItemText(texts[1..]);
            TextsFrom(texts) == [TrimBlank(texts[..k])] + TextsFrom(texts[k..])
  {
    hide TrimBlank, NextItemText;
  }

  lemma ItemsFromStep(lines: seq<NumberedLine>)
    requires lines != []
    ensures var k := 1 + NextItem(lines[1..]);
            ItemsFrom(lines) == [ItemOf(lines[..k])] + ItemsFrom(lines[k..])
  {
    hide ItemOf, NextItem;
  }

  lemma NoTexts()
    ensures TextsFrom([]) == []
  {
  }

  /** The texts of the items. */
  function ItemTexts(texts: seq<string>): seq<seq<string>> {
    TextsFrom(texts[NextItemText(texts)..])
  }

  lemma SameNext(lines: seq<NumberedLine>)
    ensures NextItemText(Texts(lines)) == NextItem(lines)
  {
    hide IsListItem;
    NextItemTextIs(Texts(lines), NextItem(lines));
  }

  lemma {:induction false} SameItems(lines: seq<NumberedLine>)
    ensures |ItemsFrom(lines)| == |TextsFrom(Texts(lines))|
    ensures forall i :: 0 <= i < |ItemsFrom(lines)| ==> ItemsFrom(lines)[i].lines == TextsFrom(Texts(lines))[i]
    decreases |lines|
  {
    hide *;
    if lines == [] {
      NoItems();
      NoTexts();
      assert Texts(lines) == [];
    } else {
      var k := 1 + NextItem(lines[1..]);
      assert Texts(lines)[1..] == Texts(lines[1..]);
      SameNext(lines[1..]);
      assert Texts(lines)[..k] == Texts(lines[..k]) && Texts(lines)[k..] == Texts(lines[k..]);
      ItemsFromStep(lines);
      FromStep(Texts(lines));
      ItemIs(lines[..k]);
      SameItems(lines[k..]);
    }
  }

  /** The texts of the parsed items depend on the texts of the lines alone. */
  lemma ItemsHaveTexts(lines: seq<NumberedLine>)
    ensures |Items(lines)| == |ItemTexts(Texts(lines))|
    ensures forall i :: 0 <= i < |Items(lines)| ==> Items(lines)[i].lines == ItemTexts(Texts(lines))[i]
  {
    hide ItemsFrom, TextsFrom, NextItem, NextItemText;
    SameNext(lines);
    var k := NextItem(lines);
    assert Texts(lines)[k..] == Texts(lines[k..]);
    SameItems(lines[k..]);
  }

  // ---- joining and trimming ----

  lemma {:induction false} FromConcat(a: seq<string>, b: seq<string>)
    requires b != [] ==> IsListItem(b[0])
    ensures TextsFrom(a + b) == TextsFrom(a) + TextsFrom(b)
    decreases |a|
  {
    hide *;
    if a == [] {
      assert a + b == b;
      NoTexts();
    } else {
      var k := 1 + NextItemText(a[1..]);
      var all := a + b;
      assert all[1..] == a[1..] + b;
      NextOfConcat(a[1..], b);
      assert all[..k] == a[..k] && all[k..] == a[k..] + b;
      FromConcat(a[k..], b);
      FromStep(all);
      FromStep(a);
    }
  }

  lemma NextOfConcat(a: seq<string>, b: seq<string>)
    requires b != [] ==> IsListItem(b[0])
    ensures NextItemText(a + b) == NextItemText(a)
  {
    hide IsListItem, NextItemText;
    var k := NextItemText(a);
    assert forall i :: 0 <= i < k ==> (a + b)[i] == a[i];
    assert k < |a| ==> (a + b)[k] == a[k];
    assert k == |a| && b != [] ==> (a + b)[k] == b[0];
    NextItemTextIs(a + b, k);
  }

  /** Lines that begin with an item add their items. */
  lemma ItemsConcat(a: seq<string>, b: seq<string>)
    requires b != [] ==> IsListItem(b[0])
    ensures ItemTexts(a + b) == ItemTexts(a) + ItemTexts(b)
  {
    hide IsListItem, TextsFrom, NextItemText;
    var k := NextItemText(a);
    NextOfConcat(a, b);
    assert (a + b)[k..] == a[k..] + b;
    FromConcat(a[k..], b);
    NextItemTextIs(b, 0);
    assert b[0..] == b;
  }

  lemma BlankIsNoItem(line: string)
    requires Blank(line)
    ensures !IsListItem(line)
  {
    if IsListItem(line) {
      ItemIsNotBlank(line);
      assert false;
    }
  }

  lemma NextAfterBlanks(blanks: seq<string>, a: seq<string>)
    requires AllBlank(blanks)
    ensures NextItemText(blanks + a) == |blanks| + NextItemText(a)
  {
    hide IsListItem, NextItemText, Blank;
    var k := NextItemText(a);
    var all := blanks + a;
    forall i | 0 <= i < |blanks| + k ensures !IsListItem(all[i]) {
      if i < |blanks| {
        assert Blank(blanks[i]);
        BlankIsNoItem(blanks[i]);
      } else {
        assert all[i] == a[i - |blanks|];
      }
    }
    NextItemTextIs(all, |blanks| + k);
  }

  lemma ItemsAfterBlanks(blanks: seq<string>, a: seq<string>)
    requires AllBlank(blanks)
    ensures ItemTexts(blanks + a) == ItemTexts(a)
  {
    hide TextsFrom, NextItemText, Blank;
    NextAfterBlanks(blanks, a);
    assert (blanks + a)[|blanks| + NextItemText(a)..] == a[NextItemText(a)..];
  }

  lemma NextBeforeBlanks(a: seq<string>, blanks: seq<string>)
    requires AllBlank(blanks)
    ensures NextItemText(a + blanks) == if NextItemText(a) == |a| then |a| + |blanks| else NextItemText(a)
  {
    hide IsListItem, NextItemText, Blank;
    var k := NextItemText(a);
    var all := a + blanks;
    forall i | |a| <= i < |all| ensures !IsListItem(all[i]) {
      assert all[i] == blanks[i - |a|] && Blank(blanks[i - |a|]);
      BlankIsNoItem(all[i]);
    }
    assert forall i :: 0 <= i < |a| ==> all[i] == a[i];
    NextItemTextIs(all, if k == |a| then |all| else k);
  }

  lemma TrimDropsBlanks(a: seq<string>, blanks: seq<string>)
    requires AllBlank(blanks)
    ensures TrimBlank(a + blanks) == TrimBlank(a)
  {
    hide Blank, AllBlank, TrimBlank;
    var before, after := TrimParts(a);
    assert a + blanks == before + TrimBlank(a) + (after + blanks);
    ConcatBlank(after, blanks);
    TrimOf(before, TrimBlank(a), after + blanks);
  }

  lemma ConcatBlank(a: seq<string>, b: seq<string>)
    requires AllBlank(a) && AllBlank(b)
    ensures AllBlank(a + b)
  {
    hide Blank;
    forall k | 0 <= k < |a + b| ensures Blank((a + b)[k]) {
      assert if k < |a| then Blank(a[k]) else Blank(b[k - |a|]);
    }
  }

  lemma {:induction false} FromBeforeBlanks(a: seq<string>, blanks: seq<string>)
    requires AllBlank(blanks) && a != []
    ensures TextsFrom(a + blanks) == TextsFrom(a)
    decreases |a|
  {
    hide *;
    var all := a + blanks;
    assert all[1..] == a[1..] + blanks;
    NextBeforeBlanks(a[1..], blanks);
    FromStep(all);
    FromStep(a);
    NoTexts();
    var k := 1 + NextItemText(a[1..]);
    if k == |a| {
      assert all[..|all|] == all && all[|all|..] == [] && a[..k] == a && a[k..] == [];
      TrimDropsBlanks(a, blanks);
    } else {
      assert all[..k] == a[..k] && all[k..] == a[k..] + blanks;
      FromBeforeBlanks(a[k..], blanks);
    }
  }

  lemma ItemsBeforeBlanks(a: seq<string>, blanks: seq<string>)
    requires AllBlank(blanks)
    ensures ItemTexts(a + blanks) == ItemTexts(a)
  {
    hide TextsFrom, NextItemText, AllBlank;
    var k := NextItemText(a);
    NextBeforeBlanks(a, blanks);
    if k == |a| {
      assert a[k..] == [] && (a + blanks)[|a| + |blanks|..] == [];
    } else {
      assert (a + blanks)[k..] == a[k..] + blanks;
      FromBeforeBlanks(a[k..], blanks);
    }
  }

  /** Blank lines around the lines make no difference to the items. */
  lemma ItemsOfTrimmed(texts: seq<string>)
    ensures ItemTexts(TrimBlank(texts)) == ItemTexts(texts)
  {
    hide ItemTexts, TrimBlank, AllBlank;
    var before, after := TrimParts(texts);
    ItemsAfterBlanks(before, TrimBlank(texts));
    ItemsBeforeBlanks(before + TrimBlank(texts), after);
  }

  // ---- one item ----

  /** A list item line, lines that are none after it, and no blank line at the end. */
  predicate IsItemText(text: seq<string>) {
    text != [] && IsListItem(text[0]) && !Blank(text[|text| - 1]) && NextItemText(text[1..]) == |text| - 1
  }

  lemma TrimmedPrefix(chunk: seq<string>)
    requires chunk != [] && !Blank(chunk[0])
    ensures TrimBlank(chunk) <= chunk && TrimBlank(chunk) != [] && !Blank(TrimBlank(chunk)[|TrimBlank(chunk)| - 1])
  {
    hide Blank;
    DropLastTrims(chunk);
    var after := LastBlanks(chunk);
  }

  lemma ChunkIsItem(chunk: seq<string>)
    requires chunk != [] && IsListItem(chunk[0]) && NextItemText(chunk[1..]) == |chunk| - 1
    ensures IsItemText(TrimBlank(chunk))
  {
    hide IsListItem, Blank, NextItemText, TrimBlank;
    FirstIsNotBlank(chunk[0]);
    TrimmedPrefix(chunk);
    var text := TrimBlank(chunk);
    assert text[0] == chunk[0];
    assert forall i :: 0 <= i < |text| - 1 ==> text[1..][i] == chunk[1..][i];
    NextItemTextIs(text[1..], |text| - 1);
  }

  lemma FirstIsNotBlank(line: string)
    requires IsListItem(line)
    ensures !Blank(line)
  {
    ItemIsNotBlank(line);
  }

  lemma {:induction false} FromAreItems(texts: seq<string>)
    requires texts != [] ==> IsListItem(texts[0])
    ensures forall i {:trigger IsItemText(TextsFrom(texts)[i])} :: 0 <= i < |TextsFrom(texts)| ==> IsItemText(TextsFrom(texts)[i])
    decreases |texts|
  {
    hide IsListItem, Blank, NextItemText, TrimBlank, IsItemText;
    if texts != [] {
      var k := 1 + NextItemText(texts[1..]);
      assert texts[..k][1..] == texts[1..][..k - 1];
      assert forall i :: 0 <= i < k - 1 ==> texts[..k][1..][i] == texts[1..][i];
      NextItemTextIs(texts[..k][1..], k - 1);
      ChunkIsItem(texts[..k]);
      assert k < |texts| ==> texts[k..][0] == texts[1..][k - 1];
      FromAreItems(texts[k..]);
      var all := TextsFrom(texts);
      assert all == [TrimBlank(texts[..k])] + TextsFrom(texts[k..]);
      forall i | 0 <= i < |all| ensures IsItemText(all[i]) {
        assert i > 0 ==> IsItemText(TextsFrom(texts[k..])[i - 1]);
      }
    }
  }

  ghost predicate AllItemTexts(texts: seq<seq<string>>) {
    forall i {:trigger IsItemText(texts[i])} :: 0 <= i < |texts| ==> IsItemText(texts[i])
  }

  lemma ItemsAreItems(texts: seq<string>)
    ensures AllItemTexts(ItemTexts(texts))
  {
    hide IsListItem, IsItemText, TextsFrom, NextItemText;
    var k := NextItemText(texts);
    assert k < |texts| ==> texts[k..][0] == texts[k];
    FromAreItems(texts[k..]);
  }

  /** The text of an item has that item and no other. */
  lemma OneItem(text: seq<string>)
    requires IsItemText(text)
    ensures ItemTexts(text) == [text] && Trimmed(text)
  {
    hide IsListItem, Blank, TrimBlank;
    FirstIsNotBlank(text[0]);
    NextItemTextIs(text, 0);
    assert text[0..] == text && text[..|text|] == text && text[|text|..] == [];
    assert TextsFrom(text) == [TrimBlank(text[..|text|])] + TextsFrom([]);
    TrimOfTrimmed(text);
  }

  lemma TrimOfTrimmed(text: seq<string>)
    requires Trimmed(text)
    ensures TrimBlank(text) == text
  {
    hide Blank, TrimBlank;
    NoBlankLines();
    assert [] + text + [] == text;
    TrimOf([], text, []);
  }

  lemma NoBlankLines()
    ensures AllBlank([])
  {
  }

  // ---- closing gaps ----

  function Flat(items: seq<seq<string>>): seq<string> {
    if items == [] then [] else items[0] + Flat(items[1..])
  }

  function NonBlank(lines: seq<string>): seq<string> {
    if lines == [] then []
    else (if Blank(lines[0]) then [] else [lines[0]]) + NonBlank(lines[1..])
  }

  /** The items one after the other, unless that would lose a line that is not blank. */
  function Compact(lines: seq<string>): seq<string> {
    var trimmed := TrimBlank(lines);
    var items := ItemTexts(trimmed);
    if items == [] || NonBlank(Flat(items)) != NonBlank(trimmed) then trimmed else Flat(items)
  }

  method NonBlankLines(lines: seq<string>) returns (r: seq<string>)
    ensures r == NonBlank(lines)
  {
    r := [];
    for i := 0 to |lines|
      invariant r + NonBlank(lines[i..]) == NonBlank(lines)
    {
      assert lines[i..][1..] == lines[i + 1..];
      if !Blank(lines[i]) {
        r := r + [lines[i]];
      }
    }
    assert lines[|lines|..] == [];
  }

  method FlattenItems(items: seq<ParsedItem>, ghost texts: seq<seq<string>>) returns (r: seq<string>)
    requires |texts| == |items| && forall i :: 0 <= i < |items| ==> items[i].lines == texts[i]
    ensures r == Flat(texts)
  {
    r := [];
    for i := 0 to |items|
      invariant r + Flat(texts[i..]) == Flat(texts)
    {
      assert texts[i..][1..] == texts[i + 1..];
      r := r + items[i].lines;
    }
    assert texts[|items|..] == [];
  }

  method CompactAdjacentListSpacing(lines: seq<string>) returns (r: seq<string>)
    ensures r == Compact(lines)
  {
    hide TrimBlank, ItemTexts, Items, NonBlank, Flat;
    var trimmed := TrimBlankLines(lines);
    var items := ParseItems(Synthetic(trimmed));
    assert Texts(Synthetic(trimmed)) == trimmed;
    ItemsHaveTexts(Synthetic(trimmed));
    if |items| == 0 {
      return trimmed;
    }
    var flattened := FlattenItems(items, ItemTexts(trimmed));
    var original := NonBlankLines(trimmed);
    var kept := NonBlankLines(flattened);
    if original != kept {
      return trimmed;
    }
    return flattened;
  }

  lemma {:induction false} NonBlankConcat(a: seq<string>, b: seq<string>)
    ensures NonBlank(a + b) == NonBlank(a) + NonBlank(b)
  {
    hide Blank;
    if a == [] {
      assert a + b == b;
    } else {
      assert (a + b)[1..] == a[1..] + b;
      NonBlankConcat(a[1..], b);
    }
  }

  lemma {:induction false} NonBlankOfBlanks(blanks: seq<string>)
    requires AllBlank(blanks)
    ensures NonBlank(blanks) == []
  {
    hide Blank;
    if blanks != [] {
      assert Blank(blanks[0]);
      forall k | 0 <= k < |blanks[1..]| ensures Blank(blanks[1..][k]) {
        assert Blank(blanks[k + 1]);
      }
      NonBlankOfBlanks(blanks[1..]);
    }
  }

  lemma NonBlankOfTrimmed(lines: seq<string>)
    ensures NonBlank(TrimBlank(lines)) == NonBlank(lines)
  {
    hide TrimBlank, AllBlank, NonBlank;
    var before, after := TrimParts(lines);
    NonBlankConcat(before + TrimBlank(lines), after);
    NonBlankConcat(before, TrimBlank(lines));
    NonBlankOfBlanks(before);
    NonBlankOfBlanks(after);
  }

  /** Closing the gaps loses no line that is not blank, and keeps their order. */
  lemma CompactKeepsLines(lines: seq<string>)
    ensures NonBlank(Compact(lines)) == NonBlank(lines)
  {
    hide TrimBlank, ItemTexts, NonBlank, Flat;
    NonBlankOfTrimmed(lines);
  }

  lemma FirstOfFlat(items: seq<seq<string>>)
    requires AllItemTexts(items)
    ensures Flat(items) != [] ==> IsListItem(Flat(items)[0])
    ensures items != [] ==> Flat(items) != []
  {
    hide IsListItem;
    if items != [] {
      assert IsItemText(items[0]);
    }
  }

  lemma TailItemTexts(items: seq<seq<string>>)
    requires AllItemTexts(items) && items != []
    ensures AllItemTexts(items[1..]) && IsItemText(items[0])
  {
    hide IsItemText;
    forall i | 0 <= i < |items[1..]| ensures IsItemText(items[1..][i]) {
      assert IsItemText(items[i + 1]);
    }
  }

  lemma {:induction false} ItemsOfFlat(items: seq<seq<string>>)
    requires AllItemTexts(items)
    ensures ItemTexts(Flat(items)) == items && Trimmed(Flat(items))
  {
    hide ItemTexts, IsItemText, IsListItem, Blank;
    if items == [] {
      NothingToParse();
    } else {
      TailItemTexts(items);
      FirstOfFlat(items[1..]);
      ItemsOfFlat(items[1..]);
      ItemsConcat(items[0], Flat(items[1..]));
      OneItem(items[0]);
      ItemIsNotEmpty(items[0]);
    }
  }

  lemma NothingToParse()
    ensures ItemTexts([]) == []
  {
  }

  lemma ItemIsNotEmpty(text: seq<string>)
    requires IsItemText(text)
    ensures text != []
  {
  }

  /** Closing the gaps changes no item. */
  lemma CompactKeepsItems(lines: seq<string>)
    ensures ItemTexts(Compact(lines)) == ItemTexts(lines) && Trimmed(Compact(lines))
  {
    hide TrimBlank, ItemTexts, NonBlank, Flat, Trimmed, AllItemTexts;
    var before, after := TrimParts(lines);
    ItemsOfTrimmed(lines);
    ItemsAreItems(TrimBlank(lines));
    ItemsOfFlat(ItemTexts(TrimBlank(lines)));
  }

  /** Closing the gaps a second time changes nothing. */
  lemma CompactTwice(lines: seq<string>)
    ensures Compact(Compact(lines)) == Compact(lines)
  {
    hide TrimBlank, ItemTexts, NonBlank, Flat, Trimmed;
    CompactKeepsItems(lines);
    TrimOfTrimmed(Compact(lines));
    ItemsOfTrimmed(lines);
    NonBlankOfTrimmed(lines);
  }
}
