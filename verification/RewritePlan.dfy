/** Choosing the lines of a prompt file that may be rewritten, and cutting each into a kept frame and a core. */
module RewritePlan {
  import opened Wrappers

  /** A token that must survive a rewrite. */
  type Token = t: string | t != "" witness "x"

  /** What the line patterns of the script recognise; the first three say how many characters they take, none if they do not match. */
  datatype Syntax = Syntax(
    trailing: string -> nat, leading: string -> nat, marker: string -> nat, tokens: string -> seq<Token>,
    verbatim: string -> bool, blank: string -> bool, rule: string -> bool, fence: string -> Option<char>)

  /** A pattern takes no more than there is. */
  function Taken(s: string, pattern: string -> nat): (n: nat)
    ensures n <= |s|
  {
    if pattern(s) < |s| then pattern(s) else |s|
  }

  // ---- peeling ----

  datatype Peeled = Peeled(prefix: string, core: string, suffix: string)

  /** The line without the blocks at its end. */
  function WithoutTrailing(s: string, syntax: Syntax): (r: string)
    ensures r <= s
    decreases |s|
  {
    var n := Taken(s, syntax.trailing);
    if n == 0 then s else WithoutTrailing(s[..|s| - n], syntax)
  }

  /** How many characters the blocks at the beginning take. */
  function LeadingLength(s: string, syntax: Syntax): (n: nat)
    ensures n <= |s|
    decreases |s|
  {
    var n := Taken(s, syntax.leading);
    if n == 0 then 0 else n + LeadingLength(s[n..], syntax)
  }

  function PeelOf(line: string, syntax: Syntax): Peeled {
    var s := WithoutTrailing(line, syntax);
    var n := LeadingLength(s, syntax);
    var m := n + Taken(s[n..], syntax.marker);
    Peeled(s[..m], s[m..], line[|s|..])
  }

  method PeelTrailing(line: string, syntax: Syntax) returns (s: string, suffix: string)
    ensures s == WithoutTrailing(line, syntax) && s + suffix == line
  {
    hide Taken;
    s, suffix := line, "";
    while true
      invariant s + suffix == line && WithoutTrailing(s, syntax) == WithoutTrailing(line, syntax)
      decreases |s|
    {
      var n := Taken(s, syntax.trailing);
      if n == 0 {
        return;
      }
      assert s[..|s| - n] + s[|s| - n..] == s;
      suffix := s[|s| - n..] + suffix;
      s := s[..|s| - n];
    }
  }

  method PeelLeading(body: string, syntax: Syntax) returns (prefix: string, s: string)
    ensures prefix + s == body && |prefix| == LeadingLength(body, syntax)
  {
    hide Taken;
    prefix, s := "", body;
    while true
      invariant prefix + s == body && |prefix| + LeadingLength(s, syntax) == LeadingLength(body, syntax)
      decreases |s|
    {
      var n := Taken(s, syntax.leading);
      if n == 0 {
        return;
      }
      assert s[..n] + s[n..] == s;
      prefix := prefix + s[..n];
      s := s[n..];
    }
  }

  method Peel(line: string, syntax: Syntax) returns (r: Peeled)
    ensures r == PeelOf(line, syntax)
    ensures r.prefix + r.core + r.suffix == line
  {
    hide WithoutTrailing, LeadingLength, Taken;
    var body, suffix := PeelTrailing(line, syntax);
    var prefix, s := PeelLeading(body, syntax);
    var m := Taken(s, syntax.marker);
    assert s == body[|prefix|..] && suffix == line[|body|..];
    assert prefix + s[..m] == body[..|prefix| + m] && s[m..] == body[|prefix| + m..];
    assert prefix + s[..m] + s[m..] == body;
    r := Peeled(prefix + s[..m], s[m..], suffix);
  }

  // ---- tokens ----

  /** Occurrences that do not overlap, from the left. */
  function Count(text: string, token: Token): nat
    decreases |text|
  {
    if |text| < |token| then 0
    else if token <= text then 1 + Count(text[|token|..], token)
    else Count(text[1..], token)
  }

  ghost predicate OccursAt(text: string, token: Token, p: int) {
    0 <= p <= |text| - |token| && text[p..p + |token|] == token
  }

  /** The positions of occurrences, from left to right, none overlapping the next. */
  ghost predicate Occurrences(text: string, token: Token, at: seq<int>) {
    && (forall i {:trigger at[i]} :: 0 <= i < |at| ==> OccursAt(text, token, at[i]))
    && forall i, j :: 0 <= i < j < |at| ==> at[i] + |token| <= at[j]
  }

  function Moved(at: seq<int>, step: int): (r: seq<int>)
    ensures |r| == |at| && forall i :: 0 <= i < |r| ==> r[i] == at[i] + step
  {
    seq(|at|, i requires 0 <= i < |at| => at[i] + step)
  }

  lemma OccurrencesMove(text: string, token: Token, at: seq<int>, step: int)
    requires 0 <= step <= |text| && forall i :: 0 <= i < |at| ==> at[i] >= step
    ensures Occurrences(text, token, at) <==> Occurrences(text[step..], token, Moved(at, -step))
  {
    var rest, moved := text[step..], Moved(at, -step);
    forall i | 0 <= i < |at| ensures OccursAt(text, token, at[i]) <==> OccursAt(rest, token, moved[i]) {
      if at[i] + |token| <= |text| {
        assert text[at[i]..at[i] + |token|] == rest[moved[i]..moved[i] + |token|];
      }
    }
    assert forall i :: 0 <= i < |at| ==> moved[i] == at[i] - step;
  }

  /** There are as many disjoint occurrences as are counted. */
  lemma {:induction false} CountedOccurrences(text: string, token: Token) returns (at: seq<int>)
    ensures Occurrences(text, token, at) && |at| == Count(text, token)
    decreases |text|
  {
    hide OccursAt;
    if |text| < |token| {
      return [];
    }
    var step := if token <= text then |token| else 1;
    var rest := CountedOccurrences(text[step..], token);
    var moved := Moved(rest, step);
    StartsLate(text[step..], token, rest);
    OccurrencesMove(text, token, moved, step);
    assert Moved(moved, -step) == rest;
    at := moved;
    if token <= text {
      at := [0] + moved;
      FirstOccurs(text, token);
    }
  }

  lemma FirstOccurs(text: string, token: Token)
    ensures OccursAt(text, token, 0) <==> token <= text
  {
  }

  lemma StartsLate(text: string, token: Token, at: seq<int>)
    requires Occurrences(text, token, at)
    ensures forall i :: 0 <= i < |at| ==> at[i] >= 0
  {
  }

  /** There are no more. */
  lemma {:induction false} NoMoreOccurrences(text: string, token: Token, at: seq<int>)
    requires Occurrences(text, token, at)
    ensures |at| <= Count(text, token)
    decreases |text|
  {
    hide OccursAt;
    if at != [] {
      StartsLate(text, token, at);
      FirstOccurs(text, token);
      OccurrenceFits(text, token, at[0]);
      var step := if token <= text then |token| else 1;
      var rest := if token <= text then at[1..] else at;
      assert forall i :: 1 <= i < |at| ==> at[i] >= at[0] + |token|;
      assert forall i :: 0 <= i < |rest| ==> rest[i] == at[i + |at| - |rest|];
      assert Occurrences(text, token, rest);
      OccurrencesMove(text, token, rest, step);
      NoMoreOccurrences(text[step..], token, Moved(rest, -step));
    }
  }

  lemma OccurrenceFits(text: string, token: Token, p: int)
    requires OccursAt(text, token, p)
    ensures |token| <= |text|
  {
  }

  /** The token stands in the text at least so many times, at places that do not overlap. */
  ghost predicate Holds(text: string, token: Token, n: nat) {
    exists at :: Occurrences(text, token, at) && |at| == n
  }

  /** Counting from the left finds the largest number of disjoint occurrences. */
  lemma CountIsLargest(text: string, token: Token, n: nat)
    ensures Holds(text, token, n) <==> n <= Count(text, token)
  {
    hide OccursAt, Count;
    if Holds(text, token, n) {
      var at :| Occurrences(text, token, at) && |at| == n;
      NoMoreOccurrences(text, token, at);
    }
    if n <= Count(text, token) {
      var at := CountedOccurrences(text, token);
      assert Occurrences(text, token, at[..n]) && |at[..n]| == n;
    }
  }

  /** Every token stands in the text at least as often as it is listed. */
  ghost predicate Keeps(text: string, tokens: seq<Token>) {
    forall t {:trigger multiset(tokens)[t]} :: t in tokens ==> Holds(text, t, multiset(tokens)[t])
  }

  /** The test of a reply. */
  predicate Preserves(text: string, tokens: seq<Token>): (r: bool)
    ensures r <==> Keeps(text, tokens)
  {
    hide Count, Holds;
    assert forall t: Token, n: nat :: Holds(text, t, n) <==> n <= Count(text, t) by {
      forall t: Token, n: nat ensures Holds(text, t, n) <==> n <= Count(text, t) {
        CountIsLargest(text, t, n);
      }
    }
    forall i :: 0 <= i < |tokens| ==> Count(text, tokens[i]) >= multiset(tokens)[tokens[i]]
  }

  method CountTokens(tokens: seq<Token>) returns (want: map<Token, nat>)
    ensures forall t :: t in want <==> t in tokens
    ensures forall t :: t in want ==> want[t] == multiset(tokens)[t]
  {
    want := map[];
    for i := 0 to |tokens|
      invariant forall t :: t in want <==> t in tokens[..i]
      invariant forall t :: t in want ==> want[t] == multiset(tokens[..i])[t]
    {
      assert tokens[..i + 1] == tokens[..i] + [tokens[i]];
      assert tokens[i] !in want ==> tokens[i] !in multiset(tokens[..i]);
      want := want[tokens[i] := (if tokens[i] in want then want[tokens[i]] else 0) + 1];
    }
    assert tokens[..|tokens|] == tokens;
  }

  method PreservesTokens(rewritten: string, tokens: seq<Token>) returns (r: bool)
    ensures r <==> Keeps(rewritten, tokens)
  {
    assert Preserves(rewritten, tokens) <==> Keeps(rewritten, tokens);
    var want := CountTokens(tokens);
    var left := want.Keys;
    while left != {}
      invariant left <= want.Keys
      invariant forall t :: t in want && t !in left ==> Count(rewritten, t) >= want[t]
      decreases left
    {
      var t :| t in left;
      if Count(rewritten, t) < want[t] {
        var i :| 0 <= i < |tokens| && tokens[i] == t;
        return false;
      }
      left := left - {t};
    }
    forall i | 0 <= i < |tokens| ensures Count(rewritten, tokens[i]) >= multiset(tokens)[tokens[i]] {
      assert tokens[i] in want;
    }
    return true;
  }

  // ---- blocks ----

  /** The line that closes the block of metadata at the top, if there is such a block. */
  function Closing(lines: seq<string>, from: nat, syntax: Syntax): (r: Option<nat>)
    requires from <= |lines|
    ensures r.Some? ==> from <= r.value < |lines| && syntax.rule(lines[r.value])
    ensures forall i :: from <= i < (if r.Some? then r.value else |lines|) ==> !syntax.rule(lines[i])
    decreases |lines| - from
  {
    if from == |lines| then None else if syntax.rule(lines[from]) then Some(from) else Closing(lines, from + 1, syntax)
  }

  function BodyStart(lines: seq<string>, syntax: Syntax): (r: nat)
    ensures r <= |lines|
  {
    if lines != [] && syntax.rule(lines[0]) && Closing(lines, 1, syntax).Some? then Closing(lines, 1, syntax).value + 1 else 0
  }

  /** The fence open after the lines from the start to the given line. */
  function OpenFence(lines: seq<string>, start: nat, i: nat, syntax: Syntax): Option<char>
    requires start <= i <= |lines|
    decreases i
  {
    if i == start then None
    else
      var before, mark := OpenFence(lines, start, i - 1, syntax), syntax.fence(lines[i - 1]);
      if before.None? then mark else if mark == before then None else before
  }

  /** The line is in the block at the top, or in a fenced block, fences included. */
  predicate Skipped(lines: seq<string>, i: nat, syntax: Syntax)
    requires i < |lines|
  {
    var start := BodyStart(lines, syntax);
    i < start || OpenFence(lines, start, i, syntax).Some? || syntax.fence(lines[i]).Some?
  }

  /** A fence stays open until the next line with the same mark. */
  lemma {:induction false} FenceStaysOpen(lines: seq<string>, start: nat, open: nat, i: nat, mark: char, syntax: Syntax)
    requires start <= open < i <= |lines|
    requires OpenFence(lines, start, open, syntax) == None && syntax.fence(lines[open]) == Some(mark)
    requires forall k :: open < k < i ==> syntax.fence(lines[k]) != Some(mark)
    ensures OpenFence(lines, start, i, syntax) == Some(mark)
    decreases i
  {
    if i > open + 1 {
      FenceStaysOpen(lines, start, open, i - 1, mark, syntax);
    }
  }

  /** So every line of a fenced block is skipped, up to the line that closes it. */
  lemma FencedLinesAreSkipped(lines: seq<string>, open: nat, i: nat, mark: char, syntax: Syntax)
    requires BodyStart(lines, syntax) <= open <= i < |lines|
    requires OpenFence(lines, BodyStart(lines, syntax), open, syntax) == None && syntax.fence(lines[open]) == Some(mark)
    requires forall k :: open < k < i ==> syntax.fence(lines[k]) != Some(mark)
    ensures Skipped(lines, i, syntax)
  {
    if i > open {
      FenceStaysOpen(lines, BodyStart(lines, syntax), open, i, mark, syntax);
    }
  }

  method MarkTop(lines: seq<string>, skip: array<bool>, syntax: Syntax) returns (start: nat)
    requires skip.Length == |lines| && forall i :: 0 <= i < |lines| ==> !skip[i]
    modifies skip
    ensures start == BodyStart(lines, syntax)
    ensures forall i :: 0 <= i < |lines| ==> skip[i] == (i < start)
  {
    hide Closing;
    start := 0;
    if |lines| > 0 && syntax.rule(lines[0]) {
      var close := Closing(lines, 1, syntax);
      if close.Some? {
        for k := 0 to close.value + 1
          invariant forall i :: 0 <= i < |lines| ==> skip[i] == (i < k)
        {
          skip[k] := true;
        }
        start := close.value + 1;
      }
    }
  }

  method BlockSkipMask(lines: seq<string>, syntax: Syntax) returns (skip: array<bool>)
    ensures fresh(skip) && skip.Length == |lines|
    ensures forall i :: 0 <= i < |lines| ==> skip[i] == Skipped(lines, i, syntax)
  {
    hide Closing, BodyStart;
    skip := new bool[|lines|](_ => false);
    var start := MarkTop(lines, skip, syntax);
    var fence: Option<char> := None;
    for i := start to |lines|
      invariant fence == OpenFence(lines, start, i, syntax)
      invariant forall k :: 0 <= k < i ==> skip[k] == Skipped(lines, k, syntax)
      invariant forall k :: i <= k < |lines| ==> !skip[k]
    {
      var mark := syntax.fence(lines[i]);
      if fence.None? {
        if mark.Some? {
          fence := mark;
          skip[i] := true;
        }
      } else {
        skip[i] := true;
        if mark == fence {
          fence := None;
        }
      }
    }
  }

  // ---- the plan ----

  datatype Entry = Entry(line: nat, prefix: string, core: string, suffix: string, tokens: seq<Token>)

  predicate Rewritable(lines: seq<string>, i: nat, syntax: Syntax)
    requires i < |lines|
  {
    !Skipped(lines, i, syntax) && !syntax.verbatim(lines[i]) && !syntax.blank(PeelOf(lines[i], syntax).core)
  }

  function EntryOf(lines: seq<string>, i: nat, syntax: Syntax): Entry
    requires i < |lines|
  {
    var p := PeelOf(lines[i], syntax);
    Entry(i, p.prefix, p.core, p.suffix, syntax.tokens(p.core))
  }

  function Plan(lines: seq<string>, upTo: nat, syntax: Syntax): seq<Entry>
    requires upTo <= |lines|
  {
    if upTo == 0 then []
    else Plan(lines, upTo - 1, syntax) + if Rewritable(lines, upTo - 1, syntax) then [EntryOf(lines, upTo - 1, syntax)] else []
  }

  method PlanRewrite(lines: seq<string>, syntax: Syntax) returns (prose: seq<Entry>)
    ensures prose == Plan(lines, |lines|, syntax)
  {
    hide Skipped, PeelOf;
    var skip := BlockSkipMask(lines, syntax);
    prose := [];
    for i := 0 to |lines|
      invariant prose == Plan(lines, i, syntax)
      invariant forall k :: 0 <= k < |lines| ==> skip[k] == Skipped(lines, k, syntax)
    {
      if skip[i] || syntax.verbatim(lines[i]) {
        continue;
      }
      var p := Peel(lines[i], syntax);
      if syntax.blank(p.core) {
        continue;
      }
      prose := prose + [Entry(i, p.prefix, p.core, p.suffix, syntax.tokens(p.core))];
    }
  }

  lemma PeelIsLine(line: string, syntax: Syntax)
    ensures var p := PeelOf(line, syntax); p.prefix + p.core + p.suffix == line
  {
    var s := WithoutTrailing(line, syntax);
    assert line == s + line[|s|..];
  }

  /** The entry is the one of a rewritable line, and put together again it is that line. */
  ghost predicate Fits(e: Entry, lines: seq<string>, upTo: nat, syntax: Syntax)
    requires upTo <= |lines|
  {
    && e.line < upTo && Rewritable(lines, e.line, syntax)
    && e == EntryOf(lines, e.line, syntax) && e.prefix + e.core + e.suffix == lines[e.line]
  }

  ghost predicate HasEntry(prose: seq<Entry>, i: nat) {
    exists k :: 0 <= k < |prose| && prose[k].line == i
  }

  /** The entries are in line order, one for each rewritable line. */
  ghost predicate IsPlan(prose: seq<Entry>, lines: seq<string>, upTo: nat, syntax: Syntax)
    requires upTo <= |lines|
  {
    && (forall k {:trigger Fits(prose[k], lines, upTo, syntax)} :: 0 <= k < |prose| ==> Fits(prose[k], lines, upTo, syntax))
    && (forall k, l {:trigger prose[k].line, prose[l].line} :: 0 <= k < l < |prose| ==> prose[k].line < prose[l].line)
    && (forall i {:trigger HasEntry(prose, i)} :: 0 <= i < upTo && Rewritable(lines, i, syntax) ==> HasEntry(prose, i))
  }

  lemma SnocEntry(prose: seq<Entry>, e: Entry, i: nat)
    ensures HasEntry(prose + [e], i) <==> HasEntry(prose, i) || e.line == i
  {
    if HasEntry(prose, i) {
      var k :| 0 <= k < |prose| && prose[k].line == i;
      assert (prose + [e])[k].line == i;
    }
    if e.line == i {
      assert (prose + [e])[|prose|].line == i;
    }
  }

  lemma OwnEntry(lines: seq<string>, i: nat, syntax: Syntax)
    requires i < |lines| && Rewritable(lines, i, syntax)
    ensures EntryOf(lines, i, syntax).line == i && Fits(EntryOf(lines, i, syntax), lines, i + 1, syntax)
  {
    hide Rewritable, PeelOf;
    PeelIsLine(lines[i], syntax);
  }

  lemma LaterFits(e: Entry, lines: seq<string>, upTo: nat, syntax: Syntax)
    requires upTo < |lines| && Fits(e, lines, upTo, syntax)
    ensures Fits(e, lines, upTo + 1, syntax) && e.line < upTo
  {
    hide Rewritable;
  }

  lemma {:induction false} PlanIsPlan(lines: seq<string>, upTo: nat, syntax: Syntax)
    requires upTo <= |lines|
    ensures IsPlan(Plan(lines, upTo, syntax), lines, upTo, syntax)
  {
    hide Rewritable, EntryOf, Fits, HasEntry;
    if upTo > 0 {
      var n := upTo - 1;
      PlanIsPlan(lines, n, syntax);
      var before, prose := Plan(lines, n, syntax), Plan(lines, upTo, syntax);
      forall k | 0 <= k < |before| ensures Fits(before[k], lines, upTo, syntax) && before[k].line < n {
        LaterFits(before[k], lines, n, syntax);
      }
      if Rewritable(lines, n, syntax) {
        OwnEntry(lines, n, syntax);
        forall i: nat ensures HasEntry(prose, i) <==> HasEntry(before, i) || i == n {
          SnocEntry(before, EntryOf(lines, n, syntax), i);
        }
      } else {
        assert prose == before;
      }
      forall i | 0 <= i < upTo && Rewritable(lines, i, syntax) ensures HasEntry(prose, i) {
        assert i < n ==> HasEntry(before, i);
      }
      forall k | 0 <= k < |prose| ensures Fits(prose[k], lines, upTo, syntax) {
        assert k < |before| ==> prose[k] == before[k];
      }
    }
  }

  // ---- groups ----

  function Flat<T>(groups: seq<seq<T>>): seq<T> {
    if groups == [] then [] else groups[0] + Flat(groups[1..])
  }

  lemma {:induction false} SnocFlat<T>(groups: seq<seq<T>>, g: seq<T>)
    ensures Flat(groups + [g]) == Flat(groups) + g
  {
    if groups == [] {
      assert (groups + [g])[1..] == [];
    } else {
      assert (groups + [g])[1..] == groups[1..] + [g];
      SnocFlat(groups[1..], g);
    }
  }

  /** A size below one counts as one. */
  function GroupSize(size: int): nat {
    if size > 1 then size else 1
  }

  /** Groups of the size, the last one possibly shorter. */
  function Groups<T>(items: seq<T>, size: int): (r: seq<seq<T>>)
    ensures Flat(r) == items
    ensures forall k :: 0 <= k < |r| ==> 0 < |r[k]| <= GroupSize(size)
    ensures forall k :: 0 <= k < |r| - 1 ==> |r[k]| == GroupSize(size)
  {
    if items == [] then []
    else
      var n := if GroupSize(size) < |items| then GroupSize(size) else |items|;
      var rest := Groups(items[n..], size);
      assert ([items[..n]] + rest)[1..] == rest;
      [items[..n]] + rest
  }

  lemma NoGroups<T>(size: int)
    ensures Groups<T>([], size) == []
  {
  }

  lemma NextGroup<T>(items: seq<T>, size: int, i: nat)
    requires i < |items|
    ensures var end := if i + GroupSize(size) < |items| then i + GroupSize(size) else |items|;
      Groups(items[i..], size) == [items[i..end]] + Groups(items[end..], size)
  {
    hide Flat;
    var left, end := items[i..], if i + GroupSize(size) < |items| then i + GroupSize(size) else |items|;
    assert left[..end - i] == items[i..end] && left[end - i..] == items[end..];
  }

  method Chunk<T>(items: seq<T>, size: int) returns (groups: seq<seq<T>>)
    ensures groups == Groups(items, size)
    ensures Flat(groups) == items
    ensures forall k :: 0 <= k < |groups| ==> 0 < |groups[k]| <= if size < 1 then 1 else size
    ensures forall k :: 0 <= k < |groups| - 1 ==> |groups[k]| == if size < 1 then 1 else size
  {
    hide Flat, Groups;
    groups := [];
    var step := GroupSize(size);
    var i := 0;
    assert items[0..] == items;
    while i < |items|
      invariant 0 <= i && groups + Groups(items[if i < |items| then i else |items|..], size) == Groups(items, size)
    {
      var end := if i + step < |items| then i + step else |items|;
      NextGroup(items, size, i);
      assert groups + ([items[i..end]] + Groups(items[end..], size)) == groups + [items[i..end]] + Groups(items[end..], size);
      groups := groups + [items[i..end]];
      i := i + step;
    }
    NoGroups<T>(size);
    assert items[|items|..] == [] && groups + [] == groups;
  }
}
