/** Lines of text: splitting, joining, blank lines, headings and list items as the changelog fixer sees them. */
module ChangelogText {

  predicate IsSpace(c: char) {
    || c == ' ' || '\t' <= c <= '\r'
    || c == '\U{A0}' || c == '\U{1680}' || '\U{2000}' <= c <= '\U{200A}' || c == '\U{2028}' || c == '\U{2029}'
    || c == '\U{202F}' || c == '\U{205F}' || c == '\U{3000}' || c == '\U{FEFF}'
  }

  function TrimStart(s: string): (r: string)
    ensures r == "" || !IsSpace(r[0])
  {
    if s != "" && IsSpace(s[0]) then TrimStart(s[1..]) else s
  }

  function TrimEnd(s: string): (r: string)
    ensures r == "" || !IsSpace(r[|r| - 1])
    ensures r <= s
  {
    if s != "" && IsSpace(s[|s| - 1]) then TrimEnd(s[..|s| - 1]) else s
  }

  function Trim(s: string): (r: string)
    ensures r == "" || (!IsSpace(r[0]) && !IsSpace(r[|r| - 1]))
  {
    TrimEnd(TrimStart(s))
  }

  predicate Blank(line: string) {
    forall k :: 0 <= k < |line| ==> IsSpace(line[k])
  }

  lemma {:induction false} TrimEndOf(s: string)
    requires s != "" && !IsSpace(s[0])
    ensures TrimEnd(s) != ""
  {
    if IsSpace(s[|s| - 1]) {
      TrimEndOf(s[..|s| - 1]);
    }
  }

  /** A line is blank exactly if trimming leaves nothing of it. */
  lemma {:induction false} BlankMeansTrimmedAway(line: string)
    ensures Blank(line) <==> Trim(line) == ""
  {
    if line != "" {
      if IsSpace(line[0]) {
        BlankMeansTrimmedAway(line[1..]);
        assert forall k :: 1 <= k < |line| ==> line[k] == line[1..][k - 1];
        assert forall k :: 0 <= k < |line[1..]| ==> line[1..][k] == line[k + 1];
      } else {
        TrimEndOf(line);
      }
    }
  }

  // ---- splitting and joining ----

  /** Line ends are unified: a carriage return, with or without a line feed after it, becomes a line feed. */
  function Unified(s: string): string {
    if s == "" then ""
    else if s[0] == '\r' then "\n" + Unified(if |s| > 1 && s[1] == '\n' then s[2..] else s[1..])
    else [s[0]] + Unified(s[1..])
  }

  function Split(s: string): (r: seq<string>)
    ensures |r| >= 1
  {
    if s == "" then [""]
    else if s[0] == '\n' then [""] + Split(s[1..])
    else
      var rest := Split(s[1..]);
      [[s[0]] + rest[0]] + rest[1..]
  }

  function Join(lines: seq<string>): string {
    if |lines| == 0 then ""
    else if |lines| == 1 then lines[0]
    else lines[0] + "\n" + Join(lines[1..])
  }

  function ContentLines(content: string): (r: seq<string>)
    ensures |r| >= 1
  {
    var u := Unified(content);
    if u != "" && u[|u| - 1] == '\n' then Split(u[..|u| - 1]) else Split(u)
  }

  function Closed(lines: seq<string>): string {
    Join(lines) + "\n"
  }

  predicate OneLine(line: string) {
    '\n' !in line && '\r' !in line
  }

  ghost predicate OneLines(lines: seq<string>) {
    forall k {:trigger OneLine(lines[k])} :: 0 <= k < |lines| ==> OneLine(lines[k])
  }

  lemma {:induction false} UnifiedHasNoReturn(s: string)
    ensures '\r' !in Unified(s)
    decreases |s|
  {
    if s != "" {
      UnifiedHasNoReturn(if s[0] == '\r' && |s| > 1 && s[1] == '\n' then s[2..] else s[1..]);
    }
  }

  lemma {:induction false} UnifiedKeeps(s: string)
    requires '\r' !in s
    ensures Unified(s) == s
  {
    if s != "" {
      UnifiedKeeps(s[1..]);
      assert s == [s[0]] + s[1..];
    }
  }

  /** The ways a line ends. */
  datatype Break = Feed | Return | ReturnFeed

  function BreakText(b: Break): string {
    match b
    case Feed => "\n"
    case Return => "\r"
    case ReturnFeed => "\r\n"
  }

  /** Lines with breaks between them. */
  function BrokenLines(lines: seq<string>, breaks: seq<Break>): string
    requires |lines| == |breaks| + 1
  {
    if breaks == [] then lines[0] else lines[0] + BreakText(breaks[0]) + BrokenLines(lines[1..], breaks[1..])
  }

  lemma {:induction false} UnifiedLine(line: string, b: Break, rest: string)
    requires OneLine(line) && (b.Return? ==> !("\n" <= rest))
    ensures Unified(line + BreakText(b) + rest) == line + "\n" + Unified(rest)
  {
    var s := line + BreakText(b) + rest;
    if line == "" {
      assert s[|BreakText(b)|..] == rest;
    } else {
      assert s[1..] == line[1..] + BreakText(b) + rest;
      UnifiedLine(line[1..], b, rest);
      assert line == [line[0]] + line[1..];
    }
  }

  /** Whatever ends the lines, the same lines come out; only a return, an empty line and a feed are one break. */
  lemma {:induction false} BreaksAreUnified(lines: seq<string>, breaks: seq<Break>)
    requires OneLines(lines) && |lines| == |breaks| + 1
    requires forall i :: 0 <= i < |breaks| - 1 && breaks[i].Return? && breaks[i + 1].Feed? ==> lines[i + 1] != ""
    ensures Unified(BrokenLines(lines, breaks)) == Join(lines) && Split(Unified(BrokenLines(lines, breaks))) == lines
    decreases |breaks|
  {
    assert OneLine(lines[0]);
    if breaks == [] {
      UnifiedKeeps(lines[0]);
    } else {
      var later := lines[1..];
      forall k | 0 <= k < |later| ensures OneLine(later[k]) {
        assert OneLine(lines[k + 1]);
      }
      BreaksAreUnified(later, breaks[1..]);
      var rest := BrokenLines(later, breaks[1..]);
      if breaks[0].Return? {
        BrokenStart(later, breaks[1..]);
      }
      UnifiedLine(lines[0], breaks[0], rest);
    }
    SplitJoin(lines);
  }

  lemma BrokenStart(lines: seq<string>, breaks: seq<Break>)
    requires |lines| == |breaks| + 1 && OneLines(lines)
    requires breaks != [] && breaks[0].Feed? ==> lines[0] != ""
    ensures !("\n" <= BrokenLines(lines, breaks))
  {
    assert OneLine(lines[0]);
    if lines[0] != "" {
      assert BrokenLines(lines, breaks)[0] == lines[0][0];
    }
  }

  lemma {:induction false} SplitLines(s: string)
    requires '\r' !in s
    ensures OneLines(Split(s))
    ensures Join(Split(s)) == s
  {
    if s != "" {
      SplitLines(s[1..]);
      var rest, all := Split(s[1..]), Split(s);
      forall k | 0 <= k < |all| ensures OneLine(all[k]) {
        if s[0] == '\n' {
          assert k > 0 ==> OneLine(rest[k - 1]);
        } else {
          assert OneLine(rest[k]);
        }
      }
      assert s == [s[0]] + s[1..];
      if s[0] == '\n' {
        assert all[1..] == rest;
      } else {
        assert all[1..] == rest[1..];
      }
    }
  }

  /** The lines of a content hold no line break, whatever the content. */
  lemma ContentLinesAreLines(content: string)
    ensures OneLines(ContentLines(content))
  {
    UnifiedHasNoReturn(content);
    var u := Unified(content);
    if u != "" && u[|u| - 1] == '\n' {
      SplitLines(u[..|u| - 1]);
    } else {
      SplitLines(u);
    }
  }

  lemma {:induction false} SplitOfLine(line: string)
    requires '\n' !in line
    ensures Split(line) == [line]
  {
    if line != "" {
      SplitOfLine(line[1..]);
      assert [line[0]] + line[1..] == line;
    }
  }

  lemma {:induction false} SplitOfLineAnd(line: string, rest: string)
    requires '\n' !in line
    ensures Split(line + "\n" + rest) == [line] + Split(rest)
  {
    var s := line + "\n" + rest;
    if line == "" {
      assert s[1..] == rest;
    } else {
      SplitOfLineAnd(line[1..], rest);
      assert s[1..] == line[1..] + "\n" + rest;
      assert [line[0]] + line[1..] == line;
    }
  }

  lemma {:induction false} SplitJoin(lines: seq<string>)
    requires OneLines(lines) && lines != []
    ensures Split(Join(lines)) == lines
  {
    assert OneLine(lines[0]);
    if |lines| == 1 {
      SplitOfLine(lines[0]);
    } else {
      forall k | 0 <= k < |lines[1..]| ensures OneLine(lines[1..][k]) {
        assert OneLine(lines[k + 1]);
      }
      SplitJoin(lines[1..]);
      SplitOfLineAnd(lines[0], Join(lines[1..]));
    }
  }

  lemma {:induction false} JoinHasNoReturn(lines: seq<string>)
    requires OneLines(lines)
    ensures '\r' !in Join(lines)
  {
    if lines != [] {
      assert OneLine(lines[0]);
      forall k | 0 <= k < |lines[1..]| ensures OneLine(lines[1..][k]) {
        assert OneLine(lines[k + 1]);
      }
      JoinHasNoReturn(lines[1..]);
    }
  }

  /** Writing lines out and reading them back gives the lines; no lines at all read back as one empty line. */
  lemma LinesRoundTrip(lines: seq<string>)
    requires OneLines(lines)
    ensures ContentLines(Closed(lines)) == if lines == [] then [""] else lines
  {
    JoinHasNoReturn(lines);
    UnifiedKeeps(Closed(lines));
    assert Closed(lines)[..|Closed(lines)| - 1] == Join(lines);
    if lines != [] {
      SplitJoin(lines);
    }
  }

  lemma {:induction false} JoinConcat(a: seq<string>, b: seq<string>)
    requires a != [] && b != []
    ensures Join(a + b) == Join(a) + "\n" + Join(b)
  {
    if |a| == 1 {
      assert (a + b)[1..] == b;
    } else {
      JoinConcat(a[1..], b);
      assert (a + b)[1..] == a[1..] + b;
    }
  }

  // ---- blank lines ----

  function DropBlanks(lines: seq<string>): seq<string> {
    if lines != [] && Blank(lines[0]) then DropBlanks(lines[1..]) else lines
  }

  function DropLastBlanks(lines: seq<string>): seq<string> {
    if lines != [] && Blank(lines[|lines| - 1]) then DropLastBlanks(lines[..|lines| - 1]) else lines
  }

  function TrimBlank(lines: seq<string>): seq<string> {
    DropLastBlanks(DropBlanks(lines))
  }

  /** Neither begins nor ends with a blank line. */
  predicate Trimmed(lines: seq<string>) {
    lines != [] ==> !Blank(lines[0]) && !Blank(lines[|lines| - 1])
  }

  ghost predicate AllBlank(lines: seq<string>) {
    forall k {:trigger Blank(lines[k])} :: 0 <= k < |lines| ==> Blank(lines[k])
  }

  lemma DropFirst(lines: seq<string>, start: nat)
    requires start < |lines| && Blank(lines[start])
    ensures DropBlanks(lines[start..]) == DropBlanks(lines[start + 1..])
  {
    assert lines[start..][0] == lines[start] && lines[start..][1..] == lines[start + 1..];
  }

  lemma DropLast(lines: seq<string>, start: nat, end: nat)
    requires start < end <= |lines| && Blank(lines[end - 1])
    ensures DropLastBlanks(lines[start..end]) == DropLastBlanks(lines[start..end - 1])
  {
    var now := lines[start..end];
    assert now[|now| - 1] == lines[end - 1] && now[..|now| - 1] == lines[start..end - 1];
  }

  /** The two index loops that trim a list of lines. */
  method TrimBlankLines(lines: seq<string>) returns (r: seq<string>)
    ensures r == TrimBlank(lines)
  {
    var start, end := 0, |lines|;
    while start < end && Blank(lines[start])
      invariant 0 <= start <= end == |lines|
      invariant DropBlanks(lines[start..]) == DropBlanks(lines)
    {
      DropFirst(lines, start);
      start := start + 1;
    }
    ghost var core := DropBlanks(lines);
    assert lines[start..end] == lines[start..];
    assert start < end ==> lines[start..][0] == lines[start];
    assert lines[start..] == core;
    while end > start && Blank(lines[end - 1])
      invariant start <= end <= |lines|
      invariant DropLastBlanks(lines[start..end]) == DropLastBlanks(core)
    {
      DropLast(lines, start, end);
      end := end - 1;
    }
    r := lines[start..end];
    assert r != [] ==> r[|r| - 1] == lines[end - 1];
  }

  lemma {:induction false} DropBlanksAfter(a: seq<string>, b: seq<string>)
    requires AllBlank(a)
    ensures DropBlanks(a + b) == DropBlanks(b)
  {
    if a == [] {
      assert a + b == b;
    } else {
      assert Blank(a[0]) && (a + b)[1..] == a[1..] + b;
      forall k | 0 <= k < |a[1..]| ensures Blank(a[1..][k]) {
        assert Blank(a[k + 1]);
      }
      DropBlanksAfter(a[1..], b);
    }
  }

  lemma {:induction false} DropLastBlanksBefore(a: seq<string>, b: seq<string>)
    requires AllBlank(b)
    ensures DropLastBlanks(a + b) == DropLastBlanks(a)
  {
    if b == [] {
      assert a + b == a;
    } else {
      var n := |b| - 1;
      assert Blank(b[n]) && (a + b)[..|a| + n] == a + b[..n];
      forall k | 0 <= k < n ensures Blank(b[..n][k]) {
        assert Blank(b[k]);
      }
      DropLastBlanksBefore(a, b[..n]);
    }
  }

  /** Trimming takes exactly the blank lines around a trimmed core. */
  lemma {:induction false} TrimParts(lines: seq<string>) returns (before: seq<string>, after: seq<string>)
    ensures AllBlank(before) && AllBlank(after) && Trimmed(TrimBlank(lines))
    ensures lines == before + TrimBlank(lines) + after
  {
    before, after := [], [];
    if lines != [] {
      if Blank(lines[0]) {
        var b, a := TrimParts(lines[1..]);
        before, after := [lines[0]] + b, a;
        forall k | 0 <= k < |before| ensures Blank(before[k]) {
          assert k > 0 ==> Blank(b[k - 1]);
        }
      } else {
        after := LastBlanks(lines);
        DropLastTrims(lines);
      }
    }
  }

  lemma {:induction false} LastBlanks(lines: seq<string>) returns (after: seq<string>)
    ensures AllBlank(after) && lines == DropLastBlanks(lines) + after
  {
    after := [];
    if lines != [] && Blank(lines[|lines| - 1]) {
      var n := |lines| - 1;
      var rest := LastBlanks(lines[..n]);
      assert lines == lines[..n] + [lines[n]];
      after := rest + [lines[n]];
      forall k | 0 <= k < |after| ensures Blank(after[k]) {
        assert k < |rest| ==> Blank(rest[k]);
      }
    }
  }

  lemma {:induction false} DropLastTrims(lines: seq<string>)
    requires lines != [] && !Blank(lines[0])
    ensures Trimmed(DropLastBlanks(lines)) && DropLastBlanks(lines) != []
  {
    var n := |lines| - 1;
    if n > 0 && Blank(lines[n]) {
      assert lines[..n][0] == lines[0];
      DropLastTrims(lines[..n]);
    }
  }

  lemma TrimOf(before: seq<string>, core: seq<string>, after: seq<string>)
    requires AllBlank(before) && Trimmed(core) && AllBlank(after)
    ensures TrimBlank(before + core + after) == core
  {
    assert before + core + after == before + (core + after);
    DropBlanksAfter(before, core + after);
    if core == [] {
      assert core + after == after + [];
      DropBlanksAfter(after, []);
    } else {
      assert DropBlanks(core + after) == core + after;
      DropLastBlanksBefore(core, after);
    }
  }

  // ---- headings and items ----

  /** Three characters and a blank, then a bracket pair holding something. */
  predicate IsReleaseHeading(line: string) {
    "## [" <= line && exists k :: 4 < k < |line| && line[k] == ']' && ']' !in line[4..k]
  }

  predicate IsSubsectionHeading(line: string) {
    "###" <= line && |line| > 3 && IsSpace(line[3]) && TrimStart(line[3..]) != ""
  }

  predicate IsListItem(line: string) {
    "- " <= TrimStart(line)
  }

  function BracketEnd(line: string, from: nat): (k: nat)
    requires from <= |line| && exists k :: from <= k < |line| && line[k] == ']'
    ensures from <= k < |line| && line[k] == ']' && ']' !in line[from..k]
    decreases |line| - from
  {
    if line[from] == ']' then from
    else
      var k := BracketEnd(line, from + 1);
      assert line[from..k] == [line[from]] + line[from + 1..k];
      k
  }

  function ReleaseTitle(heading: string): string {
    if IsReleaseHeading(heading) then heading[4..BracketEnd(heading, 4)]
    else if "##" <= heading && |heading| > 2 && IsSpace(heading[2]) then Trim(heading[2..])
    else Trim(heading)
  }

  function SubsectionTitle(heading: string): string {
    if "###" <= heading && |heading| > 3 && IsSpace(heading[3]) then Trim(heading[3..]) else Trim(heading)
  }

  function SubsectionHeading(title: string): string {
    "### " + title
  }

  predicate IsTitle(title: string) {
    title != "" && Trim(title) == title
  }

  lemma TrimTrims(s: string)
    ensures Trim(Trim(s)) == Trim(s)
  {
  }

  lemma TitleIsTitle(heading: string)
    requires IsSubsectionHeading(heading)
    ensures IsTitle(SubsectionTitle(heading))
  {
    TrimTrims(heading[3..]);
    TrimEndOf(TrimStart(heading[3..]));
  }

  /** A rendered category heading reads back as its title, and is no release heading. */
  lemma TitleRoundTrip(title: string)
    requires IsTitle(title)
    ensures IsSubsectionHeading(SubsectionHeading(title)) && !IsReleaseHeading(SubsectionHeading(title))
    ensures SubsectionTitle(SubsectionHeading(title)) == title
    ensures !Blank(SubsectionHeading(title)) && !IsListItem(SubsectionHeading(title))
  {
    var h := SubsectionHeading(title);
    assert h[3..] == " " + title && (" " + title)[1..] == title;
    assert !IsSpace(title[0]);
    assert TrimStart(h[3..]) == title;
    assert !IsSpace(h[0]);
  }

  lemma {:induction false} ItemIsNotBlank(line: string)
    requires TrimStart(line) != ""
    ensures !Blank(line)
  {
    if IsSpace(line[0]) {
      ItemIsNotBlank(line[1..]);
      var k :| 0 <= k < |line[1..]| && !IsSpace(line[1..][k]);
      assert !IsSpace(line[k + 1]);
    }
  }

  lemma HeadingIsNotBlank(line: string)
    requires IsReleaseHeading(line)
    ensures !Blank(line)
  {
    assert !IsSpace(line[0]);
  }

  lemma BlankIsPlain()
    ensures Blank("") && !IsReleaseHeading("") && !IsSubsectionHeading("") && !IsListItem("")
  {
  }

  // ---- what the patterns match ----

  lemma {:induction false} TrimStartParts(s: string) returns (space: string)
    ensures Blank(space) && s == space + TrimStart(s)
  {
    space := "";
    if s != "" && IsSpace(s[0]) {
      var more := TrimStartParts(s[1..]);
      space := [s[0]] + more;
      assert s == [s[0]] + s[1..];
    }
  }

  lemma {:induction false} TrimStartOf(space: string, text: string)
    requires Blank(space) && (text == "" || !IsSpace(text[0]))
    ensures TrimStart(space + text) == text
  {
    if space == "" {
      assert space + text == text;
    } else {
      assert (space + text)[1..] == space[1..] + text;
      TrimStartOf(space[1..], text);
    }
  }

  lemma {:induction false} TrimEndWith(text: string, space: string)
    requires Blank(space) && (text == "" || !IsSpace(text[|text| - 1]))
    ensures TrimEnd(text + space) == text
  {
    if space == "" {
      assert text + space == text;
    } else {
      var n := |space| - 1;
      assert (text + space)[..|text| + n] == text + space[..n];
      TrimEndWith(text, space[..n]);
    }
  }

  /** Trimming takes the white space off both ends. */
  lemma TrimOfSpaced(before: string, text: string, after: string)
    requires Blank(before) && Blank(after) && (text == "" || (!IsSpace(text[0]) && !IsSpace(text[|text| - 1])))
    ensures Trim(before + text + after) == text
  {
    if text == "" {
      assert before + text + after == before + after;
      forall k | 0 <= k < |before + after| ensures IsSpace((before + after)[k]) {
        assert if k < |before| then IsSpace(before[k]) else IsSpace(after[k - |before|]);
      }
      BlankMeansTrimmedAway(before + after);
    } else {
      assert before + text + after == before + (text + after);
      TrimStartOf(before, text + after);
      TrimEndWith(text, after);
    }
  }

  ghost predicate ItemLine(line: string, indent: string, text: string) {
    Blank(indent) && line == indent + "- " + text
  }

  /** An item begins, after white space, with a dash and a blank. */
  lemma ListItemIs(line: string)
    ensures IsListItem(line) <==> exists indent, text :: ItemLine(line, indent, text)
  {
    hide IsSpace, TrimStart, Blank;
    if IsListItem(line) {
      var indent := TrimStartParts(line);
      var rest := TrimStart(line);
      assert rest == "- " + rest[2..];
      assert ItemLine(line, indent, rest[2..]);
    }
    forall indent, text | ItemLine(line, indent, text) ensures IsListItem(line) {
      ItemAfterIndent(indent, text);
    }
  }

  lemma ItemAfterIndent(indent: string, text: string)
    requires Blank(indent)
    ensures IsListItem(indent + "- " + text)
  {
    assert indent + "- " + text == indent + ("- " + text);
    TrimStartOf(indent, "- " + text);
  }

  ghost predicate ReleaseLine(line: string, title: string, rest: string) {
    title != "" && ']' !in title && line == "## [" + title + "]" + rest
  }

  /** A release heading has a bracketed title, whatever follows it, and that is its title. */
  lemma ReleaseHeadingIs(line: string)
    ensures IsReleaseHeading(line) <==> exists title, rest :: ReleaseLine(line, title, rest)
    ensures forall title, rest :: ReleaseLine(line, title, rest) ==> ReleaseTitle(line) == title
  {
    hide IsSpace;
    if IsReleaseHeading(line) {
      var k :| 4 < k < |line| && line[k] == ']' && ']' !in line[4..k];
      assert line == "## [" + line[4..k] + "]" + line[k + 1..];
      assert ReleaseLine(line, line[4..k], line[k + 1..]);
    }
    forall title, rest | ReleaseLine(line, title, rest) ensures IsReleaseHeading(line) && ReleaseTitle(line) == title {
      ReleaseTitleOf(line, title, rest);
    }
  }

  lemma ReleaseTitleOf(line: string, title: string, rest: string)
    requires ReleaseLine(line, title, rest)
    ensures IsReleaseHeading(line) && ReleaseTitle(line) == title
  {
    hide IsSpace;
    var end := 4 + |title|;
    assert line[..4] == "## [";
    assert line[4..end] == title && line[end] == ']';
    var k := BracketEnd(line, 4);
    assert forall i :: 4 <= i < end ==> line[i] == title[i - 4];
    assert forall i :: 4 <= i < k ==> line[4..k][i - 4] == line[i];
  }

  ghost predicate CategoryLine(line: string, space: string, text: string) {
    Blank(space) && space != "" && text != "" && !IsSpace(text[0]) && line == "###" + space + text
  }

  /** A category heading has three hashes, white space and a title, which is what is left of the rest when it is trimmed. */
  lemma SubsectionHeadingIs(line: string)
    ensures IsSubsectionHeading(line) <==> exists space, text :: CategoryLine(line, space, text)
    ensures forall space, text :: CategoryLine(line, space, text) ==> SubsectionTitle(line) == Trim(text)
  {
    if IsSubsectionHeading(line) {
      var space := TrimStartParts(line[3..]);
      var text := TrimStart(line[3..]);
      assert line == "###" + line[3..] && space != "";
      assert CategoryLine(line, space, text);
    }
    forall space, text | CategoryLine(line, space, text) ensures IsSubsectionHeading(line) && SubsectionTitle(line) == Trim(text) {
      CategoryTitleOf(line, space, text);
    }
  }

  lemma CategoryTitleOf(line: string, space: string, text: string)
    requires CategoryLine(line, space, text)
    ensures IsSubsectionHeading(line) && SubsectionTitle(line) == Trim(text)
  {
    assert line[..3] == "###" && line[3..] == space + text;
    TrimStartOf(space, text);
    TrimStartOf("", text);
    assert "" + text == text && line[3] == space[0];
  }
}
