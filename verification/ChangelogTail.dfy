/** Collapsing the oldest releases of a changelog into an archive footer, within a byte budget. */
module ChangelogTail {
  import opened ChangelogText
  import opened Wrappers

  // ---- sizes ----

  /** The UTF-8 length of a character. */
  function CharBytes(c: char): nat {
    if c < '\U{80}' then 1 else if c < '\U{800}' then 2 else if c < '\U{10000}' then 3 else 4
  }

  function Bytes(s: string): nat {
    if s == "" then 0 else CharBytes(s[0]) + Bytes(s[1..])
  }

  /** The lines with a line feed after each. */
  ghost function LineBytes(lines: seq<string>): nat {
    if lines == [] then 0 else LineBytes(lines[..|lines| - 1]) + Bytes(lines[|lines| - 1]) + 1
  }

  lemma {:induction false} BytesConcat(a: string, b: string)
    ensures Bytes(a + b) == Bytes(a) + Bytes(b)
  {
    if a == "" {
      assert a + b == b;
    } else {
      assert (a + b)[1..] == a[1..] + b;
      BytesConcat(a[1..], b);
    }
  }

  lemma SnocClosed(lines: seq<string>, line: string)
    requires lines != []
    ensures Closed(lines + [line]) == Closed(lines) + (line + "\n")
  {
    JoinConcat(lines, [line]);
  }

  lemma LineWithEnd(line: string)
    ensures Bytes(line + "\n") == Bytes(line) + 1
  {
    BytesConcat(line, "\n");
  }

  lemma {:induction false} ClosedBytes(lines: seq<string>)
    requires lines != []
    ensures Bytes(Closed(lines)) == LineBytes(lines)
  {
    var n := |lines| - 1;
    LineWithEnd(lines[n]);
    if n == 0 {
      assert LineBytes(lines[..n]) == 0;
    } else {
      var init := lines[..n];
      ClosedBytes(init);
      assert lines == init + [lines[n]];
      SnocClosed(init, lines[n]);
      BytesConcat(Closed(init), lines[n] + "\n");
    }
  }

  // ---- the release headings ----

  ghost function Headings(lines: seq<string>): (r: seq<nat>)
    ensures forall k {:trigger r[k]} :: 0 <= k < |r| ==> r[k] < |lines| && IsReleaseHeading(lines[r[k]])
    ensures forall k, l :: 0 <= k < l < |r| ==> r[k] < r[l]
  {
    if lines == [] then []
    else
      var n := |lines| - 1;
      Headings(lines[..n]) + if IsReleaseHeading(lines[n]) then [n] else []
  }

  /** The headings of a prefix are the headings before its end. */
  lemma {:induction false} HeadingsOfPrefix(lines: seq<string>, end: nat)
    requires end <= |lines|
    ensures Headings(lines[..end]) <= Headings(lines)
    ensures forall k {:trigger Headings(lines)[k]} ::
              0 <= k < |Headings(lines)| ==> (Headings(lines)[k] < end <==> k < |Headings(lines[..end])|)
    decreases |lines|
  {
    if end == |lines| {
      assert lines[..end] == lines;
    } else {
      var n := |lines| - 1;
      HeadingsOfPrefix(lines[..n], end);
      assert lines[..n][..end] == lines[..end];
    }
  }

  lemma PrefixHeadingCount(lines: seq<string>, end: nat, c: nat)
    requires end <= |lines| && c < |Headings(lines)|
    requires end <= Headings(lines)[c] && (c > 0 ==> Headings(lines)[c - 1] < end)
    ensures Headings(lines[..end]) == Headings(lines)[..c]
  {
    HeadingsOfPrefix(lines, end);
  }

  // ---- cuts ----

  /** The content cut before a line, blank lines at its end dropped. */
  ghost function Cut(lines: seq<string>, heading: nat): string
    requires heading <= |lines|
  {
    Closed(DropLastBlanks(lines[..heading]))
  }

  ghost function Footer(link: string): nat {
    Bytes("\n" + link + "\n")
  }

  ghost predicate Fits(content: string, link: string, maxBytes: int) {
    Bytes(content) + Footer(link) <= maxBytes
  }

  lemma {:induction false} DropLastIsPrefix(lines: seq<string>, at: nat)
    requires at < |lines| && !Blank(lines[at])
    ensures |DropLastBlanks(lines)| > at && DropLastBlanks(lines) <= lines
    ensures !Blank(DropLastBlanks(lines)[|DropLastBlanks(lines)| - 1])
  {
    var n := |lines| - 1;
    if Blank(lines[n]) {
      DropLastIsPrefix(lines[..n], at);
    }
  }

  /** A cut before the third or a later heading keeps the heading before it, and ends with a line that is not blank. */
  lemma CutKeeps(lines: seq<string>, c: nat)
    requires 0 < c < |Headings(lines)|
    ensures var h, kept := Headings(lines), DropLastBlanks(lines[..Headings(lines)[c]]);
            && |kept| <= h[c] && kept == lines[..|kept|] && h[c - 1] < |kept|
            && !Blank(kept[|kept| - 1])
            && Headings(kept) == h[..c]
  {
    var h := Headings(lines);
    HeadingIsNotBlank(lines[h[c - 1]]);
    DropLastIsPrefix(lines[..h[c]], h[c - 1]);
    var kept := DropLastBlanks(lines[..h[c]]);
    PrefixHeadingCount(lines, |kept|, c);
  }

  // ---- the collapse ----

  /** The content cut before the c-th heading is within the budget. */
  ghost predicate CutFits(lines: seq<string>, link: string, maxBytes: int, c: nat)
    requires c < |Headings(lines)|
  {
    Fits(Cut(lines, Headings(lines)[c]), link, maxBytes)
  }

  /** Of the cuts before the third and the later headings, the longest that fits is taken, or else the shortest. */
  ghost predicate BestCut(lines: seq<string>, link: string, maxBytes: int, kept: nat) {
    && 2 <= kept < |Headings(lines)|
    && (kept > 2 ==> CutFits(lines, link, maxBytes, kept))
    && forall c {:trigger CutFits(lines, link, maxBytes, c)} ::
         kept < c < |Headings(lines)| ==> !CutFits(lines, link, maxBytes, c)
  }

  ghost predicate IsCollapse(content: string, link: string, maxBytes: int, result: string, collapsed: nat) {
    var lines := ContentLines(content);
    var n := |Headings(lines)|;
    if Fits(content, link, maxBytes) || n <= 2 then
      result == content && collapsed == 0
    else
      && 0 < collapsed < n && BestCut(lines, link, maxBytes, n - collapsed)
      && result == Cut(lines, Headings(lines)[n - collapsed])
  }

  method BodyEndBeforeLine(lines: seq<string>, heading: nat) returns (end: nat)
    requires heading <= |lines|
    ensures end <= heading && lines[..end] == DropLastBlanks(lines[..heading])
  {
    end := heading;
    while end > 0 && Blank(lines[end - 1])
      invariant 0 <= end <= heading
      invariant DropLastBlanks(lines[..end]) == DropLastBlanks(lines[..heading])
    {
      assert lines[..end][..end - 1] == lines[..end - 1];
      end := end - 1;
    }
  }

  method CollectHeadings(lines: seq<string>) returns (headings: seq<nat>)
    ensures headings == Headings(lines)
  {
    headings := [];
    for i := 0 to |lines|
      invariant headings == Headings(lines[..i])
    {
      assert lines[..i + 1][..i] == lines[..i];
      if IsReleaseHeading(lines[i]) {
        headings := headings + [i];
      }
    }
    assert lines[..|lines|] == lines;
  }

  /** How many bytes the first lines take, for every number of lines. */
  method PrefixSums(lines: seq<string>) returns (sums: array<nat>)
    ensures fresh(sums) && sums.Length == |lines| + 1
    ensures forall i :: 0 <= i <= |lines| ==> sums[i] == LineBytes(lines[..i])
  {
    sums := new nat[|lines| + 1];
    sums[0] := 0;
    for i := 0 to |lines|
      invariant forall j :: 0 <= j <= i ==> sums[j] == LineBytes(lines[..j])
    {
      sums[i + 1] := sums[i] + Bytes(lines[i]) + 1;
      assert lines[..i + 1][..i] == lines[..i];
    }
  }

  lemma CutBytes(lines: seq<string>, c: nat, end: nat)
    requires 0 < c < |Headings(lines)| && end <= Headings(lines)[c]
    requires lines[..end] == DropLastBlanks(lines[..Headings(lines)[c]])
    ensures LineBytes(lines[..end]) == Bytes(Cut(lines, Headings(lines)[c]))
  {
    CutKeeps(lines, c);
    ClosedBytes(lines[..end]);
  }

  method SectionsToKeep(lines: seq<string>, headings: seq<nat>, sums: array<nat>, archiveLink: string, maxBytes: int)
    returns (kept: nat)
    requires headings == Headings(lines) && |headings| > 2
    requires sums.Length == |lines| + 1 && forall i :: 0 <= i <= |lines| ==> sums[i] == LineBytes(lines[..i])
    ensures BestCut(lines, archiveLink, maxBytes, kept)
  {
    var budget := maxBytes - Bytes("\n" + archiveLink + "\n");
    var candidate := |headings| - 1;
    while candidate >= 2
      invariant 1 <= candidate < |headings|
      invariant forall c {:trigger CutFits(lines, archiveLink, maxBytes, c)} ::
        candidate < c < |headings| ==> !CutFits(lines, archiveLink, maxBytes, c)
    {
      var end := BodyEndBeforeLine(lines, headings[candidate]);
      CutBytes(lines, candidate, end);
      assert CutFits(lines, archiveLink, maxBytes, candidate) <==> sums[end] <= budget;
      if sums[end] <= budget {
        return candidate;
      }
      candidate := candidate - 1;
    }
    return 2;
  }

  method CollapseChangelogTail(content: string, archiveLink: string, maxBytes: int)
    returns (result: string, collapsedReleases: nat)
    ensures IsCollapse(content, archiveLink, maxBytes, result, collapsedReleases)
  {
    var footerBytes := Bytes("\n" + archiveLink + "\n");
    if Bytes(content) + footerBytes <= maxBytes {
      return content, 0;
    }
    var lines := ContentLines(content);
    var headings := CollectHeadings(lines);
    if |headings| <= 2 {
      return content, 0;
    }
    var sums := PrefixSums(lines);
    var kept := SectionsToKeep(lines, headings, sums, archiveLink, maxBytes);
    var bodyEnd := BodyEndBeforeLine(lines, headings[kept]);
    result := Closed(lines[..bodyEnd]);
    collapsedReleases := |headings| - kept;
  }

  // ---- what the collapse guarantees ----

  lemma PrefixOneLines(lines: seq<string>, end: nat)
    requires OneLines(lines) && end <= |lines|
    ensures OneLines(lines[..end])
  {
    forall k | 0 <= k < end ensures OneLine(lines[..end][k]) {
      assert OneLine(lines[k]);
    }
  }

  /** The lines of a cut are the lines before it, and their headings the first ones. */
  lemma CutReadsBack(content: string, c: nat)
    requires 0 < c < |Headings(ContentLines(content))|
    ensures var lines := ContentLines(content);
            var kept := DropLastBlanks(lines[..Headings(lines)[c]]);
            && ContentLines(Cut(lines, Headings(lines)[c])) == kept
            && Headings(kept) == Headings(lines)[..c] && OneLines(kept)
  {
    var lines := ContentLines(content);
    ContentLinesAreLines(content);
    CutKeeps(lines, c);
    var kept := DropLastBlanks(lines[..Headings(lines)[c]]);
    PrefixOneLines(lines, |kept|);
    LinesRoundTrip(kept);
  }

  lemma CutHeadings(content: string, c: nat)
    requires 0 < c < |Headings(ContentLines(content))|
    ensures var lines := ContentLines(content);
            Headings(ContentLines(Cut(lines, Headings(lines)[c]))) == Headings(lines)[..c]
  {
    CutReadsBack(content, c);
  }

  /** The sections that stay are the first ones, two at least. */
  lemma CollapseKeepsFirstSections(content: string, link: string, maxBytes: int, result: string, collapsed: nat)
    requires IsCollapse(content, link, maxBytes, result, collapsed)
    ensures collapsed <= |Headings(ContentLines(content))|
    ensures Headings(ContentLines(result)) == Headings(ContentLines(content))[..|Headings(ContentLines(content))| - collapsed]
    ensures collapsed > 0 ==> |Headings(ContentLines(result))| >= 2
  {
    var h := Headings(ContentLines(content));
    if collapsed > 0 {
      CutHeadings(content, |h| - collapsed);
    } else {
      assert result == content && h[..|h|] == h;
    }
  }

  /** Collapsing what was collapsed changes nothing. */
  lemma CollapseTwice(content: string, link: string, maxBytes: int, once: string, n: nat, twice: string, m: nat)
    requires IsCollapse(content, link, maxBytes, once, n) && IsCollapse(once, link, maxBytes, twice, m)
    ensures twice == once && m == 0
  {
    if n > 0 {
      CollapseKeepsFirstSections(content, link, maxBytes, once, n);
    }
  }

  /** When more than two sections stay, body and footer are within the budget; one section more would not have been. */
  lemma CollapseIsTight(content: string, link: string, maxBytes: int, result: string, collapsed: nat)
    requires IsCollapse(content, link, maxBytes, result, collapsed) && collapsed > 0
    ensures var lines := ContentLines(content);
            var h := Headings(lines);
            && (|h| - collapsed > 2 ==> Fits(result, link, maxBytes))
            && (collapsed > 1 ==> !Fits(Cut(lines, h[|h| - collapsed + 1]), link, maxBytes))
            && !Fits(content, link, maxBytes)
  {
    var lines := ContentLines(content);
    var kept := |Headings(lines)| - collapsed;
    assert kept > 2 ==> CutFits(lines, link, maxBytes, kept);
    assert collapsed > 1 ==> !CutFits(lines, link, maxBytes, kept + 1);
  }

  lemma {:induction false} JoinPrefix(a: seq<string>, b: seq<string>)
    requires a != []
    ensures Join(a) <= Join(a + b)
    ensures b != [] ==> Closed(a) <= Join(a + b)
  {
    if b == [] {
      assert a + b == a;
    } else {
      JoinConcat(a, b);
    }
  }

  lemma CutIsPrefix(lines: seq<string>, c: nat)
    requires 0 < c < |Headings(lines)|
    ensures Cut(lines, Headings(lines)[c]) <= Closed(lines)
  {
    CutKeeps(lines, c);
    var kept := DropLastBlanks(lines[..Headings(lines)[c]]);
    assert lines == kept + lines[|kept|..];
    JoinPrefix(kept, lines[|kept|..]);
  }

  /** On content in rendered form, what stays is a prefix of it, byte for byte. */
  lemma CollapseIsPrefix(content: string, link: string, maxBytes: int, result: string, collapsed: nat)
    requires IsCollapse(content, link, maxBytes, result, collapsed)
    requires content == Closed(ContentLines(content))
    ensures result <= content
  {
    if collapsed > 0 {
      CutIsPrefix(ContentLines(content), |Headings(ContentLines(content))| - collapsed);
    }
  }
}
