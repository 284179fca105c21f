/** The archive link at the end of a collapsed changelog: writing it, and taking it off again. */
module ArchiveFooter {
  import opened ChangelogTail
  import opened ChangelogText
  import opened Wrappers

  /** The fixed parts of an archive link line: before the link text, between text and address, after the address. */
  datatype LinkParts = LinkParts(open: string, middle: string, close: string)

  const ARCHIVE_LINK := LinkParts("Older entries are archived in [", "](https://", ").")

  predicate Visible(parts: LinkParts) {
    parts.open != "" && !IsSpace(parts.open[0])
  }

  lemma ArchiveLinkIsVisible()
    ensures Visible(ARCHIVE_LINK)
  {
  }

  predicate IsHex(c: char) {
    '0' <= c <= '9' || 'a' <= c <= 'f'
  }

  /** The link text is a path, an at sign and a commit, up to the bracket closed at mid; the address follows. */
  predicate LinkShape(parts: LinkParts, line: string, at: int, mid: int) {
    && |parts.open| < at < mid < |line| - |parts.middle| - |parts.close|
    && parts.open <= line
    && line[at] == '@' && ']' !in line[|parts.open|..mid]
    && 7 <= mid - at - 1 <= 40 && (forall i :: at < i < mid ==> IsHex(line[i]))
    && line[mid..mid + |parts.middle|] == parts.middle
    && line[|line| - |parts.close|..] == parts.close
    && ')' !in line[mid + |parts.middle|..|line| - |parts.close|]
  }

  predicate IsArchiveLink(parts: LinkParts, line: string) {
    exists at, mid {:trigger LinkShape(parts, line, at, mid)} ::
      0 <= at < |line| && 0 <= mid < |line| && LinkShape(parts, line, at, mid)
  }

  function ArchiveLinkLine(parts: LinkParts, repo: string, path: string, commit: string): string {
    parts.open + path + "@" + (if |commit| > 12 then commit[..12] else commit)
    + parts.middle + Address(repo, path, commit) + parts.close
  }

  function Address(repo: string, path: string, commit: string): string {
    "github.com/" + repo + "/blob/" + commit + "/" + path
  }

  lemma LinkPartsHaveShape(parts: LinkParts, path: string, short: string, address: string)
    requires path != "" && ']' !in path && ')' !in address && address != ""
    requires 7 <= |short| <= 40 && (forall i :: 0 <= i < |short| ==> IsHex(short[i])) && ']' !in short
    ensures LinkShape(parts, parts.open + path + "@" + short + parts.middle + address + parts.close,
                      |parts.open| + |path|, |parts.open| + |path| + 1 + |short|)
  {
    var line := parts.open + path + "@" + short + parts.middle + address + parts.close;
    var at := |parts.open| + |path|;
    var mid := at + 1 + |short|;
    assert line[|parts.open|..mid] == path + "@" + short;
    assert line[mid..mid + |parts.middle|] == parts.middle;
    assert line[|line| - |parts.close|..] == parts.close;
    assert line[mid + |parts.middle|..|line| - |parts.close|] == address;
    assert forall i :: at < i < mid ==> line[i] == short[i - at - 1];
  }

  /** The line the fixer writes is one the fixer recognises. */
  lemma HexIs(c: char)
    ensures IsHex(c) <==> c in "0123456789abcdef"
  {
    assert forall i {:trigger "0123456789abcdef"[i]} :: 0 <= i < 16 ==> IsHex("0123456789abcdef"[i]);
    if IsHex(c) {
      var i := if c <= '9' then c as int - '0' as int else c as int - 'a' as int + 10;
      assert "0123456789abcdef"[i] == c;
    }
  }

  /** A path, seven to forty hexadecimal digits and an address, between the fixed parts. */
  ghost predicate LinkOf(parts: LinkParts, line: string, path: string, commit: string, address: string) {
    && line == parts.open + path + "@" + commit + parts.middle + address + parts.close
    && path != "" && ']' !in path && 7 <= |commit| <= 40 && (forall i :: 0 <= i < |commit| ==> commit[i] in "0123456789abcdef")
    && address != "" && ')' !in address
  }

  /** The test recognises exactly such lines. */
  lemma ArchiveLinkIs(parts: LinkParts, line: string)
    ensures IsArchiveLink(parts, line) <==> exists path, commit, address :: LinkOf(parts, line, path, commit, address)
  {
    if IsArchiveLink(parts, line) {
      var at, mid :| 0 <= at < |line| && 0 <= mid < |line| && LinkShape(parts, line, at, mid);
      ShapeIsLink(parts, line, at, mid);
    }
    if path, commit, address :| LinkOf(parts, line, path, commit, address) {
      forall i | 0 <= i < |commit| ensures IsHex(commit[i]) && commit[i] != ']' {
        HexIs(commit[i]);
      }
      LinkPartsHaveShape(parts, path, commit, address);
    }
  }

  lemma ShapeIsLink(parts: LinkParts, line: string, at: nat, mid: nat)
    requires at < |line| && mid < |line| && LinkShape(parts, line, at, mid)
    ensures exists path, commit, address :: LinkOf(parts, line, path, commit, address)
  {
    hide IsHex;
    var o, e := |parts.open|, |line| - |parts.close|;
    var path, commit, address := line[o..at], line[at + 1..mid], line[mid + |parts.middle|..e];
    forall i | 0 <= i < |commit| ensures commit[i] in "0123456789abcdef" {
      HexIs(line[at + 1 + i]);
    }
    forall i | 0 <= i < |path| ensures path[i] != ']' {
      assert line[o..mid][i] == path[i];
    }
    assert line == parts.open + path + "@" + commit + parts.middle + address + parts.close;
    assert LinkOf(parts, line, path, commit, address);
  }

  lemma LinkLineIsLink(parts: LinkParts, repo: string, path: string, commit: string)
    requires path != "" && ']' !in path && ')' !in path && ')' !in repo
    requires |commit| >= 7 && forall i :: 0 <= i < |commit| ==> IsHex(commit[i])
    ensures IsArchiveLink(parts, ArchiveLinkLine(parts, repo, path, commit))
  {
    var short := if |commit| > 12 then commit[..12] else commit;
    assert ')' !in commit && ']' !in short;
    LinkPartsHaveShape(parts, path, short, Address(repo, path, commit));
  }

  ghost function FooterSplit(parts: LinkParts, content: string): (string, Option<string>) {
    var lines := DropLastBlanks(ContentLines(content));
    if lines != [] && IsArchiveLink(parts, lines[|lines| - 1]) then
      (Closed(DropLastBlanks(lines[..|lines| - 1])), Some(lines[|lines| - 1]))
    else
      (content, None)
  }

  method SplitArchiveFooter(parts: LinkParts, content: string) returns (body: string, archiveLink: Option<string>)
    ensures (body, archiveLink) == FooterSplit(parts, content)
  {
    var lines := ContentLines(content);
    var end := BodyEndBeforeLine(lines, |lines|);
    assert lines[..|lines|] == lines;
    if end == 0 || !IsArchiveLink(parts, lines[end - 1]) {
      return content, None;
    }
    var bodyEnd := BodyEndBeforeLine(lines, end - 1);
    assert lines[..end][..end - 1] == lines[..end - 1];
    return Closed(lines[..bodyEnd]), Some(lines[end - 1]);
  }

  function AppendArchiveFooter(body: string, archiveLink: string): string {
    body + "\n" + archiveLink + "\n"
  }

  lemma AppendedLines(lines: seq<string>, link: string)
    requires OneLines(lines) && lines != [] && OneLine(link)
    ensures ContentLines(AppendArchiveFooter(Closed(lines), link)) == lines + [""] + [link]
  {
    var all := (lines + [""]) + [link];
    JoinConcat(lines, [""]);
    JoinConcat(lines + [""], [link]);
    assert AppendArchiveFooter(Closed(lines), link) == Closed(all);
    forall k | 0 <= k < |all| ensures OneLine(all[k]) {
      assert k < |lines| ==> OneLine(lines[k]);
    }
    LinesRoundTrip(all);
  }

  /** Taking an appended footer off gives back the body and the link. */
  lemma FooterRoundTrip(parts: LinkParts, lines: seq<string>, link: string)
    requires OneLines(lines) && lines != [] && !Blank(lines[|lines| - 1])
    requires OneLine(link) && IsArchiveLink(parts, link) && Visible(parts)
    ensures FooterSplit(parts, AppendArchiveFooter(Closed(lines), link)) == (Closed(lines), Some(link))
  {
    AppendedLines(lines, link);
    var all := lines + [""] + [link];
    assert !IsSpace(link[0]) && !Blank(link);
    assert all[|all| - 1] == link && all[..|all| - 1] == lines + [""];
    assert DropLastBlanks(all) == all;
    assert (lines + [""])[..|lines|] == lines && (lines + [""])[|lines|] == "";
    assert DropLastBlanks(lines + [""]) == lines;
  }

  lemma LinkIsOneLine(repo: string, path: string, commit: string)
    requires OneLine(repo) && OneLine(path) && forall i :: 0 <= i < |commit| ==> IsHex(commit[i])
    ensures OneLine(ArchiveLinkLine(ARCHIVE_LINK, repo, path, commit))
  {
    hide OneLine, IsHex;
    var short := if |commit| > 12 then commit[..12] else commit;
    FixedPartsAreOneLine();
    HexIsOneLine(commit);
    HexIsOneLine(short);
    OneLineParts("github.com/", repo);
    OneLineParts("github.com/" + repo, "/blob/");
    OneLineParts("github.com/" + repo + "/blob/", commit);
    OneLineParts("github.com/" + repo + "/blob/" + commit, "/");
    OneLineParts("github.com/" + repo + "/blob/" + commit + "/", path);
    var start := ARCHIVE_LINK.open + path + "@" + short;
    OneLineParts(ARCHIVE_LINK.open, path);
    OneLineParts(ARCHIVE_LINK.open + path, "@");
    OneLineParts(ARCHIVE_LINK.open + path + "@", short);
    OneLineParts(start, ARCHIVE_LINK.middle);
    OneLineParts(start + ARCHIVE_LINK.middle, Address(repo, path, commit));
    OneLineParts(start + ARCHIVE_LINK.middle + Address(repo, path, commit), ARCHIVE_LINK.close);
  }

  lemma FixedPartsAreOneLine()
    ensures OneLine(ARCHIVE_LINK.open) && OneLine(ARCHIVE_LINK.middle) && OneLine(ARCHIVE_LINK.close)
    ensures OneLine("github.com/") && OneLine("/blob/") && OneLine("/") && OneLine("@")
  {
    hide OneLine;
    var first, second := "Older entries ", "are archived in [";
    assert first + second == ARCHIVE_LINK.open;
    OneLineParts(first, second);
    OpenIsOneLine();
    RestIsOneLine();
  }

  lemma OpenIsOneLine()
    ensures OneLine("Older entries ") && OneLine("are archived in [")
  {
  }

  lemma RestIsOneLine()
    ensures OneLine("](https://") && OneLine(").")
    ensures OneLine("github.com/") && OneLine("/blob/") && OneLine("/") && OneLine("@")
  {
  }

  lemma HexIsOneLine(s: string)
    requires forall i :: 0 <= i < |s| ==> IsHex(s[i])
    ensures OneLine(s)
  {
  }

  lemma OneLineParts(a: string, b: string)
    ensures OneLine(a + b) <==> OneLine(a) && OneLine(b)
  {
  }

  /** So it is for the footer the fixer itself writes. */
  lemma WrittenFooterRoundTrip(lines: seq<string>, repo: string, path: string, commit: string)
    requires OneLines(lines) && lines != [] && !Blank(lines[|lines| - 1])
    requires OneLine(repo) && OneLine(path) && path != "" && ']' !in path && ')' !in path && ')' !in repo
    requires |commit| >= 7 && forall i :: 0 <= i < |commit| ==> IsHex(commit[i])
    ensures var link := ArchiveLinkLine(ARCHIVE_LINK, repo, path, commit);
            FooterSplit(ARCHIVE_LINK, AppendArchiveFooter(Closed(lines), link)) == (Closed(lines), Some(link))
  {
    hide *;
    LinkLineIsLink(ARCHIVE_LINK, repo, path, commit);
    ArchiveLinkIsVisible();
    LinkIsOneLine(repo, path, commit);
    FooterRoundTrip(ARCHIVE_LINK, lines, ArchiveLinkLine(ARCHIVE_LINK, repo, path, commit));
  }

  /** A footer is only ever taken off the end: nothing but blank lines is lost besides it. */
  lemma FooterIsAtTheEnd(parts: LinkParts, content: string) returns (lines: seq<string>, blanks: seq<string>, after: seq<string>)
    requires FooterSplit(parts, content).1.Some?
    ensures ContentLines(content) == lines + blanks + [FooterSplit(parts, content).1.value] + after
    ensures AllBlank(blanks) && AllBlank(after)
    ensures FooterSplit(parts, content).0 == Closed(lines) && IsArchiveLink(parts, FooterSplit(parts, content).1.value)
  {
    var all := ContentLines(content);
    var kept := DropLastBlanks(all);
    after := LastBlanks(all);
    var n := |kept| - 1;
    blanks := LastBlanks(kept[..n]);
    lines := DropLastBlanks(kept[..n]);
    assert kept == kept[..n] + [kept[n]];
  }

  /**
   A collapse followed by its footer: the next run takes the footer off,
   finds the same body, and has nothing to collapse; the file is within the
   budget whenever more than two sections stay.
   */
  lemma ArchivedChangelogIsStable(parts: LinkParts, content: string, link: string, maxBytes: int, result: string, collapsed: nat)
    requires IsCollapse(content, link, maxBytes, result, collapsed) && collapsed > 0
    requires OneLine(link) && IsArchiveLink(parts, link) && Visible(parts)
    ensures FooterSplit(parts, AppendArchiveFooter(result, link)) == (result, Some(link))
    ensures |Headings(ContentLines(result))| > 2 ==> Bytes(AppendArchiveFooter(result, link)) <= maxBytes
    ensures forall again, n :: IsCollapse(result, link, maxBytes, again, n) ==> again == result && n == 0
  {
    CollapsedBody(content, |Headings(ContentLines(content))| - collapsed, parts, link);
    CollapseIsTight(content, link, maxBytes, result, collapsed);
    CollapseKeepsFirstSections(content, link, maxBytes, result, collapsed);
    AppendedBytes(result, link);
    forall again, n | IsCollapse(result, link, maxBytes, again, n) ensures again == result && n == 0 {
      CollapseTwice(content, link, maxBytes, result, collapsed, again, n);
    }
  }

  lemma AppendedBytes(body: string, link: string)
    ensures Bytes(AppendArchiveFooter(body, link)) == Bytes(body) + Footer(link)
  {
    BytesConcat(body, "\n" + link + "\n");
    assert AppendArchiveFooter(body, link) == body + ("\n" + link + "\n");
  }

  lemma CollapsedBody(content: string, c: nat, parts: LinkParts, link: string)
    requires 0 < c < |Headings(ContentLines(content))|
    requires OneLine(link) && IsArchiveLink(parts, link) && Visible(parts)
    ensures var body := Cut(ContentLines(content), Headings(ContentLines(content))[c]);
            FooterSplit(parts, AppendArchiveFooter(body, link)) == (body, Some(link))
  {
    var lines := ContentLines(content);
    CutReadsBack(content, c);
    CutKeeps(lines, c);
    FooterRoundTrip(parts, DropLastBlanks(lines[..Headings(lines)[c]]), link);
  }
}
