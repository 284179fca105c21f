/** Parsing what was rendered gives the document back, up to blank lines, line numbers and empty categories. */
module ChangelogRoundTrip {
  import opened ChangelogText
  import opened ChangelogDocument

  // ---- documents as they come out of the parser ----

  /** Single lines, none of them a release heading. */
  ghost predicate NoRelease(texts: seq<string>) {
    forall k {:trigger texts[k]} :: 0 <= k < |texts| ==> !IsReleaseHeading(texts[k]) && OneLine(texts[k])
  }

  ghost predicate NoCategory(texts: seq<string>) {
    forall k {:trigger texts[k]} :: 0 <= k < |texts| ==> !IsSubsectionHeading(texts[k])
  }

  ghost predicate PlainLines(texts: seq<string>) {
    NoRelease(texts) && NoCategory(texts)
  }

  ghost predicate FormedSubsection(s: Subsection) {
    IsTitle(s.title) && OneLine(s.title) && PlainLines(Texts(s.lines))
  }

  ghost predicate FormedSection(s: Section) {
    && IsReleaseHeading(s.heading) && OneLine(s.heading) && s.title == ReleaseTitle(s.heading)
    && PlainLines(Texts(s.leadingLines))
    && forall k {:trigger FormedSubsection(s.subsections[k])} ::
         0 <= k < |s.subsections| ==> FormedSubsection(s.subsections[k])
  }

  ghost predicate FormedSections(sections: seq<Section>) {
    forall k {:trigger FormedSection(sections[k])} :: 0 <= k < |sections| ==> FormedSection(sections[k])
  }

  ghost predicate Formed(document: Document) {
    NoRelease(Texts(document.prefixLines)) && FormedSections(document.sections)
  }

  lemma SliceTexts(lines: seq<NumberedLine>, lo: nat, hi: nat)
    requires lo <= hi <= |lines|
    ensures Texts(lines[lo..hi]) == Texts(lines)[lo..hi]
  {
  }

  lemma {:induction false} TrimKeepsCharacters(s: string, c: char)
    requires c in Trim(s)
    ensures c in s
  {
    TrimEndKeeps(TrimStart(s), c);
    TrimStartKeeps(s, c);
  }

  lemma {:induction false} TrimStartKeeps(s: string, c: char)
    requires c in TrimStart(s)
    ensures c in s
  {
    if s != "" && IsSpace(s[0]) {
      TrimStartKeeps(s[1..], c);
    }
  }

  lemma TrimEndKeeps(s: string, c: char)
    requires c in TrimEnd(s)
    ensures c in s
  {
    var k :| 0 <= k < |TrimEnd(s)| && TrimEnd(s)[k] == c;
    assert s[k] == c;
  }

  lemma TitleIsOneLine(heading: string)
    requires OneLine(heading)
    ensures OneLine(SubsectionTitle(heading))
  {
    forall c | c in SubsectionTitle(heading) ensures c in heading {
      if "###" <= heading && |heading| > 3 && IsSpace(heading[3]) {
        TrimKeepsCharacters(heading[3..], c);
      } else {
        TrimKeepsCharacters(heading, c);
      }
    }
  }

  lemma {:induction false} ParsedSubsectionsAreFormed(lines: seq<NumberedLine>)
    requires NoRelease(Texts(lines)) && (lines != [] ==> IsSubsectionHeading(lines[0].text))
    ensures forall k {:trigger FormedSubsection(ParseSubsections(lines)[k])} ::
              0 <= k < |ParseSubsections(lines)| ==> FormedSubsection(ParseSubsections(lines)[k])
    decreases |lines|
  {
    hide IsReleaseHeading, IsSubsectionHeading, SubsectionTitle, IsTitle, NextSubsection, OneLine;
    if lines != [] {
      var k := NextSubsection(lines[1..]);
      TitleIsTitle(lines[0].text);
      assert OneLine(Texts(lines)[0]);
      TitleIsOneLine(lines[0].text);
      var body, rest := lines[1..][..k], lines[1..][k..];
      assert forall i :: 0 <= i < |body| ==> Texts(body)[i] == Texts(lines)[i + 1];
      assert forall i :: 0 <= i < |rest| ==> Texts(rest)[i] == Texts(lines)[1 + k + i];
      ParsedSubsectionsAreFormed(rest);
      var all := ParseSubsections(lines);
      assert all == [Subsection(SubsectionTitle(lines[0].text), body)] + ParseSubsections(rest);
      forall i | 0 <= i < |all| ensures FormedSubsection(all[i]) {
        assert i > 0 ==> FormedSubsection(ParseSubsections(rest)[i - 1]);
      }
    }
  }

  lemma ParsedSectionIsFormed(heading: string, body: seq<NumberedLine>)
    requires IsReleaseHeading(heading) && OneLine(heading) && NoRelease(Texts(body))
    ensures FormedSection(ParseSection(heading, body))
  {
    hide OneLine, IsReleaseHeading, IsSubsectionHeading, ReleaseTitle, NextSubsection, ParseSubsections, FormedSubsection;
    var k := NextSubsection(body);
    assert forall i :: 0 <= i < k ==> Texts(body[..k])[i] == Texts(body)[i];
    assert forall i :: 0 <= i < |body| - k ==> Texts(body[k..])[i] == Texts(body)[k + i];
    ParsedSubsectionsAreFormed(body[k..]);
  }

  lemma {:induction false} ParsedSectionsAreFormed(lines: seq<NumberedLine>)
    requires OneLines(Texts(lines)) && (lines != [] ==> IsReleaseHeading(lines[0].text))
    ensures FormedSections(ParseSections(lines))
    decreases |lines|
  {
    hide OneLine, IsReleaseHeading, NextRelease, ParseSection, FormedSection;
    if lines != [] {
      var k := NextRelease(lines[1..]);
      var body, rest := lines[1..][..k], lines[1..][k..];
      assert OneLine(Texts(lines)[0]);
      forall i | 0 <= i < |body| ensures !IsReleaseHeading(Texts(body)[i]) && OneLine(Texts(body)[i]) {
        assert Texts(body)[i] == lines[1..][i].text && OneLine(Texts(lines)[i + 1]);
      }
      ParsedSectionIsFormed(lines[0].text, body);
      forall i | 0 <= i < |rest| ensures OneLine(Texts(rest)[i]) {
        assert OneLine(Texts(lines)[1 + k + i]);
      }
      ParsedSectionsAreFormed(rest);
      var all := ParseSections(lines);
      assert all == [ParseSection(lines[0].text, body)] + ParseSections(rest);
      forall i | 0 <= i < |all| ensures FormedSection(all[i]) {
        assert i > 0 ==> FormedSection(ParseSections(rest)[i - 1]);
      }
    }
  }

  /** Whatever the content, the parser yields a document whose lines and headings are what their places say. */
  lemma ParsedIsFormed(lines: seq<NumberedLine>)
    requires OneLines(Texts(lines))
    ensures Formed(ParseLines(lines))
  {
    hide OneLine, IsReleaseHeading, NextRelease, ParseSections, FormedSections;
    var k := NextRelease(lines);
    forall i | 0 <= i < k ensures !IsReleaseHeading(Texts(lines[..k])[i]) && OneLine(Texts(lines[..k])[i]) {
      assert Texts(lines[..k])[i] == lines[i].text && OneLine(Texts(lines)[i]);
    }
    forall i | 0 <= i < |lines| - k ensures OneLine(Texts(lines[k..])[i]) {
      assert OneLine(Texts(lines)[k + i]);
    }
    ParsedSectionsAreFormed(lines[k..]);
  }

  // ---- documents up to blank lines ----

  function CleanLines(lines: seq<NumberedLine>): seq<NumberedLine> {
    Synthetic(Body(lines))
  }

  function CleanSubsections(subsections: seq<Subsection>): seq<Subsection> {
    if subsections == [] then []
    else
      var first := subsections[0];
      (if Body(first.lines) == [] then [] else [Subsection(first.title, CleanLines(first.lines))])
      + CleanSubsections(subsections[1..])
  }

  function CleanSection(s: Section): Section {
    Section(s.heading, s.title, CleanLines(s.leadingLines), CleanSubsections(s.subsections))
  }

  function CleanSections(sections: seq<Section>): (r: seq<Section>)
    ensures |r| == |sections|
    ensures forall k :: 0 <= k < |r| ==> r[k] == CleanSection(sections[k])
  {
    seq(|sections|, k requires 0 <= k < |sections| => CleanSection(sections[k]))
  }

  /** The document without blank lines around its parts, without empty categories, and without line numbers. */
  function Clean(document: Document): Document {
    Document(CleanLines(document.prefixLines), CleanSections(document.sections))
  }

  // ---- plain lines under trimming and joining ----

  lemma ConcatPlain(a: seq<string>, b: seq<string>)
    ensures NoRelease(a + b) <==> NoRelease(a) && NoRelease(b)
    ensures NoCategory(a + b) <==> NoCategory(a) && NoCategory(b)
  {
    hide IsReleaseHeading, IsSubsectionHeading;
    var all := a + b;
    assert forall k :: 0 <= k < |a| ==> all[k] == a[k];
    assert forall k :: 0 <= k < |b| ==> all[|a| + k] == b[k];
  }

  lemma BodyIsPlain(lines: seq<NumberedLine>)
    ensures NoRelease(Texts(lines)) ==> NoRelease(Body(lines))
    ensures NoCategory(Texts(lines)) ==> NoCategory(Body(lines))
  {
    hide NoRelease, NoCategory, TrimBlank, AllBlank;
    var before, after := TrimParts(Texts(lines));
    assert Texts(lines) == before + Body(lines) + after;
    ConcatPlain(before + Body(lines), after);
    ConcatPlain(before, Body(lines));
  }

  lemma EmptyLineIsPlain()
    ensures PlainLines([""]) && AllBlank([""]) && PlainLines([]) && AllBlank([])
  {
    BlankIsPlain();
  }

  // ---- categories ----

  lemma BodyOf(ls: seq<NumberedLine>, before: seq<string>, core: seq<string>, after: seq<string>)
    requires Texts(ls) == before + core + after
    requires AllBlank(before) && Trimmed(core) && AllBlank(after)
    ensures Body(ls) == core
  {
    TrimOf(before, core, after);
  }

  lemma TrimmedBody(lines: seq<NumberedLine>)
    ensures Trimmed(Body(lines))
  {
    var before, after := TrimParts(Texts(lines));
  }

  ghost predicate FormedSubsections(subsections: seq<Subsection>) {
    forall k {:trigger FormedSubsection(subsections[k])} :: 0 <= k < |subsections| ==> FormedSubsection(subsections[k])
  }

  lemma TailFormed(subsections: seq<Subsection>)
    requires FormedSubsections(subsections) && subsections != []
    ensures FormedSubsections(subsections[1..]) && FormedSubsection(subsections[0])
  {
    hide FormedSubsection;
    forall k | 0 <= k < |subsections[1..]| ensures FormedSubsection(subsections[1..][k]) {
      assert FormedSubsection(subsections[k + 1]);
    }
  }

  /** Where the rendered categories begin when read back: only blank lines come before. */
  ghost predicate ReadsBack(ls: seq<NumberedLine>, subsections: seq<Subsection>) {
    var k := NextSubsection(ls);
    AllBlank(Texts(ls[..k])) && CleanSubsections(ParseSubsections(ls[k..])) == CleanSubsections(subsections)
  }

  lemma ReadsNothing(ls: seq<NumberedLine>)
    requires AllBlank(Texts(ls)) && NoCategory(Texts(ls))
    ensures ReadsBack(ls, [])
  {
    hide AllBlank, IsSubsectionHeading;
    assert forall i :: 0 <= i < |ls| ==> Texts(ls)[i] == ls[i].text;
    NextSubsectionIs(ls, |ls|);
    assert ls[..|ls|] == ls && ls[|ls|..] == [];
  }

  /** Lines that are no category heading move the next one further down. */
  lemma SkipPlain(ls: seq<NumberedLine>, n: nat, rest: seq<NumberedLine>)
    requires n <= |ls| && rest == ls[n..] && NoCategory(Texts(ls[..n]))
    ensures NextSubsection(ls) == n + NextSubsection(rest)
    ensures ls[..n + NextSubsection(rest)] == ls[..n] + rest[..NextSubsection(rest)]
    ensures ls[n + NextSubsection(rest)..] == rest[NextSubsection(rest)..]
  {
    hide IsSubsectionHeading, NextSubsection;
    var j := NextSubsection(rest);
    forall i | 0 <= i < n + j ensures !IsSubsectionHeading(ls[i].text) {
      if i < n {
        assert Texts(ls[..n])[i] == ls[i].text;
      } else {
        assert ls[i] == rest[i - n];
      }
    }
    assert n + j < |ls| ==> ls[n + j] == rest[j];
    NextSubsectionIs(ls, n + j);
  }

  lemma FirstCategory(ls: seq<NumberedLine>, k: nat, rest: seq<NumberedLine>)
    requires 2 <= k <= |ls| && rest == ls[k..]
    requires !IsSubsectionHeading(ls[0].text) && IsSubsectionHeading(ls[1].text)
    requires NoCategory(Texts(ls[2..k]))
    ensures NextSubsection(ls) == 1
    ensures ParseSubsections(ls[1..])
         == [Subsection(SubsectionTitle(ls[1].text), ls[2..k] + rest[..NextSubsection(rest)])]
            + ParseSubsections(rest[NextSubsection(rest)..])
  {
    hide *;
    NextSubsectionIs(ls, 1);
    var body := ls[2..];
    assert body[..k - 2] == ls[2..k] && body[k - 2..] == rest;
    SkipPlain(body, k - 2, rest);
    var j := NextSubsection(rest);
    SubsectionStep(ls, 1, k + j);
    assert ls[2..k + j] == body[..k - 2 + j] && ls[k + j..] == rest[j..];
  }

  lemma OneCategoryBack(ls: seq<NumberedLine>, subsections: seq<Subsection>, tail: seq<string>)
    requires subsections != [] && FormedSubsection(subsections[0]) && Body(subsections[0].lines) != []
    requires Texts(ls) == SubsectionLines(subsections[0]) + tail
    requires ReadsBack(ls[|SubsectionLines(subsections[0])|..], subsections[1..])
    ensures ReadsBack(ls, subsections)
  {
    hide IsSubsectionHeading, SubsectionTitle, SubsectionHeading, TrimBlank, IsReleaseHeading, IsTitle, Blank, IsListItem,
         NextSubsection, CleanSubsections, ParseSubsections;
    var first := subsections[0];
    var lines := Body(first.lines);
    var heading := SubsectionHeading(first.title);
    var k := 3 + |lines|;
    var rest := ls[k..];
    TitleRoundTrip(first.title);
    BodyIsPlain(first.lines);
    EmptyLineIsPlain();
    SliceTexts(ls, 0, 1);
    SliceTexts(ls, 2, k);
    assert Texts(ls)[0] == ls[0].text == "" && Texts(ls)[1] == ls[1].text == heading;
    assert Texts(ls[2..k]) == [""] + lines;
    ConcatPlain([""], lines);
    assert !IsSubsectionHeading([""][0]);
    FirstCategory(ls, k, rest);
    var j := NextSubsection(rest);
    var body := ls[2..k] + rest[..j];
    assert Texts(body) == [""] + lines + Texts(rest[..j]);
    TrimmedBody(first.lines);
    BodyOf(body, [""], lines, Texts(rest[..j]));
    assert Texts(ls[..1]) == [""];
    CleanCons(Subsection(first.title, body), ParseSubsections(rest[j..]));
    CleanCons(first, subsections[1..]);
    assert [first] + subsections[1..] == subsections;
  }

  lemma CleanCons(first: Subsection, rest: seq<Subsection>)
    ensures CleanSubsections([first] + rest)
         == (if Body(first.lines) == [] then [] else [Subsection(first.title, CleanLines(first.lines))]) + CleanSubsections(rest)
  {
    hide Body;
    assert ([first] + rest)[1..] == rest;
  }

  lemma {:induction false} SubsectionsBack(ls: seq<NumberedLine>, subsections: seq<Subsection>, tail: seq<string>)
    requires FormedSubsections(subsections) && AllBlank(tail) && NoCategory(tail)
    requires Texts(ls) == SubsectionsLines(subsections) + tail
    ensures ReadsBack(ls, subsections)
    decreases |subsections|
  {
    hide ReadsBack, AllBlank, NoCategory, FormedSubsection, SubsectionLines, Body;
    if subsections == [] {
      assert Texts(ls) == tail;
      ReadsNothing(ls);
    } else {
      TailFormed(subsections);
      var n := |SubsectionLines(subsections[0])|;
      SliceTexts(ls, n, |ls|);
      assert ls[n..|ls|] == ls[n..];
      assert Texts(ls) == SubsectionLines(subsections[0]) + (SubsectionsLines(subsections[1..]) + tail);
      SubsectionsBack(ls[n..], subsections[1..], tail);
      if Body(subsections[0].lines) == [] {
        EmptyCategoryBack(ls, subsections);
      } else {
        OneCategoryBack(ls, subsections, SubsectionsLines(subsections[1..]) + tail);
      }
    }
  }

  lemma EmptyCategoryBack(ls: seq<NumberedLine>, subsections: seq<Subsection>)
    requires subsections != [] && Body(subsections[0].lines) == []
    requires ReadsBack(ls[|SubsectionLines(subsections[0])|..], subsections[1..])
    ensures ReadsBack(ls, subsections)
  {
    hide AllBlank, NextSubsection, ParseSubsections, TrimBlank;
    assert SubsectionLines(subsections[0]) == [];
    assert ls[0..] == ls;
  }

  // ---- sections ----

  lemma LeadingIsPlain(section: Section)
    requires PlainLines(Texts(section.leadingLines))
    ensures PlainLines(LeadingLines(section))
  {
    hide NoRelease, NoCategory, TrimBlank;
    BodyIsPlain(section.leadingLines);
    EmptyLineIsPlain();
    ConcatPlain([""], Body(section.leadingLines));
  }

  /** The leading lines come out of the lines rendered for them and the blank lines after. */
  lemma LeadingBack(section: Section, ls: seq<NumberedLine>, after: seq<string>)
    requires Texts(ls) == LeadingLines(section) + after && AllBlank(after)
    ensures Body(ls) == Body(section.leadingLines)
  {
    hide TrimBlank, Blank;
    var leading := Body(section.leadingLines);
    TrimmedBody(section.leadingLines);
    EmptyLineIsPlain();
    var before := if leading == [] then [] else [""];
    assert Texts(ls) == before + leading + after;
    BodyOf(ls, before, leading, after);
  }

  lemma SectionBack(section: Section, ls: seq<NumberedLine>, tail: seq<string>)
    requires FormedSection(section) && AllBlank(tail) && NoCategory(tail)
    requires Texts(ls) == LeadingLines(section) + SubsectionsLines(section.subsections) + tail
    ensures CleanSection(ParseSection(section.heading, ls)) == CleanSection(section)
  {
    hide NoCategory, NoRelease, IsReleaseHeading, ReleaseTitle, FormedSubsection, Body, CleanSubsections, ParseSubsections,
         SubsectionsLines, AllBlank, LeadingLines, NextSubsection;
    var n := |LeadingLines(section)|;
    var rest := ls[n..];
    assert Texts(rest) == SubsectionsLines(section.subsections) + tail;
    SubsectionsBack(rest, section.subsections, tail);
    LeadingIsPlain(section);
    assert Texts(ls[..n]) == LeadingLines(section);
    SkipPlain(ls, n, rest);
    var j := NextSubsection(rest);
    assert Texts(ls[..n + j]) == LeadingLines(section) + Texts(rest[..j]);
    LeadingBack(section, ls[..n + j], Texts(rest[..j]));
  }

  lemma {:induction false} NoReleaseInCategories(subsections: seq<Subsection>)
    requires FormedSubsections(subsections)
    ensures NoRelease(SubsectionsLines(subsections))
  {
    hide IsSubsectionHeading, IsReleaseHeading, NoRelease, NoCategory, SubsectionHeading, Body;
    if subsections == [] {
      EmptyLineIsPlain();
    } else {
      var first := subsections[0];
      TailFormed(subsections);
      NoReleaseInCategories(subsections[1..]);
      ConcatPlain(SubsectionLines(first), SubsectionsLines(subsections[1..]));
      NoReleaseInCategory(first);
    }
  }

  lemma HeadingIsOneLine(title: string)
    requires OneLine(title)
    ensures OneLine(SubsectionHeading(title))
  {
  }

  lemma NoReleaseInCategory(s: Subsection)
    requires FormedSubsection(s)
    ensures NoRelease(SubsectionLines(s))
  {
    hide IsSubsectionHeading, IsReleaseHeading, SubsectionHeading, Body, IsTitle;
    var heading := SubsectionHeading(s.title);
    TitleRoundTrip(s.title);
    HeadingIsOneLine(s.title);
    BodyIsPlain(s.lines);
    EmptyLineIsPlain();
    assert !IsReleaseHeading([""][0]);
    ConcatPlain(["", heading, ""], Body(s.lines));
  }

  ghost predicate SectionsReadBack(ls: seq<NumberedLine>, sections: seq<Section>) {
    CleanSections(ParseSections(ls)) == CleanSections(sections)
  }

  /** What a section adds below its heading, and the blank lines after it. */
  ghost function Below(section: Section): seq<string> {
    LeadingLines(section) + SubsectionsLines(section.subsections)
  }

  lemma BelowIsPlain(section: Section)
    requires FormedSection(section)
    ensures NoRelease(Below(section))
  {
    hide IsReleaseHeading, NoCategory, Body, SubsectionsLines, NoRelease, FormedSubsection;
    NoReleaseInCategories(section.subsections);
    BodyIsPlain(section.leadingLines);
    EmptyLineIsPlain();
    ConcatPlain([""], Body(section.leadingLines));
    ConcatPlain(LeadingLines(section), SubsectionsLines(section.subsections));
  }

  lemma OneSectionBack(ls: seq<NumberedLine>, section: Section, tail: seq<string>, sections: seq<Section>, rest: seq<NumberedLine>)
    requires FormedSection(section) && AllBlank(tail) && PlainLines(tail)
    requires ls != [] && ls[0].text == section.heading
    requires 1 + |Below(section)| + |tail| <= |ls| && rest == ls[1 + |Below(section)| + |tail|..]
    requires rest != [] ==> IsReleaseHeading(rest[0].text)
    requires Texts(ls)[1..1 + |Below(section)| + |tail|] == Below(section) + tail
    requires SectionsReadBack(rest, sections)
    ensures SectionsReadBack(ls, [section] + sections)
  {
    hide IsReleaseHeading, IsSubsectionHeading, Below, FormedSection, CleanSection, ParseSection, AllBlank, NoCategory;
    var n := |Below(section)| + |tail|;
    var body := ls[1..][..n];
    assert body == ls[1..1 + n];
    SliceTexts(ls, 1, 1 + n);
    BelowIsPlain(section);
    ConcatPlain(Below(section), tail);
    assert forall i :: 0 <= i < n ==> Texts(body)[i] == ls[1..][i].text;
    assert ls[1..][n..] == rest;
    assert n < |ls[1..]| ==> ls[1..][n] == rest[0];
    NextReleaseIs(ls[1..], n);
    BodyBack(section, body, tail);
    assert ParseSections(ls) == [ParseSection(section.heading, body)] + ParseSections(rest);
    ConsClean(ParseSection(section.heading, body), ParseSections(rest));
    ConsClean(section, sections);
  }

  lemma BodyBack(section: Section, ls: seq<NumberedLine>, tail: seq<string>)
    requires FormedSection(section) && AllBlank(tail) && NoCategory(tail) && Texts(ls) == Below(section) + tail
    ensures CleanSection(ParseSection(section.heading, ls)) == CleanSection(section)
  {
    hide FormedSection, CleanSection, ParseSection, AllBlank, NoCategory, LeadingLines, SubsectionsLines;
    SectionBack(section, ls, tail);
  }

  lemma ConsClean(first: Section, rest: seq<Section>)
    ensures CleanSections([first] + rest) == [CleanSection(first)] + CleanSections(rest)
  {
    hide CleanSection;
  }

  /** The sections with an empty line between them. */
  ghost function TightLines(sections: seq<Section>): seq<string> {
    if sections == [] then []
    else if |sections| == 1 then SectionLines(sections[0])
    else SectionLines(sections[0]) + [""] + TightLines(sections[1..])
  }

  lemma SectionLinesParts(section: Section)
    ensures SectionLines(section) == [section.heading] + Below(section)
  {
    hide LeadingLines, SubsectionsLines;
  }

  lemma TightStartsWithHeading(sections: seq<Section>)
    requires sections != []
    ensures TightLines(sections) != [] && TightLines(sections)[0] == sections[0].heading
  {
    hide LeadingLines, SubsectionsLines;
  }

  lemma TightUnfolds(sections: seq<Section>)
    requires sections != []
    ensures TightLines(sections)
         == SectionLines(sections[0]) + (if |sections| == 1 then [] else [""]) + TightLines(sections[1..])
  {
    hide SectionLines;
  }

  lemma Regroup(heading: string, below: seq<string>, tail: seq<string>, rest: seq<string>)
    ensures [heading] + below + tail + rest == [heading] + (below + tail) + rest
  {
  }

  lemma TightParts(sections: seq<Section>)
    requires sections != []
    ensures var tail := if |sections| == 1 then [] else [""];
            TightLines(sections) == [sections[0].heading] + (Below(sections[0]) + tail) + TightLines(sections[1..])
  {
    hide *;
    SectionLinesParts(sections[0]);
    TightUnfolds(sections);
    Regroup(sections[0].heading, Below(sections[0]), if |sections| == 1 then [] else [""], TightLines(sections[1..]));
  }

  lemma {:induction false} SectionsBack(ls: seq<NumberedLine>, sections: seq<Section>)
    requires FormedSections(sections) && Texts(ls) == TightLines(sections)
    ensures SectionsReadBack(ls, sections)
    decreases |sections|
  {
    hide FormedSection, SectionLines, Below, IsReleaseHeading, SectionsReadBack, NoCategory, NoRelease, AllBlank;
    if sections == [] {
      NothingParsed();
      assert ls == [];
      NothingReadsBack();
    } else {
      var first := sections[0];
      assert FormedSection(first);
      assert [first] + sections[1..] == sections;
      SectionLinesParts(first);
      EmptyLineIsPlain();
      var tail := if |sections| == 1 then [] else [""];
      var k := 1 + |Below(first)| + |tail|;
      TightParts(sections);
      var rest := ls[k..];
      TailSections(sections);
      assert Texts(rest) == TightLines(sections[1..]);
      SectionsBack(rest, sections[1..]);
      if rest != [] {
        assert |sections| > 1;
        TightStartsWithHeading(sections[1..]);
        assert Texts(rest)[0] == rest[0].text == sections[1..][0].heading;
        HeadingOf(sections[1]);
      }
      assert Texts(ls)[0] == ls[0].text;
      assert Texts(ls)[1..k] == Below(first) + tail;
      OneSectionBack(ls, first, tail, sections[1..], rest);
    }
  }

  lemma NothingReadsBack()
    ensures SectionsReadBack([], [])
  {
  }

  lemma HeadingOf(section: Section)
    requires FormedSection(section)
    ensures IsReleaseHeading(section.heading)
  {
  }

  lemma TailSections(sections: seq<Section>)
    requires FormedSections(sections) && sections != []
    ensures FormedSections(sections[1..]) && (|sections| > 1 ==> FormedSection(sections[1]))
  {
    hide FormedSection;
    forall k | 0 <= k < |sections[1..]| ensures FormedSection(sections[1..][k]) {
      assert FormedSection(sections[k + 1]);
    }
  }

  // ---- the end of the output ----

  lemma {:induction false} CategoriesEnd(subsections: seq<Subsection>)
    ensures var lines := SubsectionsLines(subsections); lines != [] ==> !Blank(lines[|lines| - 1])
  {
    hide Blank, TrimBlank, SubsectionHeading;
    if subsections != [] {
      CategoriesEnd(subsections[1..]);
      var first := SubsectionLines(subsections[0]);
      TrimmedBody(subsections[0].lines);
      var body := Body(subsections[0].lines);
      assert first != [] ==> first[|first| - 1] == body[|body| - 1];
    }
  }

  lemma SectionEnd(section: Section)
    requires FormedSection(section)
    ensures !Blank(SectionLines(section)[|SectionLines(section)| - 1])
  {
    hide Blank, TrimBlank, SubsectionsLines, IsReleaseHeading, PlainLines, FormedSubsection, ReleaseTitle;
    CategoriesEnd(section.subsections);
    TrimmedBody(section.leadingLines);
    HeadingIsNotBlank(section.heading);
    var categories := SubsectionsLines(section.subsections);
    assert SectionLines(section) == ([section.heading] + LeadingLines(section)) + categories;
    if categories == [] {
      var body := Body(section.leadingLines);
      assert body != [] ==> LeadingLines(section)[|body|] == body[|body| - 1];
    }
  }

  lemma {:induction false} TightEnd(sections: seq<Section>)
    requires sections != [] && FormedSections(sections)
    ensures TightLines(sections) != [] && !Blank(TightLines(sections)[|TightLines(sections)| - 1])
    ensures SectionsLines(sections) == TightLines(sections) + [""]
  {
    hide Blank, SectionLines, FormedSection;
    assert FormedSection(sections[0]);
    if |sections| == 1 {
      SectionEnd(sections[0]);
      SectionLinesParts(sections[0]);
      NothingRendered();
      assert sections[1..] == [];
    } else {
      TailSections(sections);
      TightEnd(sections[1..]);
    }
  }

  lemma EndsThere(lines: seq<string>)
    requires lines != [] ==> !Blank(lines[|lines| - 1])
    ensures DropEmpty(lines + [""]) == lines && DropEmpty(lines) == lines
  {
    hide IsSpace;
    assert (lines + [""])[..|lines|] == lines;
    assert Blank("");
  }

  /** The lines of the output. */
  ghost function OutputLines(document: Document): seq<string> {
    DropEmpty(PrefixLines(document) + SectionsLines(document.sections))
  }

  lemma OutputIs(document: Document)
    requires Formed(document)
    ensures OutputLines(document)
         == if document.sections == [] then Body(document.prefixLines)
            else PrefixLines(document) + TightLines(document.sections)
  {
    hide TightLines, SectionsLines, FormedSections, NoRelease, Blank, TrimBlank, DropEmpty;
    TrimmedBody(document.prefixLines);
    if document.sections == [] {
      NothingRendered();
      assert PrefixLines(document) + [] == PrefixLines(document);
      if Body(document.prefixLines) == [] {
        NothingDropped();
      } else {
        EndsThere(Body(document.prefixLines));
      }
    } else {
      TightEnd(document.sections);
      var all := PrefixLines(document) + TightLines(document.sections);
      assert PrefixLines(document) + SectionsLines(document.sections) == all + [""];
      EndsThere(all);
    }
  }

  lemma NothingDropped()
    ensures DropEmpty([]) == []
  {
  }

  // ---- the round trip ----

  lemma PrefixBack(document: Document, ls: seq<NumberedLine>)
    requires Texts(ls) == Body(document.prefixLines) || Texts(ls) == PrefixLines(document)
    requires NoRelease(Texts(document.prefixLines))
    ensures Body(ls) == Body(document.prefixLines) && NoRelease(Texts(ls))
  {
    hide NoRelease, Blank, TrimBlank;
    var prefix := Body(document.prefixLines);
    BodyIsPlain(document.prefixLines);
    TrimmedBody(document.prefixLines);
    EmptyLineIsPlain();
    ConcatPlain(prefix, [""]);
    var after := if Texts(ls) == prefix then [] else [""];
    assert Texts(ls) == [] + prefix + after;
    BodyOf(ls, [], prefix, after);
  }

  lemma OutputBack(document: Document, ls: seq<NumberedLine>)
    requires Formed(document)
    requires Texts(ls) == if document.sections == [] then Body(document.prefixLines)
                          else PrefixLines(document) + TightLines(document.sections)
    ensures Clean(ParseLines(ls)) == Clean(document)
  {
    hide TightLines, NoRelease, Body, PrefixLines, FormedSections, CleanSections, ParseLines;
    var lead := if document.sections == [] then Body(document.prefixLines) else PrefixLines(document);
    var n := |lead|;
    assert Texts(ls[..n]) == lead;
    PrefixBack(document, ls[..n]);
    if document.sections == [] {
      assert ls[n..] == [];
      NothingReadsBack();
    } else {
      assert Texts(ls[n..]) == TightLines(document.sections);
      FirstHeadingRead(document.sections, ls[n..]);
      SectionsBack(ls[n..], document.sections);
    }
    ParsedAt(ls, n);
  }

  lemma ParsedAt(ls: seq<NumberedLine>, n: nat)
    requires n <= |ls| && NoRelease(Texts(ls[..n])) && (n < |ls| ==> IsReleaseHeading(ls[n..][0].text))
    ensures ParseLines(ls) == Document(ls[..n], ParseSections(ls[n..]))
  {
    hide IsReleaseHeading, NextRelease, ParseSections;
    assert forall i :: 0 <= i < n ==> Texts(ls[..n])[i] == ls[i].text;
    NextReleaseIs(ls, n);
  }

  lemma FirstHeadingRead(sections: seq<Section>, ls: seq<NumberedLine>)
    requires FormedSections(sections) && sections != [] && Texts(ls) == TightLines(sections)
    ensures ls != [] && IsReleaseHeading(ls[0].text)
  {
    hide TightLines, IsReleaseHeading, FormedSections;
    TightStartsWithHeading(sections);
    FirstHeading(sections);
    assert ls[0].text == Texts(ls)[0];
  }

  lemma FirstHeading(sections: seq<Section>)
    requires FormedSections(sections) && sections != []
    ensures IsReleaseHeading(sections[0].heading)
  {
    assert FormedSection(sections[0]);
  }

  /** What is rendered is read back as the same document, up to blank lines, line numbers and empty categories. */
  lemma RenderedLinesReadBack(document: Document)
    requires Formed(document)
    ensures Clean(ParseLines(Numbered(OutputLines(document)))) == Clean(document)
  {
    hide OutputLines, TightLines, Clean, Formed, ParseLines, Body;
    OutputIs(document);
    var ls := Numbered(OutputLines(document));
    assert Texts(ls) == OutputLines(document);
    OutputBack(document, ls);
  }

  lemma OutputIsLines(document: Document)
    requires Formed(document)
    ensures OneLines(OutputLines(document))
  {
    hide OutputLines, TightLines, FormedSections, NoRelease, Body, OneLines;
    OutputIs(document);
    BodyIsPlain(document.prefixLines);
    EmptyLineIsPlain();
    ConcatPlain(Body(document.prefixLines), [""]);
    LinesOfPlain(Body(document.prefixLines));
    LinesOfPlain(Body(document.prefixLines) + [""]);
    NoLines();
    TightIsLines(document.sections);
    ConcatLines(PrefixLines(document), TightLines(document.sections));
  }

  lemma NoLines()
    ensures OneLines([]) && OneLines([""])
  {
  }

  lemma LinesOfPlain(texts: seq<string>)
    requires NoRelease(texts)
    ensures OneLines(texts)
  {
    hide OneLine, IsReleaseHeading;
  }

  lemma ConcatLines(a: seq<string>, b: seq<string>)
    requires OneLines(a) && OneLines(b)
    ensures OneLines(a + b)
  {
    hide OneLine;
    forall k | 0 <= k < |a + b| ensures OneLine((a + b)[k]) {
      assert if k < |a| then OneLine(a[k]) else OneLine(b[k - |a|]);
    }
  }

  lemma SectionIsLines(section: Section)
    requires FormedSection(section)
    ensures OneLines(SectionLines(section))
  {
    hide Below, SectionLines, NoRelease, NoCategory, FormedSubsection;
    SectionLinesParts(section);
    BelowIsPlain(section);
    LinesOfPlain(Below(section));
    ConcatLines([section.heading], Below(section));
  }

  lemma {:induction false} TightIsLines(sections: seq<Section>)
    requires FormedSections(sections)
    ensures OneLines(TightLines(sections))
  {
    hide SectionLines, FormedSection, OneLines;
    NoLines();
    if sections != [] {
      assert FormedSection(sections[0]);
      SectionIsLines(sections[0]);
      TailSections(sections);
      TightIsLines(sections[1..]);
      ConcatLines(SectionLines(sections[0]), [""]);
      ConcatLines(SectionLines(sections[0]) + [""], TightLines(sections[1..]));
    }
  }

  /** Rendering a document and parsing the text gives the document back, up to blank lines, line numbers and empty categories. */
  lemma RenderRoundTrip(document: Document)
    requires Formed(document)
    ensures Clean(Parse(Render(document))) == Clean(document)
  {
    hide OutputLines, Clean, Formed, ParseLines, Closed, ContentLines;
    var lines := OutputLines(document);
    OutputIsLines(document);
    RenderIsClosed(document);
    LinesRoundTrip(lines);
    RenderedLinesReadBack(document);
    if lines == [] {
      assert Numbered([]) == [];
      EmptyReadsBack();
    }
  }

  lemma RenderIsClosed(document: Document)
    ensures Render(document) == Closed(OutputLines(document))
  {
  }

  lemma EmptyReadsBack()
    ensures Clean(ParseLines(Numbered([""]))) == Clean(ParseLines([]))
  {
    hide IsReleaseHeading;
    BlankIsPlain();
    var ls := Numbered([""]);
    NextReleaseIs(ls, 1);
    assert ls[..1] == ls && ls[1..] == [];
    assert Texts(ls) == [""] && Blank("");
    assert TrimBlank([""]) == [] == TrimBlank([]);
    assert Texts([]) == [];
  }

  // ---- rendering sees no more than the clean document ----

  lemma CleanBody(lines: seq<NumberedLine>)
    ensures Body(CleanLines(lines)) == Body(lines)
  {
    hide TrimBlank, Blank, AllBlank;
    TrimmedBody(lines);
    EmptyLineIsPlain();
    assert Texts(CleanLines(lines)) == [] + Body(lines) + [];
    BodyOf(CleanLines(lines), [], Body(lines), []);
  }

  lemma {:induction false} CleanSubsectionsLines(subsections: seq<Subsection>)
    ensures SubsectionsLines(CleanSubsections(subsections)) == SubsectionsLines(subsections)
  {
    hide Body, CleanLines, SubsectionHeading;
    if subsections != [] {
      var first, rest := subsections[0], CleanSubsections(subsections[1..]);
      CleanSubsectionsLines(subsections[1..]);
      CleanBody(first.lines);
      var clean := Subsection(first.title, CleanLines(first.lines));
      assert SubsectionLines(clean) == SubsectionLines(first);
      assert ([clean] + rest)[1..] == rest;
      assert [] + rest == rest;
    }
  }

  lemma CleanSectionLines(section: Section)
    ensures SectionLines(CleanSection(section)) == SectionLines(section)
  {
    hide Body, CleanLines, SubsectionsLines, CleanSubsections;
    CleanBody(section.leadingLines);
    CleanSubsectionsLines(section.subsections);
  }

  lemma {:induction false} CleanSectionsLines(sections: seq<Section>)
    ensures SectionsLines(CleanSections(sections)) == SectionsLines(sections)
  {
    hide SectionLines, CleanSection;
    if sections == [] {
      assert CleanSections(sections) == [];
    } else {
      CleanSectionLines(sections[0]);
      CleanSectionsLines(sections[1..]);
      assert CleanSections(sections)[1..] == CleanSections(sections[1..]);
    }
  }

  lemma RenderClean(document: Document)
    ensures Render(Clean(document)) == Render(document)
  {
    hide Body, CleanLines, CleanSections, SectionsLines, Closed, DropEmpty;
    CleanBody(document.prefixLines);
    CleanSectionsLines(document.sections);
  }

  /** Reformatting: parsing a changelog and rendering it. Doing so a second time changes nothing. */
  lemma ReformatTwice(content: string)
    ensures var once := Render(Parse(content)); Render(Parse(once)) == once
  {
    hide Render, ParseLines, Clean, Formed, ContentLines, OneLines;
    var lines := Numbered(ContentLines(content));
    ContentLinesAreLines(content);
    assert Texts(lines) == ContentLines(content);
    ParsedIsFormed(lines);
    var document := Parse(content);
    RenderRoundTrip(document);
    RenderClean(document);
    RenderClean(Parse(Render(document)));
  }
}
