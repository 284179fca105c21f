/** The changelog as a document: parsing it from lines, rendering it to lines. */
module ChangelogDocument {
  import opened ChangelogText

  datatype NumberedLine = NumberedLine(text: string, lineNumber: nat)

  datatype Subsection = Subsection(title: string, lines: seq<NumberedLine>)

  datatype Section = Section(heading: string, title: string, leadingLines: seq<NumberedLine>, subsections: seq<Subsection>)

  datatype Document = Document(prefixLines: seq<NumberedLine>, sections: seq<Section>)

  function Texts(lines: seq<NumberedLine>): (r: seq<string>)
    ensures |r| == |lines|
    ensures forall k :: 0 <= k < |r| ==> r[k] == lines[k].text
  {
    seq(|lines|, k requires 0 <= k < |lines| => lines[k].text)
  }

  /** Lines that stand for no line of the file. */
  function Synthetic(texts: seq<string>): (r: seq<NumberedLine>)
    ensures |r| == |texts|
    ensures forall k :: 0 <= k < |r| ==> r[k] == NumberedLine(texts[k], 0)
  {
    seq(|texts|, k requires 0 <= k < |texts| => NumberedLine(texts[k], 0))
  }

  function Numbered(texts: seq<string>): (r: seq<NumberedLine>)
    ensures |r| == |texts|
    ensures forall k :: 0 <= k < |r| ==> r[k] == NumberedLine(texts[k], k + 1)
  {
    seq(|texts|, k requires 0 <= k < |texts| => NumberedLine(texts[k], k + 1))
  }

  // ---- parsing ----

  function NextRelease(lines: seq<NumberedLine>): (k: nat)
    ensures k <= |lines| && (k < |lines| ==> IsReleaseHeading(lines[k].text))
    ensures forall i :: 0 <= i < k ==> !IsReleaseHeading(lines[i].text)
  {
    if lines == [] || IsReleaseHeading(lines[0].text) then 0 else 1 + NextRelease(lines[1..])
  }

  function NextSubsection(lines: seq<NumberedLine>): (k: nat)
    ensures k <= |lines| && (k < |lines| ==> IsSubsectionHeading(lines[k].text))
    ensures forall i :: 0 <= i < k ==> !IsSubsectionHeading(lines[i].text)
  {
    if lines == [] || IsSubsectionHeading(lines[0].text) then 0 else 1 + NextSubsection(lines[1..])
  }

  /** The categories, the first line being a category heading. */
  function ParseSubsections(lines: seq<NumberedLine>): seq<Subsection> {
    if lines == [] then []
    else
      var k := NextSubsection(lines[1..]);
      [Subsection(SubsectionTitle(lines[0].text), lines[1..][..k])] + ParseSubsections(lines[1..][k..])
  }

  function ParseSection(heading: string, body: seq<NumberedLine>): Section {
    var k := NextSubsection(body);
    Section(heading, ReleaseTitle(heading), body[..k], ParseSubsections(body[k..]))
  }

  /** The releases, the first line being a release heading. */
  function ParseSections(lines: seq<NumberedLine>): seq<Section> {
    if lines == [] then []
    else
      var k := NextRelease(lines[1..]);
      [ParseSection(lines[0].text, lines[1..][..k])] + ParseSections(lines[1..][k..])
  }

  function ParseLines(lines: seq<NumberedLine>): Document {
    var k := NextRelease(lines);
    Document(lines[..k], ParseSections(lines[k..]))
  }

  function Parse(content: string): Document {
    ParseLines(Numbered(ContentLines(content)))
  }

  lemma {:induction false} NextReleaseIs(lines: seq<NumberedLine>, k: nat)
    requires k <= |lines| && (k < |lines| ==> IsReleaseHeading(lines[k].text))
    requires forall i :: 0 <= i < k ==> !IsReleaseHeading(lines[i].text)
    ensures NextRelease(lines) == k
  {
  }

  lemma {:induction false} NextSubsectionIs(lines: seq<NumberedLine>, k: nat)
    requires k <= |lines| && (k < |lines| ==> IsSubsectionHeading(lines[k].text))
    requires forall i :: 0 <= i < k ==> !IsSubsectionHeading(lines[i].text)
    ensures NextSubsection(lines) == k
  {
  }

  /** The lines up to the next release heading. */
  method TakeBody(lines: seq<NumberedLine>, from: nat) returns (taken: seq<NumberedLine>, index: nat)
    requires from <= |lines|
    ensures index == from + NextRelease(lines[from..]) && taken == lines[from..index]
  {
    taken, index := [], from;
    while index < |lines| && !IsReleaseHeading(lines[index].text)
      invariant from <= index <= |lines| && taken == lines[from..index]
      invariant forall i :: from <= i < index ==> !IsReleaseHeading(lines[i].text)
    {
      taken := taken + [lines[index]];
      index := index + 1;
    }
    NextReleaseIs(lines[from..], index - from);
  }

  /** The lines up to the next category heading. */
  method TakeLines(lines: seq<NumberedLine>, from: nat) returns (taken: seq<NumberedLine>, index: nat)
    requires from <= |lines|
    ensures index == from + NextSubsection(lines[from..]) && taken == lines[from..index]
  {
    taken, index := [], from;
    while index < |lines| && !IsSubsectionHeading(lines[index].text)
      invariant from <= index <= |lines| && taken == lines[from..index]
      invariant forall i :: from <= i < index ==> !IsSubsectionHeading(lines[i].text)
    {
      taken := taken + [lines[index]];
      index := index + 1;
    }
    NextSubsectionIs(lines[from..], index - from);
  }

  lemma SubsectionStep(lines: seq<NumberedLine>, index: nat, next: nat)
    requires index < |lines|
    requires next == index + 1 + NextSubsection(lines[index + 1..])
    ensures ParseSubsections(lines[index..])
         == [Subsection(SubsectionTitle(lines[index].text), lines[index + 1..next])] + ParseSubsections(lines[next..])
  {
    hide SubsectionTitle, IsSubsectionHeading, NextSubsection;
    var rest := lines[index..];
    assert rest[1..] == lines[index + 1..];
    assert rest[1..][..next - index - 1] == lines[index + 1..next];
    assert rest[1..][next - index - 1..] == lines[next..];
  }

  lemma SectionStep(lines: seq<NumberedLine>, index: nat, next: nat)
    requires index < |lines|
    requires next == index + 1 + NextRelease(lines[index + 1..])
    ensures ParseSections(lines[index..])
         == [ParseSection(lines[index].text, lines[index + 1..next])] + ParseSections(lines[next..])
  {
    hide ParseSection, IsReleaseHeading, NextRelease;
    var rest := lines[index..];
    assert rest[1..] == lines[index + 1..];
    assert rest[1..][..next - index - 1] == lines[index + 1..next];
    assert rest[1..][next - index - 1..] == lines[next..];
  }

  lemma NothingParsed()
    ensures ParseSubsections([]) == [] && ParseSections([]) == []
  {
  }

  method ParseCategories(lines: seq<NumberedLine>, from: nat) returns (subsections: seq<Subsection>)
    requires from <= |lines|
    ensures subsections == ParseSubsections(lines[from..])
  {
    hide *;
    NothingParsed();
    subsections := [];
    var index := from;
    while index < |lines|
      invariant from <= index <= |lines|
      invariant subsections + ParseSubsections(lines[index..]) == ParseSubsections(lines[from..])
    {
      var body, next := TakeLines(lines, index + 1);
      SubsectionStep(lines, index, next);
      subsections := subsections + [Subsection(SubsectionTitle(lines[index].text), body)];
      index := next;
    }
    assert lines[index..] == [];
  }

  method ParseReleaseSection(heading: string, bodyLines: seq<NumberedLine>) returns (section: Section)
    ensures section == ParseSection(heading, bodyLines)
  {
    var leading, index := TakeLines(bodyLines, 0);
    assert bodyLines[0..] == bodyLines;
    var subsections := ParseCategories(bodyLines, index);
    section := Section(heading, ReleaseTitle(heading), leading, subsections);
  }

  method ParseReleases(lines: seq<NumberedLine>, from: nat) returns (sections: seq<Section>)
    requires from <= |lines|
    ensures sections == ParseSections(lines[from..])
  {
    hide *;
    NothingParsed();
    sections := [];
    var index := from;
    while index < |lines|
      invariant from <= index <= |lines|
      invariant sections + ParseSections(lines[index..]) == ParseSections(lines[from..])
    {
      var body, next := TakeBody(lines, index + 1);
      SectionStep(lines, index, next);
      var section := ParseReleaseSection(lines[index].text, body);
      sections := sections + [section];
      index := next;
    }
    assert lines[index..] == [];
  }

  method ParseChangelog(content: string) returns (document: Document)
    ensures document == Parse(content)
  {
    var numberedLines := Numbered(ContentLines(content));
    var prefix, index := TakeBody(numberedLines, 0);
    assert numberedLines[0..] == numberedLines;
    var sections := ParseReleases(numberedLines, index);
    document := Document(prefix, sections);
  }

  // ---- rendering ----

  function Body(lines: seq<NumberedLine>): seq<string> {
    TrimBlank(Texts(lines))
  }

  /** What one category adds to the output; nothing if it has no lines. */
  function SubsectionLines(subsection: Subsection): seq<string> {
    var lines := Body(subsection.lines);
    if lines == [] then [] else ["", SubsectionHeading(subsection.title), ""] + lines
  }

  function SubsectionsLines(subsections: seq<Subsection>): seq<string> {
    if subsections == [] then []
    else SubsectionLines(subsections[0]) + SubsectionsLines(subsections[1..])
  }

  function LeadingLines(section: Section): seq<string> {
    var leading := Body(section.leadingLines);
    if leading == [] then [] else [""] + leading
  }

  function SectionLines(section: Section): seq<string> {
    [section.heading] + LeadingLines(section) + SubsectionsLines(section.subsections)
  }

  /** The sections, each followed by an empty line. */
  function SectionsLines(sections: seq<Section>): seq<string> {
    if sections == [] then [] else SectionLines(sections[0]) + [""] + SectionsLines(sections[1..])
  }

  function PrefixLines(document: Document): seq<string> {
    var prefix := Body(document.prefixLines);
    if prefix == [] then [] else prefix + [""]
  }

  function DropEmpty(lines: seq<string>): seq<string> {
    if lines != [] && lines[|lines| - 1] == "" then DropEmpty(lines[..|lines| - 1]) else lines
  }

  function Render(document: Document): string {
    Closed(DropEmpty(PrefixLines(document) + SectionsLines(document.sections)))
  }

  lemma {:induction false} SnocSubsections(a: seq<Subsection>, s: Subsection)
    ensures SubsectionsLines(a + [s]) == SubsectionsLines(a) + SubsectionLines(s)
  {
    hide SubsectionLines;
    if a == [] {
      assert (a + [s])[1..] == [];
    } else {
      assert (a + [s])[1..] == a[1..] + [s];
      SnocSubsections(a[1..], s);
    }
  }

  lemma {:induction false} SnocSections(a: seq<Section>, s: Section)
    ensures SectionsLines(a + [s]) == SectionsLines(a) + SectionLines(s) + [""]
  {
    hide SectionLines;
    if a == [] {
      assert (a + [s])[1..] == [];
    } else {
      assert (a + [s])[1..] == a[1..] + [s];
      SnocSections(a[1..], s);
    }
  }

  method RenderSubsection(output0: seq<string>, subsection: Subsection) returns (output: seq<string>)
    ensures output == output0 + SubsectionLines(subsection)
  {
    output := output0;
    var lines := TrimBlankLines(Texts(subsection.lines));
    if |lines| == 0 {
      return;
    }
    output := output + (["", SubsectionHeading(subsection.title), ""] + lines);
  }

  lemma NothingRendered()
    ensures SubsectionsLines([]) == [] && SectionsLines([]) == []
  {
  }

  method RenderSubsections(output0: seq<string>, subsections: seq<Subsection>) returns (output: seq<string>)
    ensures output == output0 + SubsectionsLines(subsections)
  {
    hide *;
    NothingRendered();
    output := output0;
    for i := 0 to |subsections|
      invariant output == output0 + SubsectionsLines(subsections[..i])
    {
      assert subsections[..i + 1] == subsections[..i] + [subsections[i]];
      SnocSubsections(subsections[..i], subsections[i]);
      output := RenderSubsection(output, subsections[i]);
    }
    assert subsections[..|subsections|] == subsections;
  }

  method RenderLeading(output0: seq<string>, section: Section) returns (output: seq<string>)
    ensures output == output0 + LeadingLines(section)
  {
    output := output0;
    var leading := TrimBlankLines(Texts(section.leadingLines));
    if |leading| > 0 {
      output := output + ([""] + leading);
    }
  }

  method RenderSection(output0: seq<string>, section: Section) returns (output: seq<string>)
    ensures output == output0 + SectionLines(section) + [""]
  {
    hide LeadingLines, SubsectionsLines;
    output := RenderLeading(output0 + [section.heading], section);
    output := RenderSubsections(output, section.subsections);
    assert output == output0 + SectionLines(section);
    output := output + [""];
  }

  method RenderPrefix(document: Document) returns (output: seq<string>)
    ensures output == PrefixLines(document)
  {
    var prefix := TrimBlankLines(Texts(document.prefixLines));
    output := [];
    if |prefix| > 0 {
      output := prefix + [""];
    }
  }

  method RenderLines(document: Document) returns (output: seq<string>)
    ensures output == PrefixLines(document) + SectionsLines(document.sections)
  {
    hide *;
    NothingRendered();
    output := RenderPrefix(document);
    var sections := document.sections;
    for i := 0 to |sections|
      invariant output == PrefixLines(document) + SectionsLines(sections[..i])
    {
      assert sections[..i + 1] == sections[..i] + [sections[i]];
      SnocSections(sections[..i], sections[i]);
      output := RenderSection(output, sections[i]);
    }
    assert sections[..|sections|] == sections;
  }

  method RenderChangelog(document: Document) returns (content: string)
    ensures content == Render(document)
  {
    var output := RenderLines(document);
    ghost var all := output;
    while |output| > 0 && output[|output| - 1] == ""
      invariant DropEmpty(output) == DropEmpty(all)
    {
      output := output[..|output| - 1];
    }
    content := Closed(output);
  }
}
