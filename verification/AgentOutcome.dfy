/**
 What an always-on agent's text counts as: section extraction from a Markdown
 report, and the typed outcome parsed from it.
*/
module AgentOutcome {
  import opened Wrappers
  import opened Text

  // ----- lines and headings -------------------------------------------------------------

  /** The length of the first line with its line feed. */
  function LineEnd(text: string): (n: nat)
    requires text != ""
    ensures 0 < n <= |text|
  {
    if text[0] == '\n' || |text| == 1 then 1 else 1 + LineEnd(text[1..])
  }

  /** `split_inclusive` at line feeds. */
  function Lines(text: string): seq<string>
    decreases |text|
  {
    if text == "" then [] else [text[..LineEnd(text)]] + Lines(text[LineEnd(text)..])
  }

  function Joined(lines: seq<string>): string {
    if lines == [] then "" else lines[0] + Joined(lines[1..])
  }

  const MARK: string := "## "

  predicate IsHeading(line: string) {
    StartsWith(Trim(line), MARK)
  }

  predicate IsHeadingOf(line: string, name: string) {
    IsHeading(line) && EqIgnoreCase(Trim(line)[|MARK|..], name)
  }

  /** The first line of that kind from `i` on, or the end. */
  function NextLine(lines: seq<string>, kind: string -> bool, i: nat): (j: nat)
    requires i <= |lines|
    ensures i <= j <= |lines| && (j < |lines| ==> kind(lines[j]))
    decreases |lines| - i
  {
    if i == |lines| || kind(lines[i]) then i else NextLine(lines, kind, i + 1)
  }

  function NonBlank(text: string): Option<string> {
    if Trim(text) == "" then None else Some(Trim(text))
  }

  function Heading(): string -> bool {
    line => IsHeading(line)
  }

  function HeadingOf(name: string): string -> bool {
    line => IsHeadingOf(line, name)
  }

  /** The lines between the first wanted line and the next of any kind. */
  function Between(lines: seq<string>, wanted: string -> bool, any: string -> bool): Option<seq<string>> {
    var h := NextLine(lines, wanted, 0);
    if h == |lines| then None else Some(lines[h + 1..NextLine(lines, any, h + 1)])
  }

  function SectionOf(lines: seq<string>, name: string): Option<string> {
    match Between(lines, HeadingOf(name), Heading())
    case None => None
    case Some(body) => NonBlank(Joined(body))
  }

  function Section(report: string, name: string): Option<string> {
    SectionOf(Lines(report), name)
  }

  /** One pass over the lines, keeping the section's start and end as offsets. */
  method MarkdownSection(report: string, name: string) returns (section: Option<string>)
    ensures section == Section(report, name)
  {
    var lines := Lines(report);
    var start: Option<nat>, end: nat, offset: nat := None, |report|, 0;
    ghost var first: nat, last: nat := 0, |lines|;
    JoinedLines(report);
    for i := 0 to |lines|
      invariant offset == Size(lines, i) && end == Size(lines, last) && last == |lines|
      invariant Scan(lines, HeadingOf(name), Heading(), start, first, i)
    {
      var line := lines[i];
      var heading, named := IsHeading(line), IsHeadingOf(line, name);
      assert Heading()(line) == heading && HeadingOf(name)(line) == named;
      if start.Some? && heading {
        end, last := offset, i;
        break;
      }
      SizeGrows(lines, i);
      if named {
        start, first := Some(offset + |line|), i + 1;
      }
      offset := offset + |line|;
    }
    if start.None? {
      return None;
    }
    SliceOfJoined(lines, first, last);
    section := NonBlank(report[start.value..end]);
  }

  /** The number of characters in the first `i` lines. */
  function Size(lines: seq<string>, i: nat): nat
    requires i <= |lines|
  {
    if i == 0 then 0 else Size(lines, i - 1) + |lines[i - 1]|
  }

  /** What is known when line `i` is read: the section starts at line `first`, if it was found. */
  ghost predicate Scan(
      lines: seq<string>, wanted: string -> bool, any: string -> bool, start: Option<nat>, first: nat, i: nat)
  {
    i <= |lines| &&
    match start
    case None => NextLine(lines, wanted, 0) == NextLine(lines, wanted, i)
    case Some(from) =>
      && 0 < first <= i && from == Size(lines, first)
      && NextLine(lines, wanted, 0) == first - 1 && NextLine(lines, any, first) == NextLine(lines, any, i)
  }

  lemma SizeGrows(lines: seq<string>, i: nat)
    requires i < |lines|
    ensures Size(lines, i + 1) == Size(lines, i) + |lines[i]|
  {
  }

  lemma {:induction false} JoinedLines(text: string)
    ensures Joined(Lines(text)) == text && Size(Lines(text), |Lines(text)|) == |text|
    decreases |text|
  {
    if text != "" {
      var rest := text[LineEnd(text)..];
      JoinedLines(rest);
      assert Lines(text)[1..] == Lines(rest);
      SizeIsLength(Lines(text), |Lines(text)|);
      assert Lines(text)[..|Lines(text)|] == Lines(text);
    }
  }

  lemma {:induction false} JoinedAppend(a: seq<string>, b: seq<string>)
    ensures Joined(a + b) == Joined(a) + Joined(b)
  {
    if a == [] {
      assert a + b == b;
    } else {
      assert (a + b)[1..] == a[1..] + b;
      JoinedAppend(a[1..], b);
    }
  }

  lemma {:induction false} SizeIsLength(lines: seq<string>, i: nat)
    requires i <= |lines|
    ensures Size(lines, i) == |Joined(lines[..i])|
  {
    if i > 0 {
      SizeIsLength(lines, i - 1);
      assert lines[..i] == lines[..i - 1] + [lines[i - 1]];
      JoinedAppend(lines[..i - 1], [lines[i - 1]]);
    }
  }

  /** Between the offsets of two lines lie the lines between them. */
  lemma SliceOfJoined(lines: seq<string>, i: nat, j: nat)
    requires i <= j <= |lines|
    ensures Size(lines, i) <= Size(lines, j) <= |Joined(lines)|
    ensures Joined(lines)[Size(lines, i)..Size(lines, j)] == Joined(lines[i..j])
  {
    SizeIsLength(lines, i);
    SizeIsLength(lines, j);
    JoinedAppend(lines[..i], lines[i..j]);
    assert lines[..i] + lines[i..j] == lines[..j];
    JoinedAppend(lines[..j], lines[j..]);
    assert lines[..j] + lines[j..] == lines;
  }

  // ----- rendering --------------------------------------------------------------------------

  datatype Titled = Titled(name: string, body: string)

  /** Empty, or ending in a line feed. */
  predicate LineEnded(text: string) {
    text == "" || text[|text| - 1] == '\n'
  }

  predicate NoneOf(lines: seq<string>, kind: string -> bool) {
    forall line <- lines :: !kind(line)
  }

  predicate NoHeadings(text: string) {
    NoneOf(Lines(text), Heading())
  }

  /** A title its heading line gives back: on one line, not ending in white space. */
  predicate Title(name: string) {
    name != "" && '\n' !in name && !IsWhitespace(name[|name| - 1])
  }

  function HeadingLine(name: string): string {
    "## " + name + "\n"
  }

  function RenderSections(sections: seq<Titled>): string {
    if sections == [] then ""
    else HeadingLine(sections[0].name) + sections[0].body + RenderSections(sections[1..])
  }

  /** Every body is free of headings; all but the last end their last line. */
  predicate Renderable(sections: seq<Titled>) {
    forall i :: 0 <= i < |sections| ==>
      && Title(sections[i].name) && NoHeadings(sections[i].body)
      && (i < |sections| - 1 ==> LineEnded(sections[i].body))
  }

  /** The body of the first section with that name in any case, trimmed; none if it is blank. */
  function Lookup(sections: seq<Titled>, name: string): Option<string> {
    if sections == [] then None
    else if EqIgnoreCase(sections[0].name, name) then NonBlank(sections[0].body)
    else Lookup(sections[1..], name)
  }

  lemma {:induction false} LineEndOfAppend(text: string, rest: string)
    requires text != "" && LineEnded(text)
    ensures LineEnd(text + rest) == LineEnd(text)
    ensures LineEnded(text[LineEnd(text)..])
  {
    if text[0] != '\n' {
      assert (text + rest)[1..] == text[1..] + rest;
      LineEndOfAppend(text[1..], rest);
      assert text[1..][LineEnd(text[1..])..] == text[LineEnd(text)..];
    }
  }

  lemma SplitAppend(text: string, rest: string, n: nat)
    requires n <= |text|
    ensures (text + rest)[..n] == text[..n] && (text + rest)[n..] == text[n..] + rest
  {
  }

  /** A line-ended text and what follows it share no line. */
  lemma {:induction false} LinesAppend(text: string, rest: string)
    requires LineEnded(text)
    ensures Lines(text + rest) == Lines(text) + Lines(rest)
    decreases |text|
  {
    if text == "" {
      assert text + rest == rest;
    } else {
      LineEndOfAppend(text, rest);
      var n := LineEnd(text);
      SplitAppend(text, rest, n);
      LinesAppend(text[n..], rest);
      assert ([text[..n]] + Lines(text[n..])) + Lines(rest) == [text[..n]] + (Lines(text[n..]) + Lines(rest));
    }
  }

  lemma {:induction false} LineEndOfLine(line: string)
    requires '\n' !in line
    ensures LineEnd(line + "\n") == |line| + 1
  {
    if line != "" {
      assert (line + "\n")[1..] == line[1..] + "\n";
      LineEndOfLine(line[1..]);
    }
  }

  lemma HeadingIsOneLine(name: string)
    requires Title(name)
    ensures Lines(HeadingLine(name)) == [HeadingLine(name)] && LineEnded(HeadingLine(name))
  {
    var line := HeadingLine(name);
    LineEndOfLine(MARK + name);
    assert line[..|line|] == line && line[|line|..] == "";
    assert Lines("") == [];
  }

  lemma HeadingIsRead(name: string)
    requires Title(name)
    ensures IsHeading(HeadingLine(name)) && Trim(HeadingLine(name))[|MARK|..] == name
  {
    var line, shown := HeadingLine(name), MARK + name;
    assert TrimStart(line) == line;
    assert line[..|line| - 1] == shown;
    assert shown[|shown| - 1] == name[|name| - 1];
    assert TrimEnd(line) == TrimEnd(shown) == shown;
    assert shown[|MARK|..] == name;
  }

  lemma {:induction false} NextShifts(a: seq<string>, b: seq<string>, kind: string -> bool, i: nat)
    requires i <= |b|
    ensures NextLine(a + b, kind, |a| + i) == |a| + NextLine(b, kind, i)
    decreases |b| - i
  {
    if i < |b| {
      assert (a + b)[|a| + i] == b[i];
      NextShifts(a, b, kind, i + 1);
    }
  }

  lemma {:induction false} NextSkips(a: seq<string>, b: seq<string>, kind: string -> bool, i: nat)
    requires i <= |a| && (forall k :: i <= k < |a| ==> !kind(a[k]))
    ensures NextLine(a + b, kind, i) == |a| + NextLine(b, kind, 0)
    decreases |a| - i
  {
    if i < |a| {
      assert (a + b)[i] == a[i];
      NextSkips(a, b, kind, i + 1);
    } else {
      NextShifts(a, b, kind, 0);
    }
  }

  /** Lines before the wanted one do not matter. */
  lemma BetweenBehind(a: seq<string>, b: seq<string>, wanted: string -> bool, any: string -> bool)
    requires NoneOf(a, wanted)
    ensures Between(a + b, wanted, any) == Between(b, wanted, any)
  {
    assert forall k :: 0 <= k < |a| ==> a[k] in a;
    NextSkips(a, b, wanted, 0);
    var h := NextLine(b, wanted, 0);
    if h < |b| {
      NextShifts(a, b, any, h + 1);
      SliceBehind(a, b, h + 1, NextLine(b, any, h + 1));
    }
  }

  lemma SectionBehind(a: seq<string>, b: seq<string>, name: string)
    requires NoneOf(a, HeadingOf(name))
    ensures SectionOf(a + b, name) == SectionOf(b, name)
  {
    BetweenBehind(a, b, HeadingOf(name), Heading());
  }

  lemma SliceBehind(a: seq<string>, b: seq<string>, i: nat, j: nat)
    requires i <= j <= |b|
    ensures (a + b)[|a| + i..|a| + j] == b[i..j]
  {
  }

  lemma BetweenInFront(line: string, body: seq<string>, rest: seq<string>, wanted: string -> bool, any: string -> bool)
    requires wanted(line) && NoneOf(body, any) && (rest == [] || any(rest[0]))
    ensures Between([line] + body + rest, wanted, any) == Some(body)
  {
    var front := [line] + body;
    assert forall k :: 1 <= k < |front| ==> front[k] in body;
    NextSkips(front, rest, any, 1);
    assert NextLine(rest, any, 0) == 0;
    assert (front + rest)[0] == line && (front + rest)[1..|front|] == body;
  }

  /** The wanted heading in front: its body runs to the next heading. */
  lemma SectionInFront(line: string, body: seq<string>, rest: seq<string>, name: string)
    requires IsHeadingOf(line, name) && NoneOf(body, Heading())
    requires rest == [] || IsHeading(rest[0])
    ensures SectionOf([line] + body + rest, name) == NonBlank(Joined(body))
  {
    BetweenInFront(line, body, rest, HeadingOf(name), Heading());
  }

  lemma LinesOfThree(a: string, b: string, c: string)
    requires LineEnded(a) && (LineEnded(b) || c == "")
    ensures Lines(a + b + c) == Lines(a) + Lines(b) + Lines(c)
  {
    assert a + b + c == a + (b + c);
    LinesAppend(a, b + c);
    if c == "" {
      assert b + c == b && Lines(c) == [];
    } else {
      LinesAppend(b, c);
    }
  }

  lemma RenderedLines(sections: seq<Titled>)
    requires sections != [] && Renderable(sections)
    ensures
      Lines(RenderSections(sections))
        == [HeadingLine(sections[0].name)] + Lines(sections[0].body) + Lines(RenderSections(sections[1..]))
    ensures Renderable(sections[1..])
  {
    HeadingIsOneLine(sections[0].name);
    LinesOfThree(HeadingLine(sections[0].name), sections[0].body, RenderSections(sections[1..]));
    assert forall i :: 0 <= i < |sections[1..]| ==> sections[1..][i] == sections[i + 1];
  }

  lemma {:induction false} SectionOfRendered(sections: seq<Titled>, name: string)
    requires Renderable(sections)
    ensures Section(RenderSections(sections), name) == Lookup(sections, name)
    decreases |sections|
  {
    if sections != [] {
      var line, body, rest := HeadingLine(sections[0].name), Lines(sections[0].body), Lines(RenderSections(sections[1..]));
      RenderedLines(sections);
      HeadingIsRead(sections[0].name);
      if EqIgnoreCase(sections[0].name, name) {
        RestStartsWithHeading(sections[1..]);
        SectionInFront(line, body, rest, name);
        JoinedLines(sections[0].body);
      } else {
        NoWantedHeading(line, body, name);
        SectionBehind([line] + body, rest, name);
        SectionOfRendered(sections[1..], name);
      }
    }
  }

  lemma NoWantedHeading(line: string, body: seq<string>, name: string)
    requires !IsHeadingOf(line, name) && NoneOf(body, Heading())
    ensures NoneOf([line] + body, HeadingOf(name))
  {
    assert forall l <- body :: !Heading()(l);
  }

  lemma RestStartsWithHeading(sections: seq<Titled>)
    requires Renderable(sections)
    ensures
      var lines := Lines(RenderSections(sections));
      lines == [] || IsHeading(lines[0])
  {
    if sections != [] {
      RenderedLines(sections);
      HeadingIsRead(sections[0].name);
    }
  }

  /** Extraction inverts rendering, behind any preamble without headings. */
  lemma ExtractionInvertsRendering(preamble: string, sections: seq<Titled>, name: string)
    requires LineEnded(preamble) && NoHeadings(preamble) && Renderable(sections)
    ensures Section(preamble + RenderSections(sections), name) == Lookup(sections, name)
  {
    LinesAppend(preamble, RenderSections(sections));
    assert forall l <- Lines(preamble) :: !Heading()(l);
    SectionBehind(Lines(preamble), Lines(RenderSections(sections)), name);
    SectionOfRendered(sections, name);
  }

  // ----- outcomes ---------------------------------------------------------------------------------

  datatype Outcome =
    | Irrelevant
    | DraftReady(review: string, suggestedReply: string, draftEvidence: seq<string>)
    | NeedsInput(question: string)
    | Report(text: string, evidence: seq<string>)

  datatype ParseError = Empty | BadJson | NoSuggestedReply | EmptyDraft | EmptyQuestion | EmptyReport | DraftMissing

  const NOT_APPLICABLE: string := "NOT_APPLICABLE"

  /** The outcome a text states, before it is checked; `decode` reads structured JSON. */
  function Stated(text: string, draftRequired: bool, decode: string -> Option<Outcome>): Result<Outcome, ParseError> {
    if StartsWith(TrimStart(text), "{") then
      if decode(text).Some? then Ok(decode(text).value) else Err(BadJson)
    else if Trim(text) == NOT_APPLICABLE || Section(text, "Relevance") == Some(NOT_APPLICABLE) then Ok(Irrelevant)
    else
      match Section(text, "Suggested reply")
      case Some(reply) => Ok(DraftReady(Trim(text), reply, []))
      case None => if draftRequired then Err(NoSuggestedReply) else Ok(Report(Trim(text), []))
  }

  /** The outcomes a run may record. */
  predicate Recordable(outcome: Outcome, draftRequired: bool) {
    match outcome
    case Irrelevant => true
    case DraftReady(review, reply, _) => !Blank(review) && !Blank(reply)
    case NeedsInput(question) => !Blank(question)
    case Report(text, _) => !Blank(text) && !draftRequired
  }

  function Parse(text: string, draftRequired: bool, decode: string -> Option<Outcome>): (r: Result<Outcome, ParseError>)
    ensures r.Ok? ==> Recordable(r.value, draftRequired)
    ensures r.Ok? <==>
      !Blank(text) && Stated(text, draftRequired, decode).Ok? && Recordable(Stated(text, draftRequired, decode).value, draftRequired)
  {
    TrimEmptyIffBlank(text);
    if Trim(text) == "" then Err(Empty)
    else
      match Stated(text, draftRequired, decode)
      case Err(error) => Err(error)
      case Ok(outcome) =>
        match outcome
        case DraftReady(review, reply, _) =>
          TrimEmptyIffBlank(review);
          TrimEmptyIffBlank(reply);
          if Trim(review) == "" || Trim(reply) == "" then Err(EmptyDraft) else Ok(outcome)
        case NeedsInput(question) =>
          TrimEmptyIffBlank(question);
          if Trim(question) == "" then Err(EmptyQuestion) else Ok(outcome)
        case Report(report, _) =>
          TrimEmptyIffBlank(report);
          if Trim(report) == "" then Err(EmptyReport) else if draftRequired then Err(DraftMissing) else Ok(outcome)
        case Irrelevant => Ok(outcome)
  }

  lemma NonBlankIsTrimmed(text: string)
    requires NonBlank(text).Some?
    ensures !Blank(NonBlank(text).value)
  {
    TrimIsTrimmed(text);
    TrimFixed(Trim(text));
    TrimEmptyIffBlank(Trim(text));
  }

  /** The body of a section is never blank. */
  lemma SectionIsNotBlank(text: string, name: string)
    requires Section(text, name).Some?
    ensures !Blank(Section(text, name).value)
  {
    NonBlankIsTrimmed(Joined(Between(Lines(text), HeadingOf(name), Heading()).value));
  }

  /** Without a structured outcome the parser only ever fails for a blank text or a missing required draft. */
  lemma MarkdownOutcome(text: string, draftRequired: bool, decode: string -> Option<Outcome>)
    requires !StartsWith(TrimStart(text), "{")
    ensures Parse(text, draftRequired, decode).Err? <==>
      Blank(text) ||
      (draftRequired && Section(text, "Suggested reply").None?
       && Trim(text) != NOT_APPLICABLE && Section(text, "Relevance") != Some(NOT_APPLICABLE))
  {
    TrimEmptyIffBlank(text);
    if !Blank(text) {
      NonBlankIsTrimmed(text);
      if Section(text, "Suggested reply").Some? {
        SectionIsNotBlank(text, "Suggested reply");
      }
    }
  }

  lemma RenderedIsNotBlank(preamble: string, sections: seq<Titled>)
    requires sections != []
    ensures !Blank(preamble + RenderSections(sections))
  {
    var text := preamble + RenderSections(sections);
    assert RenderSections(sections)[0] == MARK[0];
    assert text[|preamble|] == '#';
  }

  /** A rendered report is a draft whose reply is the first non-blank "Suggested reply" body. */
  lemma RenderedDraft(preamble: string, sections: seq<Titled>, draftRequired: bool, decode: string -> Option<Outcome>)
    requires LineEnded(preamble) && NoHeadings(preamble) && Renderable(sections)
    requires Lookup(sections, "Suggested reply").Some? && Lookup(sections, "Relevance") != Some(NOT_APPLICABLE)
    requires
      var text := preamble + RenderSections(sections);
      !StartsWith(TrimStart(text), "{") && Trim(text) != NOT_APPLICABLE
    ensures
      var text := preamble + RenderSections(sections);
      Parse(text, draftRequired, decode) == Ok(DraftReady(Trim(text), Lookup(sections, "Suggested reply").value, []))
  {
    var text := preamble + RenderSections(sections);
    ExtractionInvertsRendering(preamble, sections, "Suggested reply");
    ExtractionInvertsRendering(preamble, sections, "Relevance");
    RenderedIsNotBlank(preamble, sections);
    DraftOf(text, draftRequired, decode);
  }

  /** A text with a reply section and no claim of irrelevance is a draft with that reply. */
  lemma DraftOf(text: string, draftRequired: bool, decode: string -> Option<Outcome>)
    requires !Blank(text) && !StartsWith(TrimStart(text), "{") && Trim(text) != NOT_APPLICABLE
    requires Section(text, "Relevance") != Some(NOT_APPLICABLE) && Section(text, "Suggested reply").Some?
    ensures Parse(text, draftRequired, decode) ==
      Ok(DraftReady(Trim(text), Section(text, "Suggested reply").value, []))
  {
    MarkdownOutcome(text, draftRequired, decode);
    TrimEmptyIffBlank(text);
  }

  // ----- every kind of text ----------------------------------------------------------------------

  /** The first character that is no white space is a brace. */
  ghost predicate Structured(text: string) {
    exists i :: 0 <= i < |text| && text[i] == '{' && Blank(text[..i])
  }

  lemma StructuredIff(text: string)
    ensures StartsWith(TrimStart(text), "{") <==> Structured(text)
  {
    var k := TrimStartCut(text);
    if Structured(text) {
      var i :| 0 <= i < |text| && text[i] == '{' && Blank(text[..i]);
      assert text == text[..i] + text[i..];
      TrimStartAround(text[..i], text[i..]);
    }
  }

  /** Structured text: the decoded outcome, or what is wrong with it. */
  lemma StructuredOutcome(text: string, draftRequired: bool, decode: string -> Option<Outcome>)
    requires Structured(text)
    ensures Parse(text, draftRequired, decode) ==
      match decode(text)
      case None => Err(BadJson)
      case Some(Irrelevant) => Ok(Irrelevant)
      case Some(DraftReady(review, reply, evidence)) =>
        if Blank(review) || Blank(reply) then Err(EmptyDraft) else Ok(DraftReady(review, reply, evidence))
      case Some(NeedsInput(question)) => if Blank(question) then Err(EmptyQuestion) else Ok(NeedsInput(question))
      case Some(Report(report, evidence)) =>
        if Blank(report) then Err(EmptyReport)
        else if draftRequired then Err(DraftMissing)
        else Ok(Report(report, evidence))
  {
    StructuredIff(text);
    TrimEmptyIffBlank(text);
    match decode(text)
    case Some(DraftReady(review, reply, _)) =>
      TrimEmptyIffBlank(review);
      TrimEmptyIffBlank(reply);
    case Some(NeedsInput(question)) => TrimEmptyIffBlank(question);
    case Some(Report(report, _)) => TrimEmptyIffBlank(report);
    case _ =>
  }

  lemma BlankText(text: string, draftRequired: bool, decode: string -> Option<Outcome>)
    ensures Blank(text) <==> Parse(text, draftRequired, decode) == Err(Empty)
  {
    TrimEmptyIffBlank(text);
  }

  /** The mark alone, with any white space around it, is an answer of its own. */
  lemma MarkedIrrelevant(before: string, after: string, draftRequired: bool, decode: string -> Option<Outcome>)
    requires Blank(before) && Blank(after)
    ensures Parse(before + "NOT_APPLICABLE" + after, draftRequired, decode) == Ok(Irrelevant)
  {
    var text := before + "NOT_APPLICABLE" + after;
    TrimAround(before, "NOT_APPLICABLE", after);
    assert text == before + ("NOT_APPLICABLE" + after);
    TrimStartAround(before, "NOT_APPLICABLE" + after);
  }

  /** So is the mark under the heading "Relevance". */
  lemma RenderedIrrelevant(preamble: string, sections: seq<Titled>, draftRequired: bool, decode: string -> Option<Outcome>)
    requires LineEnded(preamble) && NoHeadings(preamble) && Renderable(sections)
    requires Lookup(sections, "Relevance") == Some("NOT_APPLICABLE") && !Structured(preamble + RenderSections(sections))
    ensures Parse(preamble + RenderSections(sections), draftRequired, decode) == Ok(Irrelevant)
  {
    var text := preamble + RenderSections(sections);
    StructuredIff(text);
    ExtractionInvertsRendering(preamble, sections, "Relevance");
    RenderedIsNotBlank(preamble, sections);
    TrimEmptyIffBlank(text);
  }

  /** Any other text without a reply section is a report, or fails where a draft is wanted. */
  lemma PlainReport(text: string, draftRequired: bool, decode: string -> Option<Outcome>)
    requires !Blank(text) && !Structured(text) && Trim(text) != "NOT_APPLICABLE"
    requires Section(text, "Relevance") != Some("NOT_APPLICABLE") && Section(text, "Suggested reply").None?
    ensures Parse(text, draftRequired, decode) == if draftRequired then Err(NoSuggestedReply) else Ok(Report(Trim(text), []))
  {
    StructuredIff(text);
    TrimEmptyIffBlank(text);
    TrimIsTrimmed(text);
    TrimFixed(Trim(text));
  }
}
