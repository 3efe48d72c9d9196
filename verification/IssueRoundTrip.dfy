/** The fenced-block reader undoes issueBody, whatever the submitter typed. */
module IssueRoundTrip {
  import opened Text
  import opened Submission
  import opened IssueFences
  import opened FenceReader

  // Read from a position between blocks, t is these blocks and leaves the reader there again.
  ghost predicate Reads(t: string, blocks: seq<Block>) {
    forall rest :: ReadsBefore(t, blocks, rest)
  }

  ghost predicate ReadsBefore(t: string, blocks: seq<Block>, rest: string) {
    ReadBlocks(t + rest) == blocks + ReadBlocks(rest)
  }

  lemma ReadsAppend(a: string, x: seq<Block>, b: string, y: seq<Block>)
    requires Reads(a, x) && Reads(b, y)
    ensures Reads(a + b, x + y)
  {
    hide ReadBlocks;
    forall rest ensures ReadsBefore(a + b, x + y, rest) {
      assert ReadsBefore(a, x, b + rest) && ReadsBefore(b, y, rest);
      assert (a + b) + rest == a + (b + rest);
      assert (x + y) + ReadBlocks(rest) == x + (y + ReadBlocks(rest));
    }
  }

  lemma ReadsNothing()
    ensures Reads("", [])
  {
    forall rest ensures ReadsBefore("", [], rest) {
      assert "" + rest == rest;
    }
  }

  // ---- lines ------------------------------------------------------------------------------

  lemma {:induction false} LineIsWhole(s: string, rest: string)
    requires NoBreak(s)
    ensures LineLength(s + "\n" + rest) == |s| + 1
    ensures DropEnding(s + "\n") == s
  {
    if s == "" {
      assert "" + "\n" + rest == "\n" + rest;
    } else {
      var t := s + "\n" + rest;
      assert t[0] == s[0] && s[0] in s;
      assert t[1..] == s[1..] + "\n" + rest;
      LineIsWhole(s[1..], rest);
      var line := s + "\n";
      assert |line| >= 2 ==> line[|line| - 2] == s[|s| - 1] && s[|s| - 1] in s;
    }
  }

  lemma ProseReads(s: string)
    requires NoBreak(s) && Opening(s + "\n").None?
    ensures Reads(s + "\n", [Prose(s + "\n")])
  {
    hide Opening, LineLength;
    forall rest ensures ReadsBefore(s + "\n", [Prose(s + "\n")], rest) {
      LineIsWhole(s, rest);
      var t := s + "\n" + rest;
      assert t[..|s| + 1] == s + "\n" && t[|s| + 1..] == rest;
    }
  }

  // Text that starts with anything but a space or a fence mark opens no fence.
  lemma NotAFence(s: string)
    requires NoBreak(s) && (s != "" ==> s[0] != ' ' && s[0] != '`' && s[0] != '~')
    ensures Opening(s + "\n").None?
  {
    LineIsWhole(s, "");
  }

  // ---- a printed fence ---------------------------------------------------------------------

  lemma {:induction false} LeadingRepeat(c: char, n: nat, rest: string)
    requires rest == "" || rest[0] != c
    ensures |Repeat(c, n)| == n && Leading(Repeat(c, n) + rest, c) == n
    ensures forall i :: 0 <= i < n ==> Repeat(c, n)[i] == c
  {
    if n == 0 {
      assert "" + rest == rest;
    } else {
      LeadingRepeat(c, n - 1, rest);
      assert Repeat(c, n) + rest == [c] + (Repeat(c, n - 1) + rest);
    }
  }

  lemma FenceLineOpens(n: nat)
    requires n >= 3
    ensures NoBreak(Repeat('`', n)) && Opening(Repeat('`', n) + "\n") == Some(Fence(0, '`', n, ""))
  {
    var fence := Repeat('`', n);
    LeadingRepeat('`', n, "");
    assert fence + "" == fence;
    LineIsWhole(fence, "");
    assert Leading(fence, ' ') == 0 && fence[0..] == fence;
    assert Trim("") == "";
  }

  lemma FenceLineCloses(n: nat)
    requires n >= 3
    ensures Closes(Repeat('`', n) + "\n", Fence(0, '`', n, ""))
  {
    var fence := Repeat('`', n);
    LeadingRepeat('`', n, "");
    assert fence + "" == fence;
    FenceLineOpens(n);
    LineIsWhole(fence, "");
    assert Leading(fence, ' ') == 0 && fence[0..] == fence;
  }

  // ---- content lines -------------------------------------------------------------------------

  lemma {:induction false} LeadingIsRun(s: string, c: char)
    ensures forall i :: 0 <= i < Leading(s, c) ==> s[i] == c
  {
    if s != "" && s[0] == c {
      LeadingIsRun(s[1..], c);
      forall i | 0 <= i < Leading(s, c) ensures s[i] == c {
        assert i > 0 ==> s[1..][i - 1] == c;
      }
    }
  }

  // A line that closes a fence of n backticks holds n backticks in a row.
  lemma ClosingLineHasRun(line: string, n: nat)
    requires Closes(line, Fence(0, '`', n, ""))
    ensures HasRun(line, n)
  {
    hide Leading, Blank, DropEnding, HasRun;
    EndingIsDropped(line);
    var text := DropEnding(line);
    var indent := Leading(text, ' ');
    var rest := text[indent..];
    LeadingIsRun(rest, '`');
    RunIsFound(line, indent, rest, n);
  }

  lemma EndingIsDropped(line: string)
    ensures DropEnding(line) <= line
  {
  }

  lemma RunIsFound(line: string, at: nat, rest: string, n: nat)
    requires n <= |rest| && at + |rest| <= |line| && rest == line[at..at + |rest|]
    requires forall i :: 0 <= i < n ==> rest[i] == '`'
    ensures HasRun(line, n)
  {
    forall j | at <= j < at + n ensures line[j] == '`' {
      assert line[j] == rest[j - at];
    }
    assert RunAt(line, at, n);
  }

  lemma RunInPiece(s: string, piece: string, at: nat, n: nat)
    requires at + |piece| <= |s| && piece == s[at..at + |piece|] && HasRun(piece, n)
    ensures HasRun(s, n)
  {
    var i :| RunAt(piece, i, n);
    assert forall j :: at + i <= j < at + i + n ==> s[j] == piece[j - at];
    assert RunAt(s, at + i, n);
  }

  lemma RunBeforeBreak(s: string, n: nat)
    requires HasRun(s + "\n", n)
    ensures HasRun(s, n)
  {
    var t := s + "\n";
    var i :| RunAt(t, i, n);
    if n == 0 {
      assert RunAt(s, 0, 0);
    } else {
      assert t[i + n - 1] == '`';
      assert forall j :: i <= j < i + n ==> s[j] == t[j];
      assert RunAt(s, i, n);
    }
  }

  // The first line of s + LF + more ends inside s, or is exactly s + LF: a CR at the very end
  // of s pairs up with the LF.
  lemma {:induction false} FirstLineEndsInside(s: string, more: string)
    ensures 1 <= LineLength(s + "\n" + more) <= |s| + 1
  {
    var t := s + "\n" + more;
    if s != "" {
      assert t[0] == s[0] && t[1..] == s[1..] + "\n" + more;
      FirstLineEndsInside(s[1..], more);
    }
  }

  // Content without a long enough run is read to its end, verbatim.
  lemma {:induction false} ContentIsVerbatim(s: string, n: nat, rest: string)
    requires n >= 3 && !HasRun(s, n)
    ensures ReadCode(s + "\n" + (Repeat('`', n) + "\n" + rest), Fence(0, '`', n, "")) == (s + "\n", rest)
    decreases |s|
  {
    hide Closes, LineLength, Leading;
    var f := Fence(0, '`', n, "");
    var fence := Repeat('`', n) + "\n";
    var tail := fence + rest;
    var t := s + "\n" + tail;
    FirstLineEndsInside(s, tail);
    var k := LineLength(t);
    var line := t[..k];
    if Closes(line, f) {
      ClosingLineHasRun(line, n);
      assert line == (s + "\n")[0..0 + k];
      RunInPiece(s + "\n", line, 0, n);
      RunBeforeBreak(s, n);
      assert false;
    }
    assert Unindent(line, 0) == line;
    if k == |s| + 1 {
      assert line == s + "\n" && t[k..] == tail;
      FenceEndsCode(n, rest);
      assert line + "" == line;
    } else {
      assert t[k..] == s[k..] + "\n" + tail;
      forall i | RunAt(s[k..], i, n) ensures false {
        RunInPiece(s, s[k..], k, n);
      }
      ContentIsVerbatim(s[k..], n, rest);
      assert line + (s[k..] + "\n") == s + "\n";
    }
  }

  lemma FenceEndsCode(n: nat, rest: string)
    requires n >= 3
    ensures ReadCode(Repeat('`', n) + "\n" + rest, Fence(0, '`', n, "")) == ("", rest)
  {
    hide Closes;
    FenceLineOpens(n);
    LineIsWhole(Repeat('`', n), rest);
    FenceLineCloses(n);
    var t := Repeat('`', n) + "\n" + rest;
    var k := |Repeat('`', n)| + 1;
    assert t[..k] == Repeat('`', n) + "\n" && t[k..] == rest;
  }

  // A printed field is read back as one code block whose content is the field, byte for byte
  // (with the line feed that ends its last line), whatever backticks and line breaks it holds.
  lemma FenceReads(s: string)
    requires s != ""
    ensures Reads(FenceText(s) + "\n", [Code("", s + "\n")])
  {
    hide Opening, LineLength, ReadCode, MaxRun;
    var n := FenceLength(s);
    FenceOutgrowsContent(s);
    forall rest ensures ReadsBefore(FenceText(s) + "\n", [Code("", s + "\n")], rest) {
      var fence := Repeat('`', n);
      var tail := s + "\n" + (fence + "\n" + rest);
      var t := FenceText(s) + "\n" + rest;
      assert t == fence + "\n" + tail;
      FenceLineOpens(n);
      LineIsWhole(fence, tail);
      var k := |fence| + 1;
      assert t[..k] == fence + "\n" && t[k..] == tail;
      ContentIsVerbatim(s, n, rest);
    }
  }

  // ---- whole issue bodies ----------------------------------------------------------------------

  // How a field reads: one code block, or the placeholder line for an empty one.
  function FieldBlocks(s: string, placeholder: string): seq<Block> {
    if s == "" then [Prose(placeholder + "\n")] else [Code("", s + "\n")]
  }

  // Lines of prose, each ended by a line feed.
  function Lines(ls: seq<string>): string {
    if ls == [] then "" else ls[0] + "\n" + Lines(ls[1..])
  }

  function ProseBlocks(ls: seq<string>): seq<Block> {
    if ls == [] then [] else [Prose(ls[0] + "\n")] + ProseBlocks(ls[1..])
  }

  // A line the reader cannot take for a fence.
  predicate PlainLine(line: string) {
    NoBreak(line) && (line != "" ==> line[0] != ' ' && line[0] != '`' && line[0] != '~')
  }

  lemma {:induction false} LinesRead(ls: seq<string>)
    requires forall i :: 0 <= i < |ls| ==> PlainLine(ls[i])
    ensures Reads(Lines(ls), ProseBlocks(ls))
  {
    hide Reads, Opening;
    if ls == [] {
      ReadsNothing();
    } else {
      NotAFence(ls[0]);
      ProseReads(ls[0]);
      LinesRead(ls[1..]);
      ReadsAppend(ls[0] + "\n", [Prose(ls[0] + "\n")], Lines(ls[1..]), ProseBlocks(ls[1..]));
    }
  }

  function Heading(title: string): string {
    "**" + title + ":**"
  }

  function SectionBlocks(title: string, field: seq<Block>): seq<Block> {
    ProseBlocks(["", Heading(title)]) + field
  }

  lemma PlaceholderReads(placeholder: string)
    requires PlainLine(placeholder)
    ensures Reads(placeholder + "\n", FieldBlocks("", placeholder))
  {
    NotAFence(placeholder);
    ProseReads(placeholder);
  }

  lemma FieldReads(s: string)
    ensures Reads(FenceText(s) + "\n", FieldBlocks(s, PLACEHOLDER))
    ensures Reads(DetailsText(s) + "\n", FieldBlocks(s, NOTHING))
  {
    hide Reads;
    if s != "" {
      FenceReads(s);
    } else {
      PlaceholderReads(PLACEHOLDER);
      PlaceholderReads(NOTHING);
    }
  }

  lemma SectionReads(title: string, text: string, field: seq<Block>)
    requires NoBreak(title) && Reads(text + "\n", field)
    ensures Reads(Section(title, text), SectionBlocks(title, field))
  {
    hide Reads, ProseBlocks;
    var ls := ["", Heading(title)];
    LinesRead(ls);
    ReadsAppend(Lines(ls), ProseBlocks(ls), text + "\n", field);
    assert Lines(ls) == "\n**" + title + ":**\n" by { TwoLines("", Heading(title)); }
    assert Section(title, text) == Lines(ls) + (text + "\n");
  }

  lemma TwoLines(a: string, b: string)
    ensures Lines([a, b]) == a + "\n" + b + "\n"
  {
    assert [a, b][1..] == [b] && [b][1..] == [];
    assert Lines([b]) == b + "\n" + Lines([]);
    assert a + "\n" + (b + "\n" + "") == a + "\n" + b + "\n";
  }

  lemma FourLines(a: string, b: string, c: string, d: string)
    ensures Lines([a, b, c, d]) == a + "\n" + b + "\n" + c + "\n" + d + "\n"
  {
    hide Lines;
    assert [a, b, c, d] == [a, b] + [c, d];
    LinesAppend([a, b], [c, d]);
    TwoLines(a, b);
    TwoLines(c, d);
  }

  // The four lines of the head; what varies is the closed-set label and the timestamp.
  function HeadLines(k: Kind, at: string): seq<string> {
    [TypeLine(k), SubmittedLine(at), "", FROM_LINE]
  }

  lemma StarLineIsPlain(a: string, b: string)
    requires NoBreak(a) && NoBreak(b) && a != "" && a[0] == '*'
    ensures PlainLine(a + b)
  {
  }

  lemma TypeLineIsPlain(k: Kind)
    ensures PlainLine(TypeLine(k))
  {
    assert NoBreak(KindLabel(k));
    hide KindLabel;
    StarLineIsPlain("**Type:** ", KindLabel(k));
    StarLineIsPlain("**Type:** " + KindLabel(k), "  ");
  }

  lemma SubmittedLineIsPlain(at: string)
    requires NoBreak(at)
    ensures PlainLine(SubmittedLine(at))
  {
    StarLineIsPlain("**Submitted:** ", at);
  }

  lemma FromLineIsPlain()
    ensures PlainLine(FROM_LINE) && PlainLine("")
  {
  }

  lemma HeadLinesArePlain(k: Kind, at: string)
    requires NoBreak(at)
    ensures forall i :: 0 <= i < |HeadLines(k, at)| ==> PlainLine(HeadLines(k, at)[i])
  {
    hide PlainLine, TypeLine, SubmittedLine;
    TypeLineIsPlain(k);
    SubmittedLineIsPlain(at);
    FromLineIsPlain();
  }

  lemma HeadReads(k: Kind, at: string)
    requires NoBreak(at)
    ensures Reads(Head(k, at), ProseBlocks(HeadLines(k, at)))
  {
    hide Reads, ProseBlocks, Lines, Head;
    HeadLinesArePlain(k, at);
    LinesRead(HeadLines(k, at));
    HeadIsLines(k, at);
  }

  lemma HeadIsLines(k: Kind, at: string)
    ensures Head(k, at) == Lines(HeadLines(k, at))
  {
    hide Lines, TypeLine, SubmittedLine;
    FourLines(TypeLine(k), SubmittedLine(at), "", FROM_LINE);
  }

  lemma {:induction false} LinesAppend(a: seq<string>, b: seq<string>)
    ensures Lines(a + b) == Lines(a) + Lines(b)
  {
    if a == [] {
      assert [] + b == b;
    } else {
      LinesAppend(a[1..], b);
      assert (a + b)[1..] == a[1..] + b;
      assert a[0] + "\n" + (Lines(a[1..]) + Lines(b)) == a[0] + "\n" + Lines(a[1..]) + Lines(b);
    }
  }

  function PageBlocks(page: string): seq<Block> {
    if page == "" then [] else SectionBlocks("Page/Area", FieldBlocks(page, PLACEHOLDER))
  }

  // The blocks of an issue body, up to the footer.
  function IssueBlocks(s: Submission, at: string): seq<Block> {
    ProseBlocks(HeadLines(s.kind, at)) + FieldBlocks(From(s), PLACEHOLDER) +
    PageBlocks(s.page) +
    SectionBlocks("Summary", FieldBlocks(s.summary, PLACEHOLDER)) +
    SectionBlocks("Details", FieldBlocks(s.details, NOTHING))
  }

  lemma PageReads(page: string)
    ensures Reads(PageSection(page), PageBlocks(page))
  {
    hide Reads;
    if page == "" {
      ReadsNothing();
    } else {
      FieldReads(page);
      SectionReads("Page/Area", FenceText(page), FieldBlocks(page, PLACEHOLDER));
    }
  }

  // Everything before the footer reads as the fixed headings, and the submitter's text inside
  // code blocks.  The operator's footer is read on its own.
  lemma IssueBodyReads(s: Submission, wikiName: string, at: string)
    requires NoBreak(at)
    ensures ReadBlocks(IssueText(s, wikiName, at)) == IssueBlocks(s, at) + ReadBlocks(Footer(wikiName))
  {
    hide ReadBlocks, FieldBlocks, SectionBlocks, ProseBlocks, HeadLines, PageBlocks;
    hide Head, FenceText, Section, PageSection, DetailsText;
    var from, summary := FenceText(From(s)) + "\n", Section("Summary", FenceText(s.summary));
    var details := Section("Details", DetailsText(s.details));
    assert Reads(Head(s.kind, at) + from + PageSection(s.page) + summary + details, IssueBlocks(s, at)) by {
      hide Reads;
      HeadReads(s.kind, at);
      FieldReads(From(s));
      PageReads(s.page);
      FieldReads(s.summary);
      FieldReads(s.details);
      SectionReads("Summary", FenceText(s.summary), FieldBlocks(s.summary, PLACEHOLDER));
      SectionReads("Details", DetailsText(s.details), FieldBlocks(s.details, NOTHING));
      ReadsAppend(Head(s.kind, at), ProseBlocks(HeadLines(s.kind, at)), from, FieldBlocks(From(s), PLACEHOLDER));
      ReadsAppend(Head(s.kind, at) + from, ProseBlocks(HeadLines(s.kind, at)) + FieldBlocks(From(s), PLACEHOLDER),
                  PageSection(s.page), PageBlocks(s.page));
      ReadsAppend(Head(s.kind, at) + from + PageSection(s.page),
                  ProseBlocks(HeadLines(s.kind, at)) + FieldBlocks(From(s), PLACEHOLDER) + PageBlocks(s.page),
                  summary, SectionBlocks("Summary", FieldBlocks(s.summary, PLACEHOLDER)));
      ReadsAppend(Head(s.kind, at) + from + PageSection(s.page) + summary,
                  ProseBlocks(HeadLines(s.kind, at)) + FieldBlocks(From(s), PLACEHOLDER) + PageBlocks(s.page)
                  + SectionBlocks("Summary", FieldBlocks(s.summary, PLACEHOLDER)),
                  details, SectionBlocks("Details", FieldBlocks(s.details, NOTHING)));
    }
    assert ReadsBefore(Head(s.kind, at) + from + PageSection(s.page) + summary + details,
                       IssueBlocks(s, at), Footer(wikiName));
  }

  // ---- what the reader recovers ------------------------------------------------------------------

  // The contents of the code blocks, without the line feed each ends in.
  function CodeTexts(blocks: seq<Block>): seq<string> {
    if blocks == [] then [] else CodeText(blocks[0]) + CodeTexts(blocks[1..])
  }

  function CodeText(b: Block): seq<string> {
    match b
    case Code(_, content) => [if content == "" then "" else content[..|content| - 1]]
    case Prose(_) => []
  }

  function ProseLines(blocks: seq<Block>): seq<string> {
    if blocks == [] then []
    else (if blocks[0].Prose? then [blocks[0].line] else []) + ProseLines(blocks[1..])
  }

  lemma {:induction false} CodeTextsAppend(a: seq<Block>, b: seq<Block>)
    ensures CodeTexts(a + b) == CodeTexts(a) + CodeTexts(b)
  {
    hide CodeText;
    if a == [] {
      assert [] + b == b;
    } else {
      assert (a + b)[0] == a[0] && (a + b)[1..] == a[1..] + b;
      CodeTextsAppend(a[1..], b);
    }
  }

  lemma {:induction false} ProseLinesAppend(a: seq<Block>, b: seq<Block>)
    ensures ProseLines(a + b) == ProseLines(a) + ProseLines(b)
  {
    if a == [] {
      assert [] + b == b;
    } else {
      assert (a + b)[0] == a[0] && (a + b)[1..] == a[1..] + b;
      ProseLinesAppend(a[1..], b);
    }
  }

  function OrNone(s: string): seq<string> {
    if s == "" then [] else [s]
  }

  lemma FieldRecovered(s: string, placeholder: string)
    ensures CodeTexts(FieldBlocks(s, placeholder)) == OrNone(s)
    ensures ProseLines(FieldBlocks(s, placeholder)) == if s == "" then [placeholder + "\n"] else []
  {
    var blocks := FieldBlocks(s, placeholder);
    assert blocks[1..] == [];
    assert (s + "\n")[..|s + "\n"| - 1] == s;
  }

  lemma {:induction false} ProseHasNoCode(ls: seq<string>)
    ensures CodeTexts(ProseBlocks(ls)) == []
  {
    if ls != [] {
      ProseHasNoCode(ls[1..]);
      assert ProseBlocks(ls)[1..] == ProseBlocks(ls[1..]);
    }
  }

  lemma SectionRecovered(title: string, field: seq<Block>)
    ensures CodeTexts(SectionBlocks(title, field)) == CodeTexts(field)
    ensures ProseLines(SectionBlocks(title, field)) == ProseLines(ProseBlocks(["", Heading(title)])) + ProseLines(field)
  {
    hide ProseBlocks, CodeTexts, ProseLines;
    CodeTextsAppend(ProseBlocks(["", Heading(title)]), field);
    ProseLinesAppend(ProseBlocks(["", Heading(title)]), field);
    ProseHasNoCode(["", Heading(title)]);
    assert [] + CodeTexts(field) == CodeTexts(field);
  }

  // The round trip: the reader gets back the From, Page, Summary and Details texts exactly.
  lemma IssueBodyRoundTrip(s: Submission, wikiName: string, at: string)
    requires NoBreak(at)
    ensures CodeTexts(ReadBlocks(IssueText(s, wikiName, at))) ==
            [From(s)] + OrNone(s.page) + OrNone(s.summary) + OrNone(s.details) + CodeTexts(ReadBlocks(Footer(wikiName)))
  {
    hide ReadBlocks, CodeTexts, FieldBlocks, SectionBlocks, ProseBlocks, HeadLines, IssueText, Footer;
    var head, from, page := ProseBlocks(HeadLines(s.kind, at)), FieldBlocks(From(s), PLACEHOLDER), PageBlocks(s.page);
    var summary := SectionBlocks("Summary", FieldBlocks(s.summary, PLACEHOLDER));
    var details := SectionBlocks("Details", FieldBlocks(s.details, NOTHING));
    var footer := ReadBlocks(Footer(wikiName));
    IssueBodyReads(s, wikiName, at);
    CodeTextsAppend(head + from + page + summary + details, footer);
    CodeTextsAppend(head + from + page + summary, details);
    CodeTextsAppend(head + from + page, summary);
    CodeTextsAppend(head + from, page);
    CodeTextsAppend(head, from);
    ProseHasNoCode(HeadLines(s.kind, at));
    FieldRecovered(From(s), PLACEHOLDER);
    FieldRecovered(s.summary, PLACEHOLDER);
    FieldRecovered(s.details, NOTHING);
    SectionRecovered("Summary", FieldBlocks(s.summary, PLACEHOLDER));
    SectionRecovered("Details", FieldBlocks(s.details, NOTHING));
    PageRecovered(s.page);
    assert [] + [From(s)] == [From(s)];
  }

  lemma PageRecovered(page: string)
    ensures CodeTexts(PageBlocks(page)) == OrNone(page)
    ensures ProseLines(PageBlocks(page)) ==
            if page == "" then [] else ProseLines(ProseBlocks(["", Heading("Page/Area")]))
  {
    if page != "" {
      FieldRecovered(page, PLACEHOLDER);
      SectionRecovered("Page/Area", FieldBlocks(page, PLACEHOLDER));
    }
  }

  // The prose of the body: which fields are empty shows, what the others hold does not.
  function VisibleProse(k: Kind, at: string, noPage: bool, noSummary: bool, noDetails: bool): seq<string> {
    ProseLines(ProseBlocks(HeadLines(k, at))) +
    (if noPage then [] else ProseLines(ProseBlocks(["", Heading("Page/Area")]))) +
    (ProseLines(ProseBlocks(["", Heading("Summary")])) + (if noSummary then [PLACEHOLDER + "\n"] else [])) +
    (ProseLines(ProseBlocks(["", Heading("Details")])) + (if noDetails then [NOTHING + "\n"] else []))
  }

  // No submitter text is ever anything but code content: the prose the reader sees is fixed
  // by the kind, the timestamp, the operator's footer and which fields are empty.
  lemma SubmitterTextIsNeverProse(s: Submission, wikiName: string, at: string)
    requires NoBreak(at)
    ensures ProseLines(ReadBlocks(IssueText(s, wikiName, at))) ==
            VisibleProse(s.kind, at, s.page == "", s.summary == "", s.details == "") +
            ProseLines(ReadBlocks(Footer(wikiName)))
  {
    hide ReadBlocks, ProseLines, FieldBlocks, SectionBlocks, ProseBlocks, HeadLines, IssueText, Footer, Heading;
    var head, from, page := ProseBlocks(HeadLines(s.kind, at)), FieldBlocks(From(s), PLACEHOLDER), PageBlocks(s.page);
    var summary := SectionBlocks("Summary", FieldBlocks(s.summary, PLACEHOLDER));
    var details := SectionBlocks("Details", FieldBlocks(s.details, NOTHING));
    IssueBodyReads(s, wikiName, at);
    ProseLinesAppend(head + from + page + summary + details, ReadBlocks(Footer(wikiName)));
    ProseLinesAppend(head + from + page + summary, details);
    ProseLinesAppend(head + from + page, summary);
    ProseLinesAppend(head + from, page);
    ProseLinesAppend(head, from);
    FieldRecovered(From(s), PLACEHOLDER);
    FieldRecovered(s.summary, PLACEHOLDER);
    FieldRecovered(s.details, NOTHING);
    SectionRecovered("Summary", FieldBlocks(s.summary, PLACEHOLDER));
    SectionRecovered("Details", FieldBlocks(s.details, NOTHING));
    PageRecovered(s.page);
    assert ProseLines(head) + [] == ProseLines(head);
  }

  // ---- the whole body, in words -----------------------------------------------------------------

  lemma {:induction false} ProseBlocksAt(ls: seq<string>)
    ensures |ProseBlocks(ls)| == |ls| && forall i :: 0 <= i < |ls| ==> ProseBlocks(ls)[i] == Prose(ls[i] + "\n")
  {
    if ls != [] {
      ProseBlocksAt(ls[1..]);
    }
  }

  lemma HeadInWords(k: Kind, at: string)
    ensures ProseBlocks(HeadLines(k, at)) ==
            [Prose("**Type:** " + (match k
                                   case Bug => "Bug report"
                                   case Request => "Request"
                                   case Feedback => "Feedback"
                                   case Other => "Other") + "  " + "\n"),
             Prose("**Submitted:** " + at + "\n"),
             Prose("\n"),
             Prose("**From** (name / email):" + "\n")]
  {
    ProseBlocksAt(HeadLines(k, at));
    hide ProseBlocks;
    assert "" + "\n" == "\n";
  }

  lemma SectionInWords(title: string, field: seq<Block>)
    ensures SectionBlocks(title, field) == [Prose("\n"), Prose("**" + title + ":**" + "\n")] + field
  {
    ProseBlocksAt(["", Heading(title)]);
    hide ProseBlocks;
    assert "" + "\n" == "\n";
  }

  // What a fenced-code reader makes of an issue body, block by block: the head with the kind's
  // label and the time, then every submitter field under its heading as one code block that
  // holds exactly that field, then whatever the footer reads as.
  lemma IssueBodyInWords(s: Submission, wikiName: string, at: string)
    requires NoBreak(at)
    ensures ReadBlocks(IssueText(s, wikiName, at)) ==
            [Prose("**Type:** " + (match s.kind
                                   case Bug => "Bug report"
                                   case Request => "Request"
                                   case Feedback => "Feedback"
                                   case Other => "Other") + "  " + "\n"),
             Prose("**Submitted:** " + at + "\n"),
             Prose("\n"),
             Prose("**From** (name / email):" + "\n")] +
            [Code("", s.name + " <" + s.email + ">" + "\n")] +
            (if s.page == "" then []
             else [Prose("\n"), Prose("**" + "Page/Area" + ":**" + "\n")] + [Code("", s.page + "\n")]) +
            ([Prose("\n"), Prose("**" + "Summary" + ":**" + "\n")] +
             [if s.summary == "" then Prose("_(none provided)_" + "\n") else Code("", s.summary + "\n")]) +
            ([Prose("\n"), Prose("**" + "Details" + ":**" + "\n")] +
             [if s.details == "" then Prose("_(nothing provided)_" + "\n") else Code("", s.details + "\n")]) +
            ReadBlocks("\n---\n_Filed automatically by the " + wikiName +
                       " contact form. All submitter-supplied fields above are shown verbatim and unrendered. " +
                       "Reply to the email notification to reach the submitter._\n")
  {
    hide ReadBlocks, IssueText, NoBreak;
    IssueBodyReads(s, wikiName, at);
    HeadInWords(s.kind, at);
    SectionInWords("Page/Area", FieldBlocks(s.page, PLACEHOLDER));
    SectionInWords("Summary", FieldBlocks(s.summary, PLACEHOLDER));
    SectionInWords("Details", FieldBlocks(s.details, NOTHING));
    hide ProseBlocks, HeadLines, SectionBlocks;
  }
}
