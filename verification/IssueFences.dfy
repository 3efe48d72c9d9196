/** mdFence and issueBody of services/contact/submission.go. */
module IssueFences {
  import opened Arith
  import opened Text
  import opened Submission

  // ---- the printer --------------------------------------------------------------------------

  function Repeat(c: char, n: nat): string {
    if n == 0 then "" else [c] + Repeat(c, n - 1)
  }

  // s has n backticks in a row.
  ghost predicate HasRun(s: string, n: nat) {
    exists i :: RunAt(s, i, n)
  }

  ghost predicate RunAt(s: string, i: int, n: nat) {
    0 <= i <= |s| - n && forall j :: i <= j < i + n ==> s[j] == '`'
  }

  // n is the length of the longest backtick run of s.
  ghost predicate IsLongestRun(s: string, n: nat) {
    forall m: nat :: HasRun(s, m) <==> m <= n
  }

  // How many backticks s ends in.
  function TrailingRun(s: string): nat {
    if s == [] || s[|s| - 1] != '`' then 0 else TrailingRun(s[..|s| - 1]) + 1
  }

  lemma {:induction false} TrailingRunIsMaximal(s: string, n: nat)
    ensures n <= |s| && RunAt(s, |s| - n, n) <==> n <= TrailingRun(s)
  {
    if s != [] && s[|s| - 1] == '`' && n > 0 {
      var before := s[..|s| - 1];
      TrailingRunIsMaximal(before, n - 1);
      if n <= |s| && RunAt(s, |s| - n, n) {
        assert RunAt(before, |before| - (n - 1), n - 1);
      }
    } else if n > 0 && n <= |s| {
      var last := |s| - 1;
      assert s[last] != '`' && |s| - n <= last < |s| - n + n;
    }
  }

  lemma RunExtends(s: string, c: char, n: nat)
    ensures HasRun(s + [c], n) <==> HasRun(s, n) || n <= TrailingRun(s + [c])
  {
    var t := s + [c];
    TrailingRunIsMaximal(t, n);
    if HasRun(s, n) {
      var i :| RunAt(s, i, n);
      assert RunAt(t, i, n);
    }
    if HasRun(t, n) {
      var i :| RunAt(t, i, n);
      if i + n <= |s| {
        assert forall j :: i <= j < i + n ==> t[j] == s[j];
        assert RunAt(s, i, n);
      }
    }
  }

  function MaxRun(s: string): nat {
    if s == [] then 0 else Max(MaxRun(s[..|s| - 1]), TrailingRun(s))
  }

  lemma {:induction false} MaxRunIsLongest(s: string)
    ensures IsLongestRun(s, MaxRun(s))
  {
    if s == [] {
      assert RunAt(s, 0, 0);
    } else {
      var before, last := s[..|s| - 1], s[|s| - 1];
      assert s == before + [last];
      MaxRunIsLongest(before);
      forall m: nat ensures HasRun(s, m) <==> m <= MaxRun(s) {
        RunExtends(before, last, m);
      }
    }
  }

  // Too long to occur inside s, and at least three.
  function FenceLength(s: string): nat {
    Max(3, MaxRun(s) + 1)
  }

  lemma FenceOutgrowsContent(s: string)
    ensures FenceLength(s) >= 3 && !HasRun(s, FenceLength(s))
    ensures FenceLength(s) > 3 ==> HasRun(s, FenceLength(s) - 1)
  {
    MaxRunIsLongest(s);
  }

  function Fenced(s: string, n: nat): string {
    Repeat('`', n) + "\n" + s + "\n" + Repeat('`', n)
  }

  const PLACEHOLDER := "_(none provided)_"

  function FenceText(s: string): string {
    if s == "" then PLACEHOLDER else Fenced(s, FenceLength(s))
  }

  // A non-empty text is framed by two equal fences of backticks on lines of their own: at least
  // three, more than the text ever has in a row, and no more than that takes.
  lemma FenceInWords(s: string) returns (fence: string)
    requires s != ""
    ensures FenceText(s) == fence + "\n" + s + "\n" + fence
    ensures |fence| >= 3 && forall c :: c in fence ==> c == '`'
    ensures !HasRun(s, |fence|) && (|fence| > 3 ==> HasRun(s, |fence| - 1))
  {
    fence := Repeat('`', FenceLength(s));
    RepeatInWords('`', FenceLength(s));
    FenceOutgrowsContent(s);
  }

  lemma {:induction false} RepeatInWords(c: char, n: nat)
    ensures |Repeat(c, n)| == n && forall d :: d in Repeat(c, n) ==> d == c
  {
    if n > 0 {
      RepeatInWords(c, n - 1);
    }
  }

  method MdFence(s: string) returns (block: string)
    ensures block == FenceText(s)
  {
    if s == "" {
      return PLACEHOLDER;
    }
    var longest, run := 0, 0;
    for i := 0 to |s|
      invariant run == TrailingRun(s[..i])
      invariant longest == MaxRun(s[..i])
    {
      assert s[..i + 1][..i] == s[..i];
      if s[i] == '`' {
        run := run + 1;
        if run > longest {
          longest := run;
        }
      } else {
        run := 0;
      }
    }
    assert s[..|s|] == s;
    var fence := Repeat('`', Max(3, longest + 1));
    block := fence + "\n" + s + "\n" + fence;
  }

  // ---- issueBody ------------------------------------------------------------------------------

  function KindLabel(k: Kind): string {
    match k
    case Bug => "Bug report"
    case Request => "Request"
    case Feedback => "Feedback"
    case Other => "Other"
  }

  function From(s: Submission): string {
    s.name + " <" + s.email + ">"
  }

  function Footer(wikiName: string): string {
    "\n---\n_Filed automatically by the " + wikiName +
    " contact form. All submitter-supplied fields above are shown verbatim and unrendered. " +
    "Reply to the email notification to reach the submitter._\n"
  }

  const NOTHING := "_(nothing provided)_"

  function DetailsText(details: string): string {
    if details == "" then NOTHING else FenceText(details)
  }

  function Section(title: string, text: string): string {
    "\n**" + title + ":**\n" + text + "\n"
  }

  function PageSection(page: string): string {
    if page == "" then "" else Section("Page/Area", FenceText(page))
  }

  function TypeLine(k: Kind): string {
    "**Type:** " + KindLabel(k) + "  "
  }

  // at is the formatted time of submission.
  function SubmittedLine(at: string): string {
    "**Submitted:** " + at
  }

  const FROM_LINE := "**From** (name / email):"

  function Head(k: Kind, at: string): string {
    TypeLine(k) + "\n" + SubmittedLine(at) + "\n" + "" + "\n" + FROM_LINE + "\n"
  }

  function IssueText(s: Submission, wikiName: string, at: string): string {
    Head(s.kind, at) + (FenceText(From(s)) + "\n") +
    PageSection(s.page) +
    Section("Summary", FenceText(s.summary)) +
    Section("Details", DetailsText(s.details)) +
    Footer(wikiName)
  }

  // The builder's writes: each section is written with the line break that ends the one before.
  method IssueBody(s: Submission, wikiName: string, at: string) returns (b: string)
    ensures b == IssueText(s, wikiName, at)
  {
    hide FenceText, KindLabel, Footer;
    b := WriteHead(s.kind, at);
    var from := MdFence(s.name + " <" + s.email + ">");
    b := b + from;
    ghost var done := Head(s.kind, at) + (FenceText(From(s)) + "\n");
    assert b + "\n" == done;
    if s.page != "" {
      var page := MdFence(s.page);
      b := WriteSection(b, "Page/Area", page);
      done := done + PageSection(s.page);
    } else {
      assert done + PageSection(s.page) == done;
    }
    var summary := MdFence(s.summary);
    b := WriteSection(b, "Summary", summary);
    var details := NOTHING;
    if s.details != "" {
      details := MdFence(s.details);
    }
    b := WriteSection(b, "Details", details);
    b := b + "\n" + Footer(wikiName);
  }

  method WriteHead(k: Kind, at: string) returns (b: string)
    ensures b == Head(k, at)
  {
    hide KindLabel;
    b := "**Type:** " + KindLabel(k) + "  \n";
    assert b == TypeLine(k) + "\n";
    b := b + "**Submitted:** " + at + "\n\n";
    assert b == TypeLine(k) + "\n" + SubmittedLine(at) + "\n" + "" + "\n";
    b := b + "**From** (name / email):\n";
    assert b == Head(k, at) by {
      assert "**From** (name / email):\n" == FROM_LINE + "\n";
    }
  }

  method WriteSection(b: string, title: string, text: string) returns (r: string)
    ensures r + "\n" == (b + "\n") + Section(title, text)
  {
    r := b + "\n\n**" + title + ":**\n" + text;
    assert "\n\n**" == "\n" + "\n**";
    assert r + "\n" == (b + "\n") + ("\n**" + title + ":**\n" + text + "\n");
  }
}
