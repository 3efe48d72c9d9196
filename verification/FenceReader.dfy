/** A reader for fenced code blocks, written from the CommonMark specification (version 0.31):
    lines and line endings from section 2.1, fences from section 4.5.  It knows nothing of how
    issue bodies are printed. */
module FenceReader {
  import opened Text

  // A line outside any fenced block, or a whole fenced block.
  datatype Block = Prose(line: string) | Code(info: string, content: string)

  datatype Fence = Fence(indent: nat, mark: char, length: nat, info: string)

  // The length of the first line, its line ending included: LF, CR, or CR LF.
  function LineLength(s: string): (n: nat)
    ensures n <= |s| && (s != "" ==> n > 0)
  {
    if s == "" then 0
    else if s[0] == '\n' then 1
    else if s[0] == '\r' then (if |s| > 1 && s[1] == '\n' then 2 else 1)
    else 1 + LineLength(s[1..])
  }

  function DropEnding(line: string): string {
    var n := |line|;
    if n >= 2 && line[n - 2] == '\r' && line[n - 1] == '\n' then line[..n - 2]
    else if n >= 1 && (line[n - 1] == '\n' || line[n - 1] == '\r') then line[..n - 1]
    else line
  }

  // How many times c occurs at the very start.
  function Leading(s: string, c: char): (n: nat)
    ensures n <= |s|
  {
    if s != "" && s[0] == c then 1 + Leading(s[1..], c) else 0
  }

  predicate Blank(s: string) {
    forall c :: c in s ==> c == ' ' || c == '\t'
  }

  // An opening fence: up to three spaces, at least three backticks or tildes, an info string
  // that after backticks contains no backtick.
  function Opening(line: string): Option<Fence> {
    var text := DropEnding(line);
    var indent := Leading(text, ' ');
    var rest := text[indent..];
    if indent > 3 || rest == "" || (rest[0] != '`' && rest[0] != '~') then None
    else
      var n := Leading(rest, rest[0]);
      var info := Trim(rest[n..]);
      if n < 3 || (rest[0] == '`' && '`' in info) then None else Some(Fence(indent, rest[0], n, info))
  }

  // A closing fence: up to three spaces, at least as many of the same mark, then only blanks.
  predicate Closes(line: string, f: Fence) {
    var text := DropEnding(line);
    var indent := Leading(text, ' ');
    var rest := text[indent..];
    var n := Leading(rest, f.mark);
    indent <= 3 && n >= f.length && Blank(rest[n..])
  }

  // A content line loses at most the opening fence's indentation.
  function Unindent(line: string, indent: nat): string {
    var n := Leading(line, ' ');
    line[(if n < indent then n else indent)..]
  }

  // The content up to the closing fence, or to the end of the document, and what follows it.
  function ReadCode(s: string, f: Fence): (r: (string, string))
    ensures |r.1| <= |s|
    decreases |s|
  {
    if s == "" then ("", "")
    else
      var n := LineLength(s);
      if Closes(s[..n], f) then ("", s[n..])
      else
        var (content, rest) := ReadCode(s[n..], f);
        (Unindent(s[..n], f.indent) + content, rest)
  }

  function ReadBlocks(s: string): seq<Block>
    decreases |s|
  {
    if s == "" then []
    else
      var n := LineLength(s);
      var f := Opening(s[..n]);
      if f.None? then [Prose(s[..n])] + ReadBlocks(s[n..])
      else
        var (content, rest) := ReadCode(s[n..], f.value);
        [Code(f.value.info, content)] + ReadBlocks(rest)
  }
}
