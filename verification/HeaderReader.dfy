/** A reader for Internet messages, written from RFC 5322: lines from section 2.1, header
    fields from section 2.2 (unfolding from section 2.2.3), the body from section 2.3.  It
    knows nothing of how messages are printed. */
module HeaderReader {
  import opened Text

  datatype Field = Field(name: string, body: string)

  datatype Parsed = Malformed | Mail(fields: seq<Field>, body: string)

  // Where the first CRLF starts.
  function FindCRLF(s: string): (i: Option<nat>)
    ensures i.Some? ==> i.value + 2 <= |s|
  {
    if |s| < 2 then None
    else if s[0] == '\r' && s[1] == '\n' then Some(0)
    else
      match FindCRLF(s[1..])
      case None => None
      case Some(i) => Some(i + 1)
  }

  predicate IsWSP(c: char) {
    c == ' ' || c == '\t'
  }

  // The rest of a field body that continues on lines starting with white space, and what
  // follows it.  Unfolding drops the CRLFs.
  function Continued(s: string): (r: (string, string))
    ensures |r.1| <= |s|
    decreases |s|
  {
    var i := FindCRLF(s);
    if s == "" || !IsWSP(s[0]) || i.None? then ("", s)
    else
      var (more, rest) := Continued(s[i.value + 2..]);
      (s[..i.value] + more, rest)
  }

  function FindColon(s: string): (i: Option<nat>)
    ensures i.Some? ==> i.value < |s|
  {
    if s == "" then None
    else if s[0] == ':' then Some(0)
    else
      match FindColon(s[1..])
      case None => None
      case Some(i) => Some(i + 1)
  }

  // A field name is printable ASCII without the colon.
  predicate IsFieldName(s: string) {
    s != "" && forall c :: c in s ==> '!' <= c <= '~' && c != ':'
  }

  // name ":" body, less the one space that conventionally follows the colon
  function ParseField(line: string): Option<Field> {
    match FindColon(line)
    case None => None
    case Some(i) =>
      if !IsFieldName(line[..i]) then None
      else
        var body := line[i + 1..];
        Some(Field(line[..i], if body != "" && body[0] == ' ' then body[1..] else body))
  }

  // Header fields up to the empty line, then the body.
  function ReadMessage(s: string): Parsed
    decreases |s|
  {
    match FindCRLF(s)
    case None => Malformed
    case Some(i) =>
      if i == 0 then Mail([], s[2..])
      else
        var (more, rest) := Continued(s[i + 2..]);
        match ParseField(s[..i] + more)
        case None => Malformed
        case Some(f) =>
          match ReadMessage(rest)
          case Malformed => Malformed
          case Mail(fields, body) => Mail([f] + fields, body)
  }
}
