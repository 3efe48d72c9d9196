/** The string functions the form relies on, over ASCII text. */
module Text {
  datatype Option<+T> = None | Some(value: T)

  predicate IsSpace(c: char) {
    c == ' ' || '\t' <= c <= '\r'
  }

  function LowerChar(c: char): char {
    if 'A' <= c <= 'Z' then c + ' ' else c
  }

  function ToLower(s: string): string {
    seq(|s|, i requires 0 <= i < |s| => LowerChar(s[i]))
  }

  function TrimLeft(s: string): string {
    if s != [] && IsSpace(s[0]) then TrimLeft(s[1..]) else s
  }

  function TrimRight(s: string): string {
    if s != [] && IsSpace(s[|s| - 1]) then TrimRight(s[..|s| - 1]) else s
  }

  // strings.TrimSpace
  function Trim(s: string): string {
    TrimRight(TrimLeft(s))
  }

  predicate Trimmed(s: string) {
    s == [] || (!IsSpace(s[0]) && !IsSpace(s[|s| - 1]))
  }

  predicate IsLower(s: string) {
    ToLower(s) == s
  }

  predicate HasSuffix(s: string, suffix: string) {
    |suffix| <= |s| && s[|s| - |suffix|..] == suffix
  }

  // No line ending inside.
  predicate NoBreak(s: string) {
    '\r' !in s && '\n' !in s
  }

  function Count(s: string, c: char): nat {
    if s == [] then 0 else Count(s[1..], c) + (if s[0] == c then 1 else 0)
  }

  // strings.Split on a one-character separator
  function Split(s: string, sep: char): (parts: seq<string>)
    ensures parts != []
  {
    if s == [] then [[]] else Glue(s[0], sep, Split(s[1..], sep))
  }

  // One more character in front: it opens a new part, or extends the first one.
  function Glue(c: char, sep: char, parts: seq<string>): (r: seq<string>)
    requires parts != []
    ensures r != []
  {
    if c == sep then [[]] + parts else [[c] + parts[0]] + parts[1..]
  }

  function TruncateRunes(s: string, n: nat): string {
    if |s| <= n then s else if n <= 1 then "\U{2026}" else s[..n - 1] + "\U{2026}"
  }

  // ---- concatenation ------------------------------------------------------------------

  lemma TailAppend<T>(a: seq<T>, b: seq<T>)
    requires a != []
    ensures (a + b)[0] == a[0] && (a + b)[1..] == a[1..] + b
  {
  }

  lemma Associate<T>(a: seq<T>, b: seq<T>, c: seq<T>)
    ensures (a + b) + c == a + (b + c)
  {
  }

  lemma NothingBefore<T>(b: seq<T>)
    ensures [] + b == b
  {
  }

  // ---- trimming and lower-casing ---------------------------------------------------

  lemma {:induction false} TrimLeftFacts(s: string)
    ensures exists i :: 0 <= i <= |s| && TrimLeft(s) == s[i..]
    ensures TrimLeft(s) == [] || !IsSpace(TrimLeft(s)[0])
  {
    if s != [] && IsSpace(s[0]) {
      TrimLeftFacts(s[1..]);
      var i :| 0 <= i <= |s[1..]| && TrimLeft(s[1..]) == s[1..][i..];
      assert s[1..][i..] == s[i + 1..];
    } else {
      assert s == s[0..];
    }
  }

  lemma {:induction false} TrimRightFacts(s: string)
    ensures exists i :: 0 <= i <= |s| && TrimRight(s) == s[..i]
    ensures TrimRight(s) == [] || !IsSpace(TrimRight(s)[|TrimRight(s)| - 1])
  {
    if s != [] && IsSpace(s[|s| - 1]) {
      TrimRightFacts(s[..|s| - 1]);
      var i :| 0 <= i <= |s[..|s| - 1]| && TrimRight(s[..|s| - 1]) == s[..|s| - 1][..i];
      assert s[..|s| - 1][..i] == s[..i];
    } else {
      assert s == s[..|s|];
    }
  }

  // Trim cuts a contiguous piece out of its argument, with no space at either end.
  lemma TrimFacts(s: string)
    ensures Trimmed(Trim(s)) && |Trim(s)| <= |s|
    ensures forall c :: c in Trim(s) ==> c in s
  {
    TrimLeftFacts(s);
    TrimRightFacts(TrimLeft(s));
  }

  lemma TrimFixed(s: string)
    requires Trimmed(s)
    ensures Trim(s) == s
  {
  }

  // What is cut off is white space, and all of it: blanks, and TAB to CR.
  lemma TrimIsExact(s: string) returns (before: string, after: string)
    ensures s == before + Trim(s) + after
    ensures forall c :: c in before || c in after ==> c == ' ' || '\t' <= c <= '\r'
    ensures Trim(s) != "" ==> Trim(s)[0] != ' ' && !('\t' <= Trim(s)[0] <= '\r')
    ensures Trim(s) != "" ==> var z := Trim(s)[|Trim(s)| - 1]; z != ' ' && !('\t' <= z <= '\r')
  {
    before := CutLeft(s);
    after := CutRight(TrimLeft(s));
    assert s == before + (Trim(s) + after);
    TrimFacts(s);
  }

  lemma {:induction false} CutLeft(s: string) returns (before: string)
    ensures s == before + TrimLeft(s) && forall c :: c in before ==> IsSpace(c)
  {
    before := "";
    if s != [] && IsSpace(s[0]) {
      before := CutLeft(s[1..]);
      before := [s[0]] + before;
      assert s == [s[0]] + s[1..];
    }
  }

  lemma {:induction false} CutRight(s: string) returns (after: string)
    ensures s == TrimRight(s) + after && forall c :: c in after ==> IsSpace(c)
  {
    after := "";
    if s != [] && IsSpace(s[|s| - 1]) {
      var n := |s| - 1;
      after := CutRight(s[..n]);
      assert s == s[..n] + [s[n]];
      after := after + [s[n]];
    }
  }

  // Nothing but white space trims to nothing.
  lemma TrimsToNothingIff(s: string)
    ensures Trim(s) == "" <==> forall c :: c in s ==> c == ' ' || '\t' <= c <= '\r'
  {
    var before, after := TrimIsExact(s);
    if Trim(s) != "" {
      assert Trim(s)[0] in s;
    }
  }

  // Only the letters A to Z change, each to the letter 32 places on.
  lemma LowerIsExact(s: string)
    ensures |ToLower(s)| == |s|
    ensures forall i :: 0 <= i < |s| ==>
              ToLower(s)[i] as int == s[i] as int + (if 'A' <= s[i] <= 'Z' then 32 else 0)
  {
  }

  lemma LowerFacts(s: string)
    ensures IsLower(ToLower(s)) && |ToLower(s)| == |s|
    ensures IsLower(s) <==> forall c :: c in s ==> LowerChar(c) == c
  {
    if IsLower(s) {
      forall c | c in s ensures LowerChar(c) == c {
        var i :| 0 <= i < |s| && s[i] == c;
        assert ToLower(s)[i] == s[i];
      }
    }
  }

  lemma TrimKeepsLower(s: string)
    requires IsLower(s)
    ensures IsLower(Trim(s))
  {
    TrimFacts(s);
    LowerFacts(s);
    LowerFacts(Trim(s));
  }

  // ---- splitting and counting ---------------------------------------------------------

  lemma GlueAppend(c: char, sep: char, parts: seq<string>, more: seq<string>)
    requires parts != []
    ensures Glue(c, sep, parts + more) == Glue(c, sep, parts) + more
  {
    assert (parts + more)[1..] == parts[1..] + more;
  }

  lemma {:induction false} SplitAppend(p: string, s: string, sep: char)
    ensures Split(p + [sep] + s, sep) == Split(p, sep) + Split(s, sep)
  {
    if p == [] {
      assert ([] + [sep] + s)[1..] == s;
    } else {
      hide Glue;
      SplitAppend(p[1..], s, sep);
      assert (p + [sep] + s)[1..] == p[1..] + [sep] + s;
      GlueAppend(p[0], sep, Split(p[1..], sep), Split(s, sep));
    }
  }

  lemma {:induction false} CountAppend(a: string, b: string, c: char)
    ensures Count(a + b, c) == Count(a, c) + Count(b, c)
  {
    if a == [] {
      assert a + b == b;
    } else {
      CountAppend(a[1..], b, c);
      assert (a + b)[1..] == a[1..] + b;
    }
  }

  lemma {:induction false} CountZero(s: string, c: char)
    ensures Count(s, c) == 0 <==> c !in s
  {
    if s != [] {
      CountZero(s[1..], c);
      assert s == [s[0]] + s[1..];
    }
  }

  // Parts put together again with the separator between them.
  function Join(parts: seq<string>, sep: string): string
    requires parts != []
  {
    if |parts| == 1 then parts[0] else parts[0] + sep + Join(parts[1..], sep)
  }

  lemma {:induction false} JoinAppend(parts: seq<string>, last: string, sep: string)
    requires parts != []
    ensures Join(parts + [last], sep) == Join(parts, sep) + sep + last
  {
    if |parts| > 1 {
      JoinAppend(parts[1..], last, sep);
      assert (parts + [last])[1..] == parts[1..] + [last];
    } else {
      assert (parts + [last])[1..] == [last];
    }
  }

  lemma {:induction false} SplitWhole(s: string, sep: char)
    requires sep !in s
    ensures Split(s, sep) == [s]
  {
    if s != [] {
      SplitWhole(s[1..], sep);
      assert s == [s[0]] + s[1..];
    }
  }

  // Splitting undoes joining.
  lemma {:induction false} SplitJoin(parts: seq<string>, sep: char)
    requires parts != [] && forall p :: p in parts ==> sep !in p
    ensures Split(Join(parts, [sep]), sep) == parts
  {
    SplitWhole(parts[0], sep);
    if |parts| > 1 {
      SplitJoin(parts[1..], sep);
      SplitAppend(parts[0], Join(parts[1..], [sep]), sep);
    }
  }

  // Exactly one occurrence.
  lemma CountsOneIff(s: string, c: char)
    ensures Count(s, c) == 1 <==>
            exists before, after :: s == before + [c] + after && c !in before && c !in after
  {
    if Count(s, c) == 1 {
      var before, after := OneOccurrence(s, c);
    }
    if before, after :| s == before + [c] + after && c !in before && c !in after {
      CountAppend(before + [c], after, c);
      CountAppend(before, [c], c);
      CountZero(before, c);
      CountZero(after, c);
    }
  }

  lemma {:induction false} OneOccurrence(s: string, c: char) returns (before: string, after: string)
    requires Count(s, c) == 1
    ensures s == before + [c] + after && c !in before && c !in after
  {
    if s[0] == c {
      CountZero(s[1..], c);
      before, after := "", s[1..];
    } else {
      before, after := OneOccurrence(s[1..], c);
      before := [s[0]] + before;
    }
  }
}
