/** The RFC 5322 reader undoes rfc822. */
module MailRoundTrip {
  import opened Sorting
  import opened Text
  import opened MailFormat
  import opened HeaderReader

  // ---- one header line -----------------------------------------------------------------------

  lemma {:induction false} FirstCRLF(line: string, rest: string)
    requires '\r' !in line
    ensures FindCRLF(line + CRLF + rest) == Some(|line|)
  {
    var t := line + CRLF + rest;
    if line == "" {
      assert t == CRLF + rest && t[0] == '\r' && t[1] == '\n';
    } else {
      assert t[0] == line[0] && t[0] in line;
      assert t[1..] == line[1..] + CRLF + rest;
      FirstCRLF(line[1..], rest);
    }
  }

  lemma {:induction false} FirstColon(name: string, rest: string)
    requires ':' !in name
    ensures FindColon(name + ":" + rest) == Some(|name|)
  {
    var t := name + ":" + rest;
    if name == "" {
      assert t == ":" + rest;
    } else {
      assert t[0] == name[0] && t[0] in name;
      assert t[1..] == name[1..] + ":" + rest;
      FirstColon(name[1..], rest);
    }
  }

  // A header that one line can carry.
  predicate Legal(h: Header) {
    IsFieldName(h.name) && NoBreak(h.value)
  }

  function AsField(h: Header): Field {
    Field(h.name, h.value)
  }

  function AsFields(hs: seq<Header>): seq<Field> {
    if hs == [] then [] else [AsField(hs[0])] + AsFields(hs[1..])
  }

  lemma LineParses(h: Header)
    requires Legal(h)
    ensures ParseField(h.name + ": " + h.value) == Some(AsField(h))
  {
    var line := h.name + ": " + h.value;
    assert line == h.name + ":" + (" " + h.value);
    FirstColon(h.name, " " + h.value);
    assert line[..|h.name|] == h.name && line[|h.name| + 1..] == " " + h.value;
    assert (" " + h.value)[1..] == h.value;
  }

  // What follows a header line is never white space, so nothing is ever unfolded.
  predicate StartsFresh(s: string) {
    s == "" || !IsWSP(s[0])
  }

  lemma LineReads(h: Header, rest: string)
    requires Legal(h) && StartsFresh(rest)
    ensures StartsFresh(Line(h) + rest)
    ensures ReadMessage(Line(h) + rest) ==
            match ReadMessage(rest)
            case Malformed => Malformed
            case Mail(fields, body) => Mail([AsField(h)] + fields, body)
  {
    var line := h.name + ": " + h.value;
    var t := Line(h) + rest;
    assert t == line + CRLF + rest;
    assert h.name[0] in h.name && t[0] == h.name[0];
    FirstCRLF(line, rest);
    assert t[..|line|] == line && t[|line| + 2..] == rest;
    LineParses(h);
    assert line + "" == line;
  }

  lemma {:induction false} HeadersRead(hs: seq<Header>, rest: string, fields: seq<Field>, body: string)
    requires forall h :: h in hs ==> Legal(h)
    requires StartsFresh(rest) && ReadMessage(rest) == Mail(fields, body)
    ensures StartsFresh(Render(hs) + rest)
    ensures ReadMessage(Render(hs) + rest) == Mail(AsFields(hs) + fields, body)
  {
    hide ReadMessage, Line, Legal;
    if hs == [] {
      assert "" + rest == rest && [] + fields == fields;
    } else {
      var before, h := hs[..|hs| - 1], hs[|hs| - 1];
      assert hs == before + [h];
      LineReads(h, rest);
      HeadersRead(before, Line(h) + rest, [AsField(h)] + fields, body);
      assert Render(before) + (Line(h) + rest) == Render(hs) + rest;
      AsFieldsAppend(before, h);
      assert AsFields(before) + ([AsField(h)] + fields) == AsFields(hs) + fields;
    }
  }

  lemma {:induction false} AsFieldsAppend(hs: seq<Header>, h: Header)
    ensures AsFields(hs + [h]) == AsFields(hs) + [AsField(h)]
  {
    if hs == [] {
      assert [h][1..] == [];
    } else {
      AsFieldsAppend(hs[1..], h);
      assert (hs + [h])[1..] == hs[1..] + [h];
    }
  }

  // ---- header values -----------------------------------------------------------------------

  lemma {:induction false} StripsBreaks(s: string)
    ensures NoBreak(StripCRLF(s))
    ensures NoBreak(s) ==> StripCRLF(s) == s
  {
    if s != "" {
      StripsBreaks(s[1..]);
      assert s == [s[0]] + s[1..];
    }
  }

  lemma {:induction false} StripAppend(a: string, b: string)
    ensures StripCRLF(a + b) == StripCRLF(a) + StripCRLF(b)
  {
    if a == "" {
      NothingBefore(b);
      NothingBefore(StripCRLF(b));
    } else {
      StripAppend(a[1..], b);
      StripFirst(a);
      StripFirst(a + b);
      hide StripCRLF;
      TailAppend(a, b);
      Associate(if a[0] == '\r' || a[0] == '\n' then "" else [a[0]], StripCRLF(a[1..]), StripCRLF(b));
    }
  }

  lemma StripFirst(s: string)
    requires s != ""
    ensures StripCRLF(s) == (if s[0] == '\r' || s[0] == '\n' then "" else [s[0]]) + StripCRLF(s[1..])
  {
  }

  // Exactly the CRs and LFs go.
  lemma StripsOnlyBreaks(before: string, c: char, after: string)
    ensures StripCRLF("") == ""
    ensures StripCRLF(before + [c] + after) ==
            StripCRLF(before) + (if c == '\r' || c == '\n' then "" else [c]) + StripCRLF(after)
  {
    StripAppend(before + [c], after);
    StripAppend(before, [c]);
    assert [c][1..] == "";
  }

  lemma NoBreakConcat(a: string, b: string)
    requires NoBreak(a) && NoBreak(b)
    ensures NoBreak(a + b)
  {
  }

  // The extra header names are legal field names (section 2.2 of RFC 5322).
  predicate LegalNames(m: Message) {
    forall k :: k in m.headers ==> IsFieldName(k)
  }

  lemma AddressHeadersLegal(m: Message, t: Stamp)
    requires t.Valid()
    ensures forall h :: h in AddressHeaders(m, t) ==> Legal(h)
  {
    hide NoBreak, StripCRLF, FromValue;
    FromIsOneLine(m, t);
    StripsBreaks(m.to);
    StripsBreaks(m.replyTo);
    AddressNamesLegal();
    hide IsFieldName;
  }

  lemma FromIsOneLine(m: Message, t: Stamp)
    requires t.Valid()
    ensures NoBreak(FromValue(m, t))
  {
    hide StripCRLF;
    StripsBreaks(m.fromAddr);
    NoBreakConcat(t.encode(m.fromName), " <");
    NoBreakConcat(t.encode(m.fromName) + " <", StripCRLF(m.fromAddr));
    NoBreakConcat(t.encode(m.fromName) + " <" + StripCRLF(m.fromAddr), ">");
  }

  lemma AddressNamesLegal()
    ensures IsFieldName("From") && IsFieldName("To") && IsFieldName("Reply-To")
  {
  }

  lemma TimeNamesLegal()
    ensures IsFieldName("Subject") && IsFieldName("Date") && IsFieldName("Message-ID")
  {
  }

  lemma MimeNamesLegal()
    ensures IsFieldName("MIME-Version") && IsFieldName("Content-Type") && IsFieldName("Content-Transfer-Encoding")
  {
  }

  lemma MimeValuesLegal()
    ensures NoBreak("1.0") && NoBreak("text/plain; charset=utf-8") && NoBreak("8bit")
  {
  }

  lemma FixedHeadersLegal(m: Message, t: Stamp)
    requires t.Valid()
    ensures forall h :: h in FixedHeaders(m, t) ==> Legal(h)
  {
    IdIsOneLine(m, t);
    TimeNamesLegal();
    MimeNamesLegal();
    MimeValuesLegal();
    hide IsFieldName, NoBreak;
  }

  lemma IdIsOneLine(m: Message, t: Stamp)
    requires t.Valid()
    ensures NoBreak("<" + t.nanos + "." + StripCRLF(m.fromAddr) + ">")
  {
    StripsBreaks(m.fromAddr);
    NoBreakConcat("<", t.nanos);
    NoBreakConcat("<" + t.nanos, ".");
    NoBreakConcat("<" + t.nanos + ".", StripCRLF(m.fromAddr));
    NoBreakConcat("<" + t.nanos + "." + StripCRLF(m.fromAddr), ">");
  }

  lemma ExtraHeadersLegal(m: Message, ks: seq<string>)
    requires LegalNames(m) && forall k :: k in ks ==> k in m.headers
    ensures forall h :: h in ExtraHeaders(m, ks) ==> Legal(h)
  {
    forall i | 0 <= i < |ks| ensures Legal(ExtraHeaders(m, ks)[i]) {
      assert IsFieldName(ks[i]);
      StripsBreaks(ks[i]);
      StripsBreaks(m.headers[ks[i]]);
    }
  }

  // ---- the body ------------------------------------------------------------------------------

  // Every CRLF becomes LF, from the left.
  function FromCRLF(s: string): string {
    if s == "" then ""
    else if |s| >= 2 && s[0] == '\r' && s[1] == '\n' then "\n" + FromCRLF(s[2..])
    else [s[0]] + FromCRLF(s[1..])
  }

  lemma {:induction false} BodyRoundTrip(s: string)
    ensures FromCRLF(ToCRLF(s)) == s
    ensures ToCRLF(s) == "" || ToCRLF(s)[0] == (if s[0] == '\n' then '\r' else s[0])
  {
    if s != "" {
      BodyRoundTrip(s[1..]);
      var t, rest := ToCRLF(s), ToCRLF(s[1..]);
      if s[0] == '\n' {
        assert t == CRLF + rest && t[2..] == rest;
        assert s == "\n" + s[1..];
      } else {
        assert t == [s[0]] + rest && t[1..] == rest;
        assert s == [s[0]] + s[1..];
      }
    }
  }

  // Every LF is preceded by a CR.
  predicate LFsFollowCR(s: string) {
    forall i :: 0 <= i < |s| && s[i] == '\n' ==> i > 0 && s[i - 1] == '\r'
  }

  // A CR that no LF follows: forbidden by section 2.3 of RFC 5322.
  ghost predicate HasBareCR(s: string) {
    exists i :: 0 <= i < |s| && BareCRAt(s, i)
  }

  ghost predicate BareCRAt(s: string, i: nat) {
    i < |s| && s[i] == '\r' && (i + 1 == |s| || s[i + 1] != '\n')
  }

  lemma {:induction false} BodyLineEndings(s: string)
    ensures LFsFollowCR(ToCRLF(s))
    ensures HasBareCR(ToCRLF(s)) <==> '\r' in s
  {
    if s != "" {
      BodyLineEndings(s[1..]);
      BodyRoundTrip(s[1..]);
      var t, rest := ToCRLF(s), ToCRLF(s[1..]);
      var head := if s[0] == '\n' then CRLF else [s[0]];
      assert t == head + rest && s == [s[0]] + s[1..];
      BareCRInTail(head, rest);
      if s[0] == '\r' {
        assert BareCRAt(t, 0);
      }
    }
  }

  // Prefixing a piece that ends no CRLF adds a bare CR only if it has one itself.
  lemma BareCRInTail(head: string, rest: string)
    requires head == CRLF || (|head| == 1 && head[0] != '\n')
    requires rest == "" || rest[0] != '\n'
    ensures HasBareCR(head + rest) <==> HasBareCR(rest) || head == "\r"
  {
    var t := head + rest;
    if HasBareCR(rest) {
      var i :| 0 <= i < |rest| && BareCRAt(rest, i);
      assert BareCRAt(t, |head| + i);
    }
    if head == "\r" {
      assert BareCRAt(t, 0);
    }
    if HasBareCR(t) {
      var i :| 0 <= i < |t| && BareCRAt(t, i);
      if i >= |head| {
        assert BareCRAt(rest, i - |head|);
      }
    }
  }

  // ---- the whole message ------------------------------------------------------------------------

  lemma IntendedLegal(m: Message, t: Stamp, ks: seq<string>)
    requires t.Valid() && LegalNames(m) && forall k :: k in ks ==> k in m.headers
    ensures forall h :: h in Intended(m, t, ks) ==> Legal(h)
  {
    hide Legal, AddressHeaders, FixedHeaders, ExtraHeaders;
    AddressHeadersLegal(m, t);
    FixedHeadersLegal(m, t);
    ExtraHeadersLegal(m, ks);
  }

  lemma EmptyLineEndsHeaders(body: string)
    ensures StartsFresh(CRLF + body) && ReadMessage(CRLF + body) == Mail([], body)
  {
    FirstCRLF("", body);
    assert "" + CRLF + body == CRLF + body && (CRLF + body)[2..] == body;
  }

  // The reader recovers exactly the intended header list, in order, and then a body that
  // turns back into the original when CRLF is read as LF.
  lemma MessageRoundTrip(m: Message, t: Stamp, ks: seq<string>)
    requires t.Valid() && LegalNames(m) && forall k :: k in ks ==> k in m.headers
    ensures var r := ReadMessage(Printed(m, t, ks));
            && r.Mail?
            && r.fields == AsFields(Intended(m, t, ks))
            && FromCRLF(r.body) == m.body
  {
    hide Legal, Intended, Render, AsFields, ToCRLF, FromCRLF;
    IntendedLegal(m, t, ks);
    BodyRoundTrip(m.body);
    var rest := CRLF + ToCRLF(m.body);
    EmptyLineEndsHeaders(ToCRLF(m.body));
    hide ReadMessage, StartsFresh;
    HeadersRead(Intended(m, t, ks), rest, [], ToCRLF(m.body));
    assert Render(Intended(m, t, ks)) + CRLF + ToCRLF(m.body) == Render(Intended(m, t, ks)) + rest;
    assert AsFields(Intended(m, t, ks)) + [] == AsFields(Intended(m, t, ks));
  }

  // What the reader finds, in the message's own terms: each header under its name, in order.
  lemma HeadersInWords(m: Message, t: Stamp, ks: seq<string>, b: string)
    requires t.Valid() && LegalNames(m) && Prints(m, t, ks, b)
    ensures ReadMessage(b).Mail?
    ensures ReadMessage(b).fields ==
            [Field("From", if m.fromName == "" then StripCRLF(m.fromAddr)
                           else t.encode(m.fromName) + " <" + StripCRLF(m.fromAddr) + ">"),
             Field("To", StripCRLF(m.to))] +
            (if m.replyTo == "" then [] else [Field("Reply-To", StripCRLF(m.replyTo))]) +
            [Field("Subject", t.encode(m.subject)),
             Field("Date", t.date),
             Field("Message-ID", "<" + t.nanos + "." + StripCRLF(m.fromAddr) + ">"),
             Field("MIME-Version", "1.0"),
             Field("Content-Type", "text/plain; charset=utf-8"),
             Field("Content-Transfer-Encoding", "8bit")] +
            seq(|ks|, i requires 0 <= i < |ks| => Field(ks[i], StripCRLF(m.headers[ks[i]])))
    ensures FromCRLF(ReadMessage(b).body) == m.body
  {
    MessageRoundTrip(m, t, ks);
    hide StripCRLF, ReadMessage, IsFieldName;
    AsFieldsConcat(AddressHeaders(m, t) + FixedHeaders(m, t), ExtraHeaders(m, ks));
    AsFieldsConcat(AddressHeaders(m, t), FixedHeaders(m, t));
    AddressFields(m, t);
    FixedFields(m, t);
    ExtraFields(m, ks);
    hide AddressHeaders, FixedHeaders, ExtraHeaders, AsFields;
  }

  lemma {:induction false} AsFieldsConcat(a: seq<Header>, b: seq<Header>)
    ensures AsFields(a + b) == AsFields(a) + AsFields(b)
  {
    hide AsField;
    if a == [] {
      NothingBefore(b);
      NothingBefore(AsFields(b));
    } else {
      AsFieldsConcat(a[1..], b);
      AsFieldsFirst(a);
      AsFieldsFirst(a + b);
      hide AsFields;
      TailAppend(a, b);
      Associate([AsField(a[0])], AsFields(a[1..]), AsFields(b));
    }
  }

  lemma AsFieldsFirst(hs: seq<Header>)
    requires hs != []
    ensures AsFields(hs) == [AsField(hs[0])] + AsFields(hs[1..])
  {
  }

  lemma {:induction false} AsFieldsAt(hs: seq<Header>)
    ensures |AsFields(hs)| == |hs| && forall i :: 0 <= i < |hs| ==> AsFields(hs)[i] == Field(hs[i].name, hs[i].value)
  {
    if hs != [] {
      AsFieldsAt(hs[1..]);
    }
  }

  lemma AddressFields(m: Message, t: Stamp)
    ensures AsFields(AddressHeaders(m, t)) ==
            [Field("From", if m.fromName == "" then StripCRLF(m.fromAddr)
                           else t.encode(m.fromName) + " <" + StripCRLF(m.fromAddr) + ">"),
             Field("To", StripCRLF(m.to))] +
            (if m.replyTo == "" then [] else [Field("Reply-To", StripCRLF(m.replyTo))])
  {
    hide StripCRLF, AsFields;
    AsFieldsAt(AddressHeaders(m, t));
  }

  lemma FixedFields(m: Message, t: Stamp)
    ensures AsFields(FixedHeaders(m, t)) ==
            [Field("Subject", t.encode(m.subject)),
             Field("Date", t.date),
             Field("Message-ID", "<" + t.nanos + "." + StripCRLF(m.fromAddr) + ">"),
             Field("MIME-Version", "1.0"),
             Field("Content-Type", "text/plain; charset=utf-8"),
             Field("Content-Transfer-Encoding", "8bit")]
  {
    hide StripCRLF, AsFields;
    AsFieldsAt(FixedHeaders(m, t));
  }

  lemma ExtraFields(m: Message, ks: seq<string>)
    requires LegalNames(m) && forall k :: k in ks ==> k in m.headers
    ensures AsFields(ExtraHeaders(m, ks)) ==
            seq(|ks|, i requires 0 <= i < |ks| => Field(ks[i], StripCRLF(m.headers[ks[i]])))
  {
    hide StripCRLF, AsFields;
    AsFieldsAt(ExtraHeaders(m, ks));
    forall i | 0 <= i < |ks| ensures StripCRLF(ks[i]) == ks[i] {
      NameHasNoBreak(ks[i]);
      StripsBreaks(ks[i]);
    }
  }

  lemma NameHasNoBreak(name: string)
    requires IsFieldName(name)
    ensures NoBreak(name)
  {
  }

  // The texts under one name, in order.
  function ValuesOf(fields: seq<Field>, name: string): seq<string> {
    if fields == [] then []
    else (if fields[0].name == name then [fields[0].body] else []) + ValuesOf(fields[1..], name)
  }

  lemma {:induction false} NoValue(fields: seq<Field>, name: string)
    requires forall f :: f in fields ==> f.name != name
    ensures ValuesOf(fields, name) == []
  {
    if fields != [] {
      NoValue(fields[1..], name);
    }
  }

  lemma {:induction false} OneValue(fields: seq<Field>, f: Field)
    requires DistinctNames(fields) && f in fields
    ensures ValuesOf(fields, f.name) == [f.body]
  {
    if fields[0] == f {
      assert forall g :: g in fields[1..] ==> exists i :: 1 <= i < |fields| && fields[i] == g;
      NoValue(fields[1..], f.name);
    } else {
      var i :| 0 <= i < |fields| && fields[i] == f;
      assert fields[1..][i - 1] == f;
      OneValue(fields[1..], f);
    }
  }

  predicate DistinctNames(fields: seq<Field>) {
    forall i, j :: 0 <= i < j < |fields| ==> fields[i].name != fields[j].name
  }

  const STANDARD_NAMES := ["From", "To", "Reply-To", "Subject", "Date", "Message-ID",
                           "MIME-Version", "Content-Type", "Content-Transfer-Encoding"]

  lemma StandardNamesDiffer(i: nat, j: nat)
    requires i < j < 9
    ensures STANDARD_NAMES[i] != STANDARD_NAMES[j]
  {
    assert |"From"| == 4 && |"To"| == 2 && |"Reply-To"| == 8 && |"Subject"| == 7 && |"Date"| == 4;
    assert |"Message-ID"| == 10 && |"MIME-Version"| == 12 && |"Content-Type"| == 12;
    assert |"Content-Transfer-Encoding"| == 25;
    assert "From"[0] != "Date"[0] && "MIME-Version"[0] != "Content-Type"[0];
  }

  // fields[i] has the name at position at[i] of the standard ones, in rising order.
  lemma RisingNamesDiffer(fields: seq<Field>, at: seq<nat>)
    requires |at| == |fields| && forall i :: 0 <= i < |at| ==> at[i] < 9 && fields[i].name == STANDARD_NAMES[at[i]]
    requires forall i, j :: 0 <= i < j < |at| ==> at[i] < at[j]
    ensures DistinctNames(fields) && forall f :: f in fields ==> f.name in STANDARD_NAMES
  {
    forall i, j | 0 <= i < j < |fields| ensures fields[i].name != fields[j].name {
      StandardNamesDiffer(at[i], at[j]);
    }
  }

  lemma DistinctConcat(a: seq<Field>, b: seq<Field>)
    requires DistinctNames(a) && DistinctNames(b)
    requires forall x, y :: x in a && y in b ==> x.name != y.name
    ensures DistinctNames(a + b)
  {
  }

  ghost function StandardFields(m: Message, t: Stamp): seq<Field> {
    AsFields(AddressHeaders(m, t)) + AsFields(FixedHeaders(m, t))
  }

  // Where each standard field stands among the standard names.
  function Places(m: Message): seq<nat> {
    (if m.replyTo == "" then [0, 1] else [0, 1, 2]) + [3, 4, 5, 6, 7, 8]
  }

  lemma FieldsInPlace(m: Message, t: Stamp)
    ensures var fields, at := StandardFields(m, t), Places(m);
            |at| == |fields| && forall i :: 0 <= i < |at| ==> at[i] < 9 && fields[i].name == STANDARD_NAMES[at[i]]
  {
    hide StripCRLF, AsFields;
    AddressFields(m, t);
    FixedFields(m, t);
    hide AddressHeaders, FixedHeaders;
    var address, fixed := AsFields(AddressHeaders(m, t)), AsFields(FixedHeaders(m, t));
    forall i | 0 <= i < |fixed| ensures fixed[i].name == STANDARD_NAMES[3 + i] {
    }
  }

  lemma StandardFieldsDistinct(m: Message, t: Stamp)
    ensures DistinctNames(StandardFields(m, t)) && forall f :: f in StandardFields(m, t) ==> f.name in STANDARD_NAMES
  {
    hide StandardFields;
    FieldsInPlace(m, t);
    RisingNamesDiffer(StandardFields(m, t), Places(m));
  }

  lemma SortedKeysDiffer(m: map<string, string>, ks: seq<string>, i: nat, j: nat)
    requires IsSortedKeys(m, ks) && i < j < |ks|
    ensures ks[i] != ks[j]
  {
    if ks[i] == ks[j] {
      CountOfTwo(ks, i, j);
      assert false;
    }
  }

  lemma ExtraFieldsDistinct(m: Message, ks: seq<string>)
    requires LegalNames(m) && IsSortedKeys(m.headers, ks) && forall k :: k in ks ==> k in m.headers
    ensures DistinctNames(AsFields(ExtraHeaders(m, ks)))
    ensures forall f :: f in AsFields(ExtraHeaders(m, ks)) ==> f.name in m.headers
    ensures forall k :: k in m.headers ==> Field(k, StripCRLF(m.headers[k])) in AsFields(ExtraHeaders(m, ks))
  {
    hide StripCRLF, AsFields, IsFieldName, SortedBy;
    ExtraFields(m, ks);
    var fields := AsFields(ExtraHeaders(m, ks));
    hide ExtraHeaders;
    forall i, j | 0 <= i < j < |ks| ensures fields[i].name != fields[j].name {
      SortedKeysDiffer(m.headers, ks, i, j);
    }
    forall k | k in m.headers ensures Field(k, StripCRLF(m.headers[k])) in fields {
      assert k in multiset(ks);
      var i :| 0 <= i < |ks| && ks[i] == k;
      assert fields[i] == Field(k, StripCRLF(m.headers[k]));
    }
  }

  // The service's own extra headers are X- headers.
  predicate KeepsOffStandardNames(m: Message) {
    forall k :: k in m.headers ==> k !in STANDARD_NAMES
  }

  lemma FieldsDistinct(m: Message, t: Stamp, ks: seq<string>, b: string)
    requires t.Valid() && LegalNames(m) && Prints(m, t, ks, b) && KeepsOffStandardNames(m)
    ensures ReadMessage(b).Mail?
    ensures ReadMessage(b).fields == StandardFields(m, t) + AsFields(ExtraHeaders(m, ks))
    ensures DistinctNames(ReadMessage(b).fields)
  {
    MessageRoundTrip(m, t, ks);
    hide StripCRLF, ReadMessage, IsFieldName;
    AsFieldsConcat(AddressHeaders(m, t) + FixedHeaders(m, t), ExtraHeaders(m, ks));
    AsFieldsConcat(AddressHeaders(m, t), FixedHeaders(m, t));
    StandardFieldsDistinct(m, t);
    ExtraFieldsDistinct(m, ks);
    hide AsFields, StandardFields, ExtraHeaders, DistinctNames;
    DistinctConcat(StandardFields(m, t), AsFields(ExtraHeaders(m, ks)));
  }

  lemma StandardFieldsPresent(m: Message, t: Stamp)
    ensures var fields := StandardFields(m, t);
            && Field("From", if m.fromName == "" then StripCRLF(m.fromAddr)
                             else t.encode(m.fromName) + " <" + StripCRLF(m.fromAddr) + ">") in fields
            && Field("To", StripCRLF(m.to)) in fields
            && (m.replyTo != "" ==> Field("Reply-To", StripCRLF(m.replyTo)) in fields)
            && Field("Subject", t.encode(m.subject)) in fields
            && Field("Date", t.date) in fields
            && Field("Message-ID", "<" + t.nanos + "." + StripCRLF(m.fromAddr) + ">") in fields
  {
    hide StripCRLF, AsFields;
    AddressFields(m, t);
    FixedFields(m, t);
    hide AddressHeaders, FixedHeaders;
    var address, fixed := AsFields(AddressHeaders(m, t)), AsFields(FixedHeaders(m, t));
    assert address[0] in address && address[1] in address && (m.replyTo != "" ==> address[2] in address);
    assert fixed[0] in fixed && fixed[1] in fixed && fixed[2] in fixed;
  }

  lemma NobodyToReplyTo(m: Message, t: Stamp)
    requires m.replyTo == ""
    ensures forall f :: f in StandardFields(m, t) ==> f.name != "Reply-To"
  {
    hide StandardFields;
    FieldsInPlace(m, t);
    var fields, at := StandardFields(m, t), Places(m);
    forall i | 0 <= i < |fields| ensures fields[i].name != STANDARD_NAMES[2] {
      StandardNamesDiffer(if at[i] < 2 then at[i] else 2, if at[i] < 2 then 2 else at[i]);
    }
  }

  lemma ValueIsFound(fields: seq<Field>, name: string, body: string)
    requires DistinctNames(fields) && Field(name, body) in fields
    ensures ValuesOf(fields, name) == [body]
  {
    OneValue(fields, Field(name, body));
  }

  lemma NoReplyToField(m: Message, t: Stamp, ks: seq<string>)
    requires LegalNames(m) && IsSortedKeys(m.headers, ks) && (forall k :: k in ks ==> k in m.headers)
    requires KeepsOffStandardNames(m) && m.replyTo == ""
    ensures ValuesOf(StandardFields(m, t) + AsFields(ExtraHeaders(m, ks)), "Reply-To") == []
  {
    hide StripCRLF, IsFieldName, ValuesOf, StandardFields, IsSortedKeys;
    ExtraFieldsDistinct(m, ks);
    NobodyToReplyTo(m, t);
    hide ExtraHeaders, AsFields;
    assert "Reply-To" == STANDARD_NAMES[2];
    NoValue(StandardFields(m, t) + AsFields(ExtraHeaders(m, ks)), "Reply-To");
  }

  lemma ExtraHeadersSayTheirOwn(m: Message, t: Stamp, ks: seq<string>, b: string)
    requires t.Valid() && LegalNames(m) && Prints(m, t, ks, b) && KeepsOffStandardNames(m)
    ensures ReadMessage(b).Mail?
    ensures forall k :: k in m.headers ==> ValuesOf(ReadMessage(b).fields, k) == [StripCRLF(m.headers[k])]
  {
    hide StripCRLF, ReadMessage, IsFieldName, ValuesOf, StandardFields, DistinctNames, IsSortedKeys;
    FieldsDistinct(m, t, ks, b);
    ExtraFieldsDistinct(m, ks);
    hide ExtraHeaders, AsFields;
    forall k | k in m.headers ensures ValuesOf(ReadMessage(b).fields, k) == [StripCRLF(m.headers[k])] {
      ValueIsFound(ReadMessage(b).fields, k, StripCRLF(m.headers[k]));
    }
  }

  // As long as the extra headers keep off the standard names, there is one recipient header and
  // it says m.to, a Reply-To if and only if the message has one, which it says, and so on; and
  // every extra header is there once, with its own value.
  lemma EachHeaderSaysItsOwn(m: Message, t: Stamp, ks: seq<string>, b: string)
    requires t.Valid() && LegalNames(m) && Prints(m, t, ks, b) && KeepsOffStandardNames(m)
    ensures ReadMessage(b).Mail?
    ensures var fields := ReadMessage(b).fields;
            && ValuesOf(fields, "To") == [StripCRLF(m.to)]
            && ValuesOf(fields, "Reply-To") == (if m.replyTo == "" then [] else [StripCRLF(m.replyTo)])
            && ValuesOf(fields, "From") ==
                 [if m.fromName == "" then StripCRLF(m.fromAddr)
                  else t.encode(m.fromName) + " <" + StripCRLF(m.fromAddr) + ">"]
            && ValuesOf(fields, "Message-ID") == ["<" + t.nanos + "." + StripCRLF(m.fromAddr) + ">"]
            && ValuesOf(fields, "Subject") == [t.encode(m.subject)]
            && ValuesOf(fields, "Date") == [t.date]
    ensures forall k :: k in m.headers ==> ValuesOf(ReadMessage(b).fields, k) == [StripCRLF(m.headers[k])]
  {
    hide StripCRLF, ReadMessage, IsFieldName, ValuesOf, StandardFields, DistinctNames, IsSortedKeys;
    FieldsDistinct(m, t, ks, b);
    StandardFieldsPresent(m, t);
    hide ExtraHeaders, AsFields, Prints;
    var fields := ReadMessage(b).fields;
    ExtraHeadersSayTheirOwn(m, t, ks, b);
    ValueIsFound(fields, "From", if m.fromName == "" then StripCRLF(m.fromAddr)
                                 else t.encode(m.fromName) + " <" + StripCRLF(m.fromAddr) + ">");
    ValueIsFound(fields, "To", StripCRLF(m.to));
    ValueIsFound(fields, "Subject", t.encode(m.subject));
    ValueIsFound(fields, "Date", t.date);
    ValueIsFound(fields, "Message-ID", "<" + t.nanos + "." + StripCRLF(m.fromAddr) + ">");
    if m.replyTo != "" {
      ValueIsFound(fields, "Reply-To", StripCRLF(m.replyTo));
    } else {
      NoReplyToField(m, t, ks);
    }
  }

  // A value on one line is said as it is.
  lemma CleanValuesAreKept(m: Message, t: Stamp, ks: seq<string>, b: string)
    requires t.Valid() && LegalNames(m) && Prints(m, t, ks, b) && KeepsOffStandardNames(m)
    requires NoBreak(m.to) && NoBreak(m.replyTo)
    ensures ReadMessage(b).Mail?
    ensures ValuesOf(ReadMessage(b).fields, "To") == [m.to]
    ensures ValuesOf(ReadMessage(b).fields, "Reply-To") == (if m.replyTo == "" then [] else [m.replyTo])
  {
    hide ReadMessage, IsFieldName, ValuesOf;
    EachHeaderSaysItsOwn(m, t, ks, b);
    StripsBreaks(m.to);
    StripsBreaks(m.replyTo);
  }

  // The bytes do not depend on the order the header map happens to iterate in.
  lemma OutputIsDeterministic(m: Message, t: Stamp, ks: seq<string>, ks': seq<string>, b: string, b': string)
    requires Prints(m, t, ks, b) && Prints(m, t, ks', b')
    ensures b == b'
  {
    SortedKeysAreUnique(m.headers, ks, ks');
  }

  // ---- line endings of the whole stream ------------------------------------------------------------

  // Complete lines: every LF follows a CR, no CR is bare, and the text ends in LF or is empty.
  ghost predicate CleanLines(s: string) {
    LFsFollowCR(s) && !HasBareCR(s) && (s != "" ==> s[|s| - 1] == '\n')
  }

  lemma CleanAppend(a: string, b: string)
    requires CleanLines(a) && LFsFollowCR(b) && (b != "" ==> b[0] != '\n')
    ensures LFsFollowCR(a + b)
    ensures HasBareCR(a + b) <==> HasBareCR(b)
  {
    var t := a + b;
    if HasBareCR(b) {
      var i :| 0 <= i < |b| && BareCRAt(b, i);
      assert BareCRAt(t, |a| + i);
    }
    if HasBareCR(t) {
      var i :| 0 <= i < |t| && BareCRAt(t, i);
      assert i + 1 < |a| ==> BareCRAt(a, i);
      if i >= |a| {
        assert BareCRAt(b, i - |a|);
      }
    }
  }

  lemma LineIsClean(h: Header)
    requires Legal(h)
    ensures CleanLines(Line(h)) && Line(h)[0] != '\n'
  {
    var text := h.name + ": " + h.value;
    var line := Line(h);
    assert line == text + CRLF && h.name[0] in h.name;
    assert NoBreak(h.name);
    NoBreakConcat(h.name, ": ");
    NoBreakConcat(h.name + ": ", h.value);
    forall i | 0 <= i < |text| ensures line[i] != '\r' && line[i] != '\n' {
      assert line[i] == text[i] && text[i] in text;
    }
  }

  lemma {:induction false} RenderIsClean(hs: seq<Header>)
    requires forall h :: h in hs ==> Legal(h)
    ensures CleanLines(Render(hs))
  {
    hide Legal, Line, HasBareCR, LFsFollowCR;
    if hs != [] {
      var before, h := hs[..|hs| - 1], hs[|hs| - 1];
      RenderIsClean(before);
      LineIsClean(h);
      CleanAppend(Render(before), Line(h));
    } else {
      EmptyIsClean();
    }
  }

  lemma EmptyIsClean()
    ensures CleanLines("")
  {
  }

  // In the whole stream every LF follows a CR.  The converse half of the line-ending rule
  // holds exactly when the body had no CR of its own: each one is sent bare.
  lemma StreamLineEndings(m: Message, t: Stamp, ks: seq<string>)
    requires t.Valid() && LegalNames(m) && forall k :: k in ks ==> k in m.headers
    ensures LFsFollowCR(Printed(m, t, ks))
    ensures HasBareCR(Printed(m, t, ks)) <==> '\r' in m.body
  {
    hide Legal, Intended, Render, HasBareCR, LFsFollowCR;
    IntendedLegal(m, t, ks);
    RenderIsClean(Intended(m, t, ks));
    BodyLineEndings(m.body);
    BodyRoundTrip(m.body);
    SeparatorLineEndings(ToCRLF(m.body));
    CleanAppend(Render(Intended(m, t, ks)), CRLF + ToCRLF(m.body));
    assert Printed(m, t, ks) == Render(Intended(m, t, ks)) + (CRLF + ToCRLF(m.body));
  }

  lemma SeparatorLineEndings(b: string)
    requires LFsFollowCR(b) && (b != "" ==> b[0] != '\n')
    ensures LFsFollowCR(CRLF + b) && (HasBareCR(CRLF + b) <==> HasBareCR(b))
  {
    BareCRInTail(CRLF, b);
  }

  // A body with the CRLF line breaks browsers submit is such a case.
  lemma BrowserLineBreaksAreDoubled()
    ensures ToCRLF("a\r\nb") == "a\r\r\nb" && HasBareCR(ToCRLF("a\r\nb"))
  {
    BodyLineEndings("a\r\nb");
    assert '\r' in "a\r\nb" by { assert "a\r\nb"[1] == '\r'; }
    assert "a\r\nb"[1..] == "\r\nb" && "\r\nb"[1..] == "\nb" && "\nb"[1..] == "b" && "b"[1..] == "";
    assert ToCRLF("b") == "b" && ToCRLF("\nb") == "\r\nb" && ToCRLF("\r\nb") == "\r\r\nb";
  }
}
