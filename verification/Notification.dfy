/** The notification mail of a submission (buildMessage of services/contact/server.go), from the
    form that was typed in to what the recipient's mail reader finds. */
module Notification {
  import opened Arith
  import opened Text
  import opened Submission
  import opened IssueFences
  import opened MailFormat
  import opened HeaderReader
  import opened MailRoundTrip

  // The mail side of the configuration.
  datatype Relay = Relay(recipient: string, fromAddress: string, fromName: string, wikiName: string)

  const KIND_HEADER := "X-CCC-Contact-Type"

  function Subject(s: Submission, wikiName: string): string {
    "[" + wikiName + "] " + KindLabel(s.kind) + " - " + TruncateRunes(s.summary, 120)
  }

  // body is the rendered template.
  function BuildMessage(c: Relay, s: Submission, body: string): Message {
    Message(c.fromName, c.fromAddress, c.recipient, s.email, Subject(s, c.wikiName), body,
            map[KIND_HEADER := KindName(s.kind)])
  }

  lemma KindHeaderIsLegal()
    ensures IsFieldName(KIND_HEADER)
  {
  }

  lemma KindHeaderIsNotStandard()
    ensures KIND_HEADER !in STANDARD_NAMES
  {
    assert |KIND_HEADER| == 18;
    assert |"From"| == 4 && |"To"| == 2 && |"Reply-To"| == 8 && |"Subject"| == 7 && |"Date"| == 4;
    assert |"Message-ID"| == 10 && |"MIME-Version"| == 12 && |"Content-Type"| == 12;
    assert |"Content-Transfer-Encoding"| == 25;
  }

  lemma KindNameIsOneLine(k: Kind)
    ensures NoBreak(KindName(k))
  {
  }

  // Whatever was typed into the form: if it is accepted, the mail that goes out reads back with
  // one recipient, the configured one, one Reply-To, the accepted address, and one kind header,
  // and its body is the rendered one.  Nothing typed in becomes a header.
  lemma AcceptedFormReadsBack(c: Relay, f: FormInput, p: Senders, parse: AddressParser, now: Time,
                              body: string, t: Stamp, ks: seq<string>, b: string)
    requires Validate(f, p, parse, now).Accepted? && t.Valid() && NoBreak(c.recipient)
    requires Prints(BuildMessage(c, Validate(f, p, parse, now).sub, body), t, ks, b)
    ensures var s, r := Validate(f, p, parse, now).sub, ReadMessage(b);
            && r.Mail?
            && ValuesOf(r.fields, "To") == [c.recipient]
            && ValuesOf(r.fields, "Reply-To") == [Trim(ToLower(f.email))]
            && ValuesOf(r.fields, "X-CCC-Contact-Type") == [KindName(s.kind)]
            && ValuesOf(r.fields, "Subject") == [t.encode(Subject(s, c.wikiName))]
            && |r.fields| == 10
            && FromCRLF(r.body) == body
  {
    hide Trim, ToLower, ReadMessage, ValuesOf, IsFieldName, KindName, Subject, Validate, IsSortedKeys;
    var s := Validate(f, p, parse, now).sub;
    var m := BuildMessage(c, s, body);
    AcceptedFieldsAreTheForms(f, p, parse, now);
    AcceptedIff(f, p, parse, now);
    KindHeaderIsLegal();
    KindHeaderIsNotStandard();
    KindNameIsOneLine(s.kind);
    StripsBreaks(c.recipient);
    StripsBreaks(s.email);
    StripsBreaks(KindName(s.kind));
    EachHeaderSaysItsOwn(m, t, ks, b);
    HeadersInWords(m, t, ks, b);
    OneExtraHeader(m, ks);
    hide StripCRLF;
  }

  lemma OneExtraHeader(m: Message, ks: seq<string>)
    requires IsSortedKeys(m.headers, ks) && |m.headers| == 1
    ensures |ks| == 1
  {
    assert |multiset(ks)| == |ks| && |multiset(m.headers.Keys)| == |m.headers.Keys| == |m.headers|;
  }

  // The subject line, in words: the wiki's name, the kind's label and the summary, cut to 120.
  lemma SubjectInWords(s: Submission, wikiName: string)
    ensures Subject(s, wikiName) ==
            "[" + wikiName + "] " +
            (match s.kind
             case Bug => "Bug report"
             case Request => "Request"
             case Feedback => "Feedback"
             case Other => "Other") +
            " - " + (if |s.summary| <= 120 then s.summary else s.summary[..119] + "\U{2026}")
  {
  }
}
