/** Validation of one contact-form submission (services/contact/submission.go) under the
    approved-sender policy (services/contact/config.go). */
module Submission {
  import opened Arith
  import opened Text

  datatype Kind = Bug | Request | Feedback | Other

  function KindName(k: Kind): string {
    match k
    case Bug => "bug"
    case Request => "request"
    case Feedback => "feedback"
    case Other => "other"
  }

  function ParseKind(s: string): Option<Kind> {
    var k := ToLower(Trim(s));
    if k == "bug" then Some(Bug)
    else if k == "request" then Some(Request)
    else if k == "feedback" then Some(Feedback)
    else if k == "other" then Some(Other)
    else None
  }

  const MAX_NAME := 200
  const MAX_SUMMARY := 200
  const MAX_DETAILS := 8000
  const MAX_PAGE := 500

  datatype FormInput = FormInput(
    kind: string, name: string, email: string, page: string, summary: string, details: string)

  datatype FieldError = FieldError(field: string, message: string)

  datatype Submission = Submission(
    kind: Kind, name: string, email: string, page: string, summary: string, details: string,
    at: Time, sourceIP: string, userAgent: string)

  datatype Outcome = Accepted(sub: Submission) | Rejected(errors: seq<FieldError>)

  // ---- the approved-sender policy ---------------------------------------------------

  datatype Senders = Senders(allowedDomain: string, allowedSenders: seq<string>)

  // An explicit list wins; otherwise a required domain, if set; otherwise anyone.
  predicate SenderOK(p: Senders, email: string) {
    var e := ToLower(Trim(email));
    if p.allowedSenders != [] then exists a :: a in p.allowedSenders && ToLower(a) == e
    else p.allowedDomain == "" || HasSuffix(e, "@" + ToLower(p.allowedDomain))
  }

  method SenderAllowed(p: Senders, email: string) returns (ok: bool)
    ensures ok == SenderOK(p, email)
    ensures |p.allowedSenders| > 0 ==>
              (ok <==> exists i :: 0 <= i < |p.allowedSenders| && ToLower(p.allowedSenders[i]) == ToLower(Trim(email)))
  {
    var e := ToLower(Trim(email));
    if |p.allowedSenders| > 0 {
      for i := 0 to |p.allowedSenders|
        invariant forall j :: 0 <= j < i ==> ToLower(p.allowedSenders[j]) != e
      {
        if ToLower(p.allowedSenders[i]) == e {
          return true;
        }
      }
      return false;
    }
    if p.allowedDomain == "" {
      return true;
    }
    return HasSuffix(e, "@" + ToLower(p.allowedDomain));
  }

  function RejectMessage(p: Senders): string {
    if p.allowedSenders != [] then "this address is not on the approved senders list"
    else "please use your @" + p.allowedDomain + " email address"
  }

  // net/mail's address parser: the bare address of a well-formed mailbox, if it is one.
  type AddressParser = string -> Option<string>

  predicate ValidEmail(parse: AddressParser, s: string) {
    '\r' !in s && '\n' !in s && Count(s, '@') == 1 && parse(s) == Some(s)
  }

  // ---- what validation promises ---------------------------------------------------------

  // The one complaint about each field, if any.
  function Complaint(f: FormInput, p: Senders, parse: AddressParser, field: string): Option<string> {
    var name, email, summary := Trim(f.name), Trim(ToLower(f.email)), Trim(f.summary);
    match field
    case "type" => if ParseKind(f.kind).None? then Some("choose a valid type") else None
    case "name" =>
      if name == "" then Some("your name is required")
      else if |name| > MAX_NAME then Some("name is too long") else None
    case "email" =>
      if email == "" then Some("your email is required")
      else if !ValidEmail(parse, email) then Some("enter a valid email address")
      else if !SenderOK(p, email) then Some(RejectMessage(p)) else None
    case "summary" =>
      if summary == "" then Some("a short summary is required")
      else if |summary| > MAX_SUMMARY then Some("summary is too long") else None
    case "details" => if |Trim(f.details)| > MAX_DETAILS then Some("details are too long") else None
    case "page" => if |Trim(f.page)| > MAX_PAGE then Some("page/area is too long") else None
    case _ => None
  }

  const FIELDS := ["type", "name", "email", "summary", "details", "page"]

  // The complaints about the first n fields, in form order.
  function Complaints(f: FormInput, p: Senders, parse: AddressParser, n: nat): seq<FieldError>
    requires n <= |FIELDS|
  {
    if n == 0 then []
    else
      var c := Complaint(f, p, parse, FIELDS[n - 1]);
      Complaints(f, p, parse, n - 1) + (if c.Some? then [FieldError(FIELDS[n - 1], c.value)] else [])
  }

  function Validate(f: FormInput, p: Senders, parse: AddressParser, now: Time): Outcome {
    var errors := Complaints(f, p, parse, |FIELDS|);
    if errors == [] && ParseKind(f.kind).Some? then
      Accepted(Submission(ParseKind(f.kind).value, Trim(f.name), Trim(ToLower(f.email)), Trim(f.page),
                          Trim(f.summary), Trim(f.details), now, "", ""))
    else Rejected(errors)
  }

  // newSubmission: collects field errors in order, and builds a submission if there are none.
  method NewSubmission(f: FormInput, p: Senders, parse: AddressParser, now: Time) returns (r: Outcome)
    ensures r == Validate(f, p, parse, now)
    ensures r.Accepted? ==>
              && r.sub.name == Trim(f.name)
              && r.sub.email == Trim(ToLower(f.email))
              && r.sub.page == Trim(f.page)
              && r.sub.summary == Trim(f.summary)
              && r.sub.details == Trim(f.details)
              && r.sub.at == now && r.sub.sourceIP == "" && r.sub.userAgent == ""
  {
    hide Trim, ToLower, ParseKind, SenderOK, ValidEmail;
    var errs: seq<FieldError> := [];

    var k := ParseKind(f.kind);
    if k.None? {
      errs := errs + [FieldError("type", "choose a valid type")];
    }
    assert errs == Complaints(f, p, parse, 1);

    var name := Trim(f.name);
    if name == "" {
      errs := errs + [FieldError("name", "your name is required")];
    } else if |name| > MAX_NAME {
      errs := errs + [FieldError("name", "name is too long")];
    }
    assert errs == Complaints(f, p, parse, 2);

    var email := Trim(ToLower(f.email));
    var allowed := SenderAllowed(p, email);
    if email == "" {
      errs := errs + [FieldError("email", "your email is required")];
    } else if !ValidEmail(parse, email) {
      errs := errs + [FieldError("email", "enter a valid email address")];
    } else if !allowed {
      errs := errs + [FieldError("email", RejectMessage(p))];
    }
    assert errs == Complaints(f, p, parse, 3);

    var summary := Trim(f.summary);
    if summary == "" {
      errs := errs + [FieldError("summary", "a short summary is required")];
    } else if |summary| > MAX_SUMMARY {
      errs := errs + [FieldError("summary", "summary is too long")];
    }
    assert errs == Complaints(f, p, parse, 4);

    var details := Trim(f.details);
    if |details| > MAX_DETAILS {
      errs := errs + [FieldError("details", "details are too long")];
    }
    assert errs == Complaints(f, p, parse, 5);

    var page := Trim(f.page);
    if |page| > MAX_PAGE {
      errs := errs + [FieldError("page", "page/area is too long")];
    }
    assert errs == Complaints(f, p, parse, 6);

    if |errs| > 0 {
      return Rejected(errs);
    }
    assert k.Some? by { ComplaintsAreExact(f, p, parse, 6); }
    r := Accepted(Submission(k.value, name, email, page, summary, details, now, "", ""));
  }

  // ---- properties -----------------------------------------------------------------------

  // The error list is the complaints, once each and in form order.
  lemma {:induction false} ComplaintsAreExact(f: FormInput, p: Senders, parse: AddressParser, n: nat)
    requires n <= |FIELDS|
    ensures var errors := Complaints(f, p, parse, n);
            && (forall e :: e in errors ==> exists i :: 0 <= i < n && e.field == FIELDS[i] &&
                                                         Complaint(f, p, parse, FIELDS[i]) == Some(e.message))
            && (forall i :: 0 <= i < n && Complaint(f, p, parse, FIELDS[i]).Some? ==>
                              exists e :: e in errors && e.field == FIELDS[i])
            && (forall i, j :: 0 <= i < j < |errors| ==> errors[i].field != errors[j].field)
  {
    hide Complaint;
    if n > 0 {
      ComplaintsAreExact(f, p, parse, n - 1);
      var older := Complaints(f, p, parse, n - 1);
      var c := Complaint(f, p, parse, FIELDS[n - 1]);
      forall e | e in older ensures e.field != FIELDS[n - 1] {
        var i :| 0 <= i < n - 1 && e.field == FIELDS[i] && Complaint(f, p, parse, FIELDS[i]) == Some(e.message);
        FieldsDiffer(i, n - 1);
      }
      if c.Some? {
        assert FieldError(FIELDS[n - 1], c.value) in Complaints(f, p, parse, n);
      }
    }
  }

  lemma FieldsDiffer(i: nat, j: nat)
    requires i < j < |FIELDS|
    ensures FIELDS[i] != FIELDS[j]
  {
    assert "type" != "name" && "name" != "email" && "summary" != "details";
    assert |"type"| == |"name"| == |"page"| == 4;
    assert "type"[0] != "name"[0] && "type"[0] != "page"[0] && "name"[0] != "page"[0];
    assert "summary"[0] != "details"[0];
  }

  // What an accepted form has to satisfy, field by field.
  predicate Acceptable(f: FormInput, p: Senders, parse: AddressParser) {
    var email := Trim(ToLower(f.email));
    && ParseKind(f.kind).Some?
    && 1 <= |Trim(f.name)| <= MAX_NAME
    && email != "" && ValidEmail(parse, email) && SenderOK(p, email)
    && 1 <= |Trim(f.summary)| <= MAX_SUMMARY
    && |Trim(f.details)| <= MAX_DETAILS
    && |Trim(f.page)| <= MAX_PAGE
  }

  lemma NoComplaintIffAcceptable(f: FormInput, p: Senders, parse: AddressParser)
    ensures (forall i :: 0 <= i < |FIELDS| ==> Complaint(f, p, parse, FIELDS[i]).None?) <==> Acceptable(f, p, parse)
  {
    assert FIELDS[0] == "type" && FIELDS[1] == "name" && FIELDS[2] == "email";
    assert FIELDS[3] == "summary" && FIELDS[4] == "details" && FIELDS[5] == "page";
  }

  // Either a submission or a non-empty error list, never both: accepted exactly when every
  // field is acceptable, rejected with at most one error per field otherwise.
  lemma ValidationIsDecided(f: FormInput, p: Senders, parse: AddressParser, now: Time)
    ensures Validate(f, p, parse, now).Accepted? <==> Acceptable(f, p, parse)
    ensures var v := Validate(f, p, parse, now);
            v.Rejected? ==>
              && v.errors != []
              && (forall i, j :: 0 <= i < j < |v.errors| ==> v.errors[i].field != v.errors[j].field)
              && (forall e :: e in v.errors ==> Complaint(f, p, parse, e.field) == Some(e.message))
  {
    hide Trim, ToLower, SenderOK, ValidEmail;
    ComplaintsAreExact(f, p, parse, |FIELDS|);
    NoComplaintIffAcceptable(f, p, parse);
    var errors := Complaints(f, p, parse, |FIELDS|);
    if errors != [] {
      assert errors[0] in errors;
    }
    assert ParseKind(f.kind).None? ==> Complaint(f, p, parse, FIELDS[0]).Some?;
    hide Complaint, Acceptable, Complaints;
    forall i | 0 <= i < |FIELDS| ensures errors == [] ==> Complaint(f, p, parse, FIELDS[i]).None? {
    }
  }

  // Everything after the (only) '@'.
  function DomainOf(email: string): string {
    if email == [] then [] else if email[0] == '@' then email[1..] else DomainOf(email[1..])
  }

  lemma {:induction false} DomainOfSuffix(local: string, domain: string)
    requires '@' !in local
    ensures DomainOf(local + "@" + domain) == domain
  {
    if local == [] {
      assert [] + "@" + domain == "@" + domain;
      assert ("@" + domain)[1..] == domain;
    } else {
      DomainOfSuffix(local[1..], domain);
      assert (local + "@" + domain)[1..] == local[1..] + "@" + domain;
    }
  }

  // With a required domain and no explicit list, the accepted address is in that domain
  // exactly: not in a subdomain of it, and not in a longer name that ends the same way.
  lemma AcceptedDomainIsExact(f: FormInput, p: Senders, parse: AddressParser, now: Time)
    requires p.allowedSenders == [] && p.allowedDomain != "" && '@' !in p.allowedDomain
    requires Validate(f, p, parse, now).Accepted?
    ensures DomainOf(Validate(f, p, parse, now).sub.email) == ToLower(p.allowedDomain)
  {
    ValidationIsDecided(f, p, parse, now);
    var email := Validate(f, p, parse, now).sub.email;
    var domain := ToLower(p.allowedDomain);
    EmailIsNormal(f);
    assert HasSuffix(email, "@" + domain);
    var local := email[..|email| - |domain| - 1];
    assert email == local + "@" + domain;
    assert '@' !in domain by {
      forall c | c in domain ensures c != '@' {
        var i :| 0 <= i < |domain| && domain[i] == c;
        assert c == LowerChar(p.allowedDomain[i]) && p.allowedDomain[i] in p.allowedDomain;
      }
    }
    CountAppend(local + "@", domain, '@');
    CountAppend(local, "@", '@');
    CountZero(domain, '@');
    CountZero(local, '@');
    CountZero("@", '@');
    DomainOfSuffix(local, domain);
  }

  // Trimming and lower-casing a normalised address again changes nothing.
  lemma EmailIsNormal(f: FormInput)
    ensures var e := Trim(ToLower(f.email)); ToLower(e) == e && Trim(e) == e && ToLower(Trim(e)) == e
  {
    var lower := ToLower(f.email);
    LowerFacts(f.email);
    TrimKeepsLower(lower);
    TrimFacts(lower);
    TrimFixed(Trim(lower));
  }

  lemma KindNameParses(k: Kind)
    ensures ParseKind(KindName(k)) == Some(k)
  {
    var n := KindName(k);
    assert Trimmed(n);
    TrimFixed(n);
    assert ToLower(n) == n;
  }

  // The form that shows an accepted submission's own fields.
  function Refill(s: Submission): FormInput {
    FormInput(KindName(s.kind), s.name, s.email, s.page, s.summary, s.details)
  }

  // Validation is stable: resubmitting an accepted submission's fields gives the same one.
  lemma ResubmissionIsStable(f: FormInput, p: Senders, parse: AddressParser, now: Time)
    requires Validate(f, p, parse, now).Accepted?
    ensures Validate(Refill(Validate(f, p, parse, now).sub), p, parse, now) == Validate(f, p, parse, now)
  {
    var s := Validate(f, p, parse, now).sub;
    var g := Refill(s);
    KindNameParses(s.kind);
    EmailIsNormal(f);
    forall t | t in {f.name, f.page, f.summary, f.details} ensures Trim(Trim(t)) == Trim(t) {
      TrimFacts(t);
      TrimFixed(Trim(t));
    }
    ValidationIsDecided(f, p, parse, now);
    assert Acceptable(g, p, parse);
    ValidationIsDecided(g, p, parse, now);
  }

  // ---- over the form's own fields ------------------------------------------------------------

  // Each field of an accepted submission is the trimmed input of the same name; the email is
  // also lower-cased, and the kind is the one whose name the kind field spells.
  lemma AcceptedFieldsAreTheForms(f: FormInput, p: Senders, parse: AddressParser, now: Time)
    requires Validate(f, p, parse, now).Accepted?
    ensures var s, kind := Validate(f, p, parse, now).sub, ToLower(Trim(f.kind));
            && s.name == Trim(f.name)
            && s.email == Trim(ToLower(f.email))
            && s.page == Trim(f.page)
            && s.summary == Trim(f.summary)
            && s.details == Trim(f.details)
            && s.at == now && s.sourceIP == "" && s.userAgent == ""
            && (s.kind.Bug? <==> kind == "bug")
            && (s.kind.Request? <==> kind == "request")
            && (s.kind.Feedback? <==> kind == "feedback")
            && (s.kind.Other? <==> kind == "other")
  {
    hide Complaints, Trim, ToLower;
    KindSpellings();
  }

  lemma KindSpellings()
    ensures |"bug"| == 3 && |"request"| == 7 && |"feedback"| == 8 && |"other"| == 5
  {
  }

  // A form without stray white space, its email in lower case, is taken as it stands.
  lemma CleanFormIsKept(f: FormInput, p: Senders, parse: AddressParser, now: Time)
    requires Validate(f, p, parse, now).Accepted?
    requires Trimmed(f.name) && Trimmed(f.email) && Trimmed(f.page) && Trimmed(f.summary) && Trimmed(f.details)
    requires forall c :: c in f.email ==> !('A' <= c <= 'Z')
    ensures var s := Validate(f, p, parse, now).sub;
            && s.name == f.name && s.email == f.email && s.page == f.page
            && s.summary == f.summary && s.details == f.details
  {
    assert ToLower(f.email) == f.email by {
      LowerIsExact(f.email);
      forall i | 0 <= i < |f.email| ensures ToLower(f.email)[i] == f.email[i] {
        assert f.email[i] in f.email;
      }
    }
    AcceptedFieldsAreTheForms(f, p, parse, now);
    forall t | t in {f.name, f.email, f.page, f.summary, f.details} ensures Trim(t) == t {
      TrimFixed(t);
    }
  }

  // An address the parser takes whole, on one line and with a single '@'.
  lemma ValidEmailIff(parse: AddressParser, s: string)
    ensures ValidEmail(parse, s) <==>
              && '\r' !in s && '\n' !in s
              && parse(s) == Some(s)
              && exists local, domain :: s == local + "@" + domain && '@' !in local && '@' !in domain
  {
    CountsOneIff(s, '@');
  }

  // Whom the policy admits.
  lemma SenderOKIff(p: Senders, email: string)
    ensures var e := ToLower(Trim(email));
            SenderOK(p, email) <==>
              if |p.allowedSenders| > 0 then
                exists i :: 0 <= i < |p.allowedSenders| && ToLower(p.allowedSenders[i]) == e
              else
                p.allowedDomain == "" || exists local: string :: e == local + "@" + ToLower(p.allowedDomain)
  {
    hide ToLower, Trim;
    var e, suffix := ToLower(Trim(email)), "@" + ToLower(p.allowedDomain);
    if |p.allowedSenders| > 0 {
      forall a ensures a in p.allowedSenders && ToLower(a) == e <==>
                       exists i :: 0 <= i < |p.allowedSenders| && p.allowedSenders[i] == a && ToLower(a) == e {
      }
    } else {
      SuffixIff(e, suffix);
      forall local: string ensures local + suffix == local + "@" + ToLower(p.allowedDomain) {
      }
    }
  }

  lemma SuffixIff(s: string, suffix: string)
    ensures HasSuffix(s, suffix) <==> exists front: string :: s == front + suffix
  {
    if HasSuffix(s, suffix) {
      assert s == s[..|s| - |suffix|] + suffix;
    }
  }

  // What it takes to be accepted.
  lemma AcceptedIff(f: FormInput, p: Senders, parse: AddressParser, now: Time)
    ensures var email, kind := Trim(ToLower(f.email)), ToLower(Trim(f.kind));
            Validate(f, p, parse, now).Accepted? <==>
              && (kind == "bug" || kind == "request" || kind == "feedback" || kind == "other")
              && 1 <= |Trim(f.name)| <= 200
              && email != "" && ValidEmail(parse, email) && SenderOK(p, email)
              && 1 <= |Trim(f.summary)| <= 200
              && |Trim(f.details)| <= 8000
              && |Trim(f.page)| <= 500
  {
    hide Trim, ToLower, ValidEmail, SenderOK, Validate;
    ValidationIsDecided(f, p, parse, now);
  }

  // What is told about each field, and when.
  lemma ComplaintsInWords(f: FormInput, p: Senders, parse: AddressParser)
    ensures var email, kind := Trim(ToLower(f.email)), ToLower(Trim(f.kind));
            && (Complaint(f, p, parse, "type") ==
                  if kind == "bug" || kind == "request" || kind == "feedback" || kind == "other" then None
                  else Some("choose a valid type"))
            && (Complaint(f, p, parse, "email") ==
                  if email != "" && ValidEmail(parse, email) && SenderOK(p, email) then None
                  else if email == "" then Some("your email is required")
                  else if !ValidEmail(parse, email) then Some("enter a valid email address")
                  else if |p.allowedSenders| > 0 then Some("this address is not on the approved senders list")
                  else Some("please use your @" + p.allowedDomain + " email address"))
    ensures && (Complaint(f, p, parse, "name") == Some("your name is required") <==> Trim(f.name) == "")
            && (Complaint(f, p, parse, "name") == Some("name is too long") <==> |Trim(f.name)| > 200)
            && (Complaint(f, p, parse, "summary") == Some("a short summary is required") <==> Trim(f.summary) == "")
            && (Complaint(f, p, parse, "summary") == Some("summary is too long") <==> |Trim(f.summary)| > 200)
            && (Complaint(f, p, parse, "details") == Some("details are too long") <==> |Trim(f.details)| > 8000)
            && (Complaint(f, p, parse, "page") == Some("page/area is too long") <==> |Trim(f.page)| > 500)
  {
    hide Trim, ToLower, ValidEmail, SenderOK;
    assert |"your name is required"| != |"name is too long"|;
    assert |"a short summary is required"| != |"summary is too long"|;
  }
}
