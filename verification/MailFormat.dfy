/** Message.rfc822 (services/contact/mailer.go): the printer of notification mails. */
module MailFormat {
  import opened Sorting
  import opened Text

  const CRLF := "\r\n"

  datatype Message = Message(
    fromName: string, fromAddr: string, to: string, replyTo: string,
    subject: string, body: string, headers: map<string, string>)

  datatype Header = Header(name: string, value: string)

  // What the libraries contribute: the Q-encoder, the formatted date, the time in nanoseconds.
  datatype Stamp = Stamp(encode: string -> string, date: string, nanos: string) {
    // All that is used of them: none of their output contains CR or LF.
    ghost predicate Valid() {
      (forall s :: NoBreak(encode(s))) && NoBreak(date) && NoBreak(nanos)
    }
  }

  function StripCRLF(s: string): string {
    if s == "" then ""
    else (if s[0] == '\r' || s[0] == '\n' then "" else [s[0]]) + StripCRLF(s[1..])
  }

  // strings.ReplaceAll(s, "\n", "\r\n")
  function ToCRLF(s: string): string {
    if s == "" then "" else (if s[0] == '\n' then CRLF else [s[0]]) + ToCRLF(s[1..])
  }

  // ---- the order of extra headers ------------------------------------------------------------

  // Go's order on strings: bytewise.
  predicate StrLeq(a: string, b: string) {
    a == "" || (b != "" && (a[0] < b[0] || (a[0] == b[0] && StrLeq(a[1..], b[1..]))))
  }

  // That is: a is a prefix of b, or the first character in which they differ is smaller in a.
  lemma {:induction false} StrLeqIff(a: string, b: string)
    ensures StrLeq(a, b) <==> a <= b || exists i :: FirstDifference(a, b, i) && a[i] < b[i]
  {
    if a != "" && b != "" && a[0] == b[0] {
      var a', b' := a[1..], b[1..];
      StrLeqIff(a', b');
      assert a == [a[0]] + a' && b == [b[0]] + b';
      assert a <= b <==> a' <= b';
      forall i: nat ensures FirstDifference(a, b, i + 1) <==> FirstDifference(a', b', i) {
        if FirstDifference(a, b, i + 1) {
          assert forall j :: 0 <= j < i ==> a'[j] == a[j + 1] == b[j + 1] == b'[j];
        }
        if FirstDifference(a', b', i) {
          assert forall j :: 0 < j < i + 1 ==> a[j] == a'[j - 1] == b'[j - 1] == b[j];
        }
      }
      if i :| FirstDifference(a', b', i) && a'[i] < b'[i] {
        assert FirstDifference(a, b, i + 1);
      }
      if i :| FirstDifference(a, b, i) && a[i] < b[i] {
        assert FirstDifference(a', b', i - 1);
      }
    } else if a != "" && b != "" {
      assert FirstDifference(a, b, 0);
    }
  }

  ghost predicate FirstDifference(a: string, b: string, i: int) {
    0 <= i < |a| && i < |b| && a[i] != b[i] && forall j :: 0 <= j < i ==> a[j] == b[j]
  }

  lemma {:induction false} StrLeqTotal(a: string, b: string)
    ensures StrLeq(a, b) || StrLeq(b, a)
    ensures StrLeq(a, b) && StrLeq(b, a) ==> a == b
  {
    if a != "" && b != "" && a[0] == b[0] {
      StrLeqTotal(a[1..], b[1..]);
      assert a == [a[0]] + a[1..] && b == [b[0]] + b[1..];
    }
  }

  lemma {:induction false} StrLeqTransitive(a: string, b: string, c: string)
    requires StrLeq(a, b) && StrLeq(b, c)
    ensures StrLeq(a, c)
  {
    if a != "" && a[0] == b[0] == c[0] {
      StrLeqTransitive(a[1..], b[1..], c[1..]);
    }
  }

  lemma StrLeqOrders()
    ensures TotalPreorder(StrLeq)
    ensures forall a, b :: StrLeq(a, b) && StrLeq(b, a) ==> a == b
  {
    forall a, b ensures StrLeq(a, b) || StrLeq(b, a) {
      StrLeqTotal(a, b);
    }
    forall a, b | StrLeq(a, b) && StrLeq(b, a) ensures a == b {
      StrLeqTotal(a, b);
    }
    forall a, b, c | StrLeq(a, b) && StrLeq(b, c) ensures StrLeq(a, c) {
      StrLeqTransitive(a, b, c);
    }
  }

  // Every key once, in order.
  ghost predicate IsSortedKeys(m: map<string, string>, ks: seq<string>) {
    multiset(ks) == multiset(m.Keys) && SortedBy(StrLeq, ks)
  }

  // sortedKeys: collected in whatever order the map iterates, then sorted.
  method SortedKeys(m: map<string, string>) returns (ks: seq<string>)
    ensures IsSortedKeys(m, ks)
  {
    ks := [];
    var todo := m.Keys;
    while todo != {}
      invariant todo <= m.Keys && multiset(ks) == multiset(m.Keys - todo)
    {
      var k :| k in todo;
      assert m.Keys - (todo - {k}) == (m.Keys - todo) + {k};
      ks := ks + [k];
      todo := todo - {k};
    }
    assert m.Keys - {} == m.Keys;
    StrLeqOrders();
    ks := Sort(ks, StrLeq);
  }

  // The header order does not depend on map iteration order.
  lemma SortedKeysAreUnique(m: map<string, string>, ks: seq<string>, ks': seq<string>)
    requires IsSortedKeys(m, ks) && IsSortedKeys(m, ks')
    ensures ks == ks'
  {
    StrLeqOrders();
    SortedIsUnique(StrLeq, ks, ks');
  }

  // ---- the printed message ---------------------------------------------------------------------

  function FromValue(m: Message, t: Stamp): string {
    if m.fromName != "" then t.encode(m.fromName) + " <" + StripCRLF(m.fromAddr) + ">" else StripCRLF(m.fromAddr)
  }

  function ExtraHeaders(m: Message, ks: seq<string>): seq<Header>
    requires forall k :: k in ks ==> k in m.headers
  {
    seq(|ks|, i requires 0 <= i < |ks| => Header(StripCRLF(ks[i]), StripCRLF(m.headers[ks[i]])))
  }

  function AddressHeaders(m: Message, t: Stamp): seq<Header> {
    [Header("From", FromValue(m, t)), Header("To", StripCRLF(m.to))] +
    (if m.replyTo != "" then [Header("Reply-To", StripCRLF(m.replyTo))] else [])
  }

  function FixedHeaders(m: Message, t: Stamp): seq<Header> {
    [Header("Subject", t.encode(m.subject)),
     Header("Date", t.date),
     Header("Message-ID", "<" + t.nanos + "." + StripCRLF(m.fromAddr) + ">"),
     Header("MIME-Version", "1.0"),
     Header("Content-Type", "text/plain; charset=utf-8"),
     Header("Content-Transfer-Encoding", "8bit")]
  }

  // The header list the message is meant to have, in order.
  function Intended(m: Message, t: Stamp, ks: seq<string>): seq<Header>
    requires forall k :: k in ks ==> k in m.headers
  {
    AddressHeaders(m, t) + FixedHeaders(m, t) + ExtraHeaders(m, ks)
  }

  function Line(h: Header): string {
    h.name + ": " + h.value + CRLF
  }

  function Render(hs: seq<Header>): string {
    if hs == [] then "" else Render(hs[..|hs| - 1]) + Line(hs[|hs| - 1])
  }

  function Printed(m: Message, t: Stamp, ks: seq<string>): string
    requires forall k :: k in ks ==> k in m.headers
  {
    Render(Intended(m, t, ks)) + CRLF + ToCRLF(m.body)
  }

  lemma RenderAppend(hs: seq<Header>, h: Header)
    ensures Render(hs + [h]) == Render(hs) + Line(h)
  {
    assert (hs + [h])[..|hs|] == hs;
  }

  // ks is the sorted list of header names.
  ghost predicate Prints(m: Message, t: Stamp, ks: seq<string>, b: string) {
    IsSortedKeys(m.headers, ks) && (forall k :: k in ks ==> k in m.headers) && b == Printed(m, t, ks)
  }

  method Rfc822(m: Message, t: Stamp) returns (b: string)
    ensures exists ks :: Prints(m, t, ks, b)
  {
    hide Render, AddressHeaders, FixedHeaders, ExtraHeaders, IsSortedKeys;
    ghost var hs;
    b, hs := WriteAddresses(m, t);
    b, hs := WriteFixed(b, hs, m, t);
    var keys := SortedKeys(m.headers);
    KeysKnown(m.headers, keys);
    b, hs := WriteExtra(b, hs, m, keys);
    b := b + CRLF;
    b := b + ToCRLF(m.body);
    assert Prints(m, t, keys, b);
  }

  method WriteAddresses(m: Message, t: Stamp) returns (r: string, ghost hs: seq<Header>)
    ensures hs == AddressHeaders(m, t) && r == Render(hs)
  {
    hide StripCRLF;
    var from := StripCRLF(m.fromAddr);
    if m.fromName != "" {
      from := t.encode(m.fromName) + " <" + StripCRLF(m.fromAddr) + ">";
    }
    r, hs := Put("", [], "From", from);
    hide Render;
    r, hs := Put(r, hs, "To", StripCRLF(m.to));
    if m.replyTo != "" {
      r, hs := Put(r, hs, "Reply-To", StripCRLF(m.replyTo));
    }
  }

  method WriteFixed(b: string, ghost hs: seq<Header>, m: Message, t: Stamp) returns (r: string, ghost hs': seq<Header>)
    requires b == Render(hs)
    ensures hs' == hs + FixedHeaders(m, t) && r == Render(hs')
  {
    hide Render, StripCRLF;
    r, hs' := Put(b, hs, "Subject", t.encode(m.subject));
    r, hs' := Put(r, hs', "Date", t.date);
    r, hs' := Put(r, hs', "Message-ID", "<" + t.nanos + "." + StripCRLF(m.fromAddr) + ">");
    r, hs' := Put(r, hs', "MIME-Version", "1.0");
    r, hs' := Put(r, hs', "Content-Type", "text/plain; charset=utf-8");
    r, hs' := Put(r, hs', "Content-Transfer-Encoding", "8bit");
    assert hs' == hs + FixedHeaders(m, t);
  }

  method WriteExtra(b: string, ghost hs: seq<Header>, m: Message, keys: seq<string>)
    returns (r: string, ghost hs': seq<Header>)
    requires b == Render(hs) && forall k :: k in keys ==> k in m.headers
    ensures hs' == hs + ExtraHeaders(m, keys) && r == Render(hs')
  {
    hide Render, StripCRLF;
    r, hs' := b, hs;
    for i := 0 to |keys|
      invariant r == Render(hs') && hs' == hs + ExtraHeaders(m, keys[..i])
    {
      r, hs' := Put(r, hs', StripCRLF(keys[i]), StripCRLF(m.headers[keys[i]]));
    }
    assert keys[..|keys|] == keys;
  }

  lemma KeysKnown(m: map<string, string>, ks: seq<string>)
    requires IsSortedKeys(m, ks)
    ensures forall k :: k in ks ==> k in m
  {
    assert forall k :: k in ks ==> k in multiset(ks);
  }

  // fmt.Fprintf(&b, "%s: %s\r\n", name, value)
  method Put(b: string, ghost hs: seq<Header>, name: string, value: string) returns (r: string, ghost hs': seq<Header>)
    requires b == Render(hs)
    ensures hs' == hs + [Header(name, value)] && r == Render(hs')
  {
    hs' := hs + [Header(name, value)];
    RenderAppend(hs, Header(name, value));
    r := b + (name + ": " + value + CRLF);
  }
}
