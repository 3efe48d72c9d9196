/** The rate-limit key of a request: clientIP of services/contact/server.go. */
module ClientAddress {
  import opened Text

  datatype ProxyPolicy = ProxyPolicy(trustProxy: bool, hops: nat)

  // net.ParseIP(s) != nil.  All that is used of it: the empty string is not an IP.
  type IPTest = string -> bool

  predicate IsIPTest(isIP: IPTest) {
    !isIP("")
  }

  // The entry the outermost trusted proxy recorded: hops from the right, clamped to the first.
  function Chosen(parts: seq<string>, hops: nat): string
    requires parts != [] && hops >= 1
  {
    var idx := |parts| - hops;
    Trim(parts[if idx < 0 then 0 else idx])
  }

  // remote is the host part of RemoteAddr; xff is the X-Forwarded-For header.
  function ClientIP(p: ProxyPolicy, isIP: IPTest, remote: string, xff: string): string
    requires p.hops >= 1
  {
    if !p.trustProxy || xff == "" then remote
    else
      var cand := Chosen(Split(xff, ','), p.hops);
      if isIP(cand) then cand else remote
  }

  // The key is always the connection's own address or an IP taken from the header.
  lemma KeyIsAnAddress(p: ProxyPolicy, isIP: IPTest, remote: string, xff: string)
    requires p.hops >= 1
    ensures ClientIP(p, isIP, remote, xff) == remote || isIP(ClientIP(p, isIP, remote, xff))
  {
  }

  // Which entry of a header of these parts decides: the one `hops` from the right, or the first
  // if there are not that many; trimmed, and only if it is an IP address.
  lemma HopsFromTheRight(p: ProxyPolicy, isIP: IPTest, remote: string, parts: seq<string>)
    requires p.trustProxy && p.hops >= 1 && IsIPTest(isIP)
    requires parts != [] && forall part :: part in parts ==> ',' !in part
    ensures var entry := Trim(if |parts| >= p.hops then parts[|parts| - p.hops] else parts[0]);
            ClientIP(p, isIP, remote, Join(parts, ",")) == if isIP(entry) then entry else remote
  {
    SplitJoin(parts, ',');
    if Join(parts, ",") == "" {
      // One empty part, which is not an IP.
      assert parts == [""] && Trim("") == "";
    }
  }

  // Without a trusted proxy, or without the header, the connection decides.
  lemma ConnectionDecides(p: ProxyPolicy, isIP: IPTest, remote: string, xff: string)
    requires p.hops >= 1 && (!p.trustProxy || xff == "")
    ensures ClientIP(p, isIP, remote, xff) == remote
  {
  }

  lemma ChosenFromTheRight(front: seq<string>, parts: seq<string>, hops: nat)
    requires 1 <= hops <= |parts|
    ensures Chosen(front + parts, hops) == Chosen(parts, hops)
  {
    assert (front + parts)[|front| + |parts| - hops] == parts[|parts| - hops];
  }

  // Whatever a client puts in front, the entries appended by trusted proxies decide.
  lemma ForgedPrefixIsIgnored(p: ProxyPolicy, isIP: IPTest, remote: string, prefix: string, trusted: string)
    requires p.hops >= 1 && IsIPTest(isIP)
    requires |Split(trusted, ',')| >= p.hops
    ensures ClientIP(p, isIP, remote, prefix + "," + trusted) == ClientIP(p, isIP, remote, trusted)
  {
    SplitAppend(prefix, trusted, ',');
    ChosenFromTheRight(Split(prefix, ','), Split(trusted, ','), p.hops);
    if trusted == "" {
      // One empty part, which is not an IP: both sides fall back to the connection.
      assert Chosen([""], p.hops) == "";
    }
    assert prefix + "," + trusted != "";
    hide Chosen, Split;
  }
}
