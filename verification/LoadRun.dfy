/** The load-run aggregator of tests/stress/stress.py: its summary and gate do not depend on the
    order in which the worker threads finish. */
module LoadRun {
  import opened Text
  import opened Sorting

  // What one worker reports: status 0 is a transport error.
  datatype Report = Report(code: int, elapsed: real, err: string)

  datatype Summary = Summary(
    total: nat, codes: map<int, nat>, successful: nat, serverErrors: nat, transportErrors: nat,
    p50: real, p95: real, sample: seq<string>)

  predicate IsServerError(code: int) { code >= 500 }

  predicate IsSuccess(code: int) { 200 <= code < 400 }

  // ---- counting -----------------------------------------------------------------------------

  // What the loop over the reports appends, report by report.
  function Gather<T>(rs: seq<Report>, f: Report -> seq<T>): seq<T> {
    if rs == [] then [] else Gather(rs[..|rs| - 1], f) + f(rs[|rs| - 1])
  }

  function Having(p: int -> bool): Report -> seq<Report> {
    (r: Report) => if p(r.code) then [r] else []
  }

  function Is(code: int): int -> bool { (k: int) => k == code }

  // Reports whose status satisfies p.
  function CountIf(rs: seq<Report>, p: int -> bool): nat { |Gather(rs, Having(p))| }

  function CountCode(rs: seq<Report>, code: int): nat { CountIf(rs, Is(code)) }

  // Of those, the ones whose status is among ks.
  function CountAmong(rs: seq<Report>, ks: set<int>, p: int -> bool): nat {
    if rs == [] then 0
    else
      var c := rs[|rs| - 1].code;
      CountAmong(rs[..|rs| - 1], ks, p) + (if c in ks && p(c) then 1 else 0)
  }

  // The dictionary holds each observed status with its number of reports, and no other.
  ghost predicate Tallies(rs: seq<Report>, codes: map<int, nat>) {
    && (forall k :: k in codes <==> CountCode(rs, k) > 0)
    && (forall k :: k in codes ==> codes[k] == CountCode(rs, k))
  }

  // The sum a comprehension over codes.items() computes, in iteration order ks.
  function SumOver(ks: seq<int>, codes: map<int, nat>, p: int -> bool): nat {
    if ks == [] then 0
    else
      var k := ks[|ks| - 1];
      SumOver(ks[..|ks| - 1], codes, p) + (if k in codes && p(k) then codes[k] else 0)
  }

  lemma {:induction false} OneMoreStatus(rs: seq<Report>, ks: set<int>, k: int, p: int -> bool)
    requires k !in ks
    ensures CountAmong(rs, ks + {k}, p) == CountAmong(rs, ks, p) + (if p(k) then CountCode(rs, k) else 0)
  {
    if rs != [] {
      OneMoreStatus(rs[..|rs| - 1], ks, k, p);
    }
  }

  ghost predicate Listing<T>(ks: seq<T>, keys: set<T>) {
    multiset(ks) == multiset(keys)
  }

  lemma ListingTail(ks: seq<int>, keys: set<int>)
    requires Listing(ks, keys) && ks != []
    ensures ks[|ks| - 1] in keys && Listing(ks[..|ks| - 1], keys - {ks[|ks| - 1]})
  {
    var k := ks[|ks| - 1];
    assert ks == ks[..|ks| - 1] + [k];
    assert k in multiset(ks);
    assert multiset(keys - {k}) == multiset(keys) - multiset{k};
  }

  lemma ListingMembers(ks: seq<int>, keys: set<int>)
    requires Listing(ks, keys)
    ensures forall k :: k in ks <==> k in keys
  {
    assert forall k :: k in ks <==> k in multiset(ks);
  }

  lemma {:induction false} NobodyAmongNone(rs: seq<Report>, p: int -> bool)
    ensures CountAmong(rs, {}, p) == 0
  {
    if rs != [] {
      NobodyAmongNone(rs[..|rs| - 1], p);
    }
  }

  // Summing the dictionary, in any order, counts reports.
  lemma {:induction false} SumCounts(
    rs: seq<Report>, codes: map<int, nat>, ks: seq<int>, keys: set<int>, p: int -> bool)
    requires Listing(ks, keys) && keys <= codes.Keys
    requires forall k :: k in codes ==> codes[k] == CountCode(rs, k)
    ensures SumOver(ks, codes, p) == CountAmong(rs, keys, p)
  {
    if ks == [] {
      assert keys == {} by { assert |multiset(keys)| == |multiset(ks)| == 0; }
      NobodyAmongNone(rs, p);
    } else {
      var k := ks[|ks| - 1];
      ListingTail(ks, keys);
      assert ks == ks[..|ks| - 1] + [k];
      SumCounts(rs, codes, ks[..|ks| - 1], keys - {k}, p);
      OneMoreStatus(rs, keys - {k}, k, p);
      assert keys - {k} + {k} == keys;
    }
  }

  lemma {:induction false} AllAreAmongObserved(rs: seq<Report>, keys: set<int>, p: int -> bool)
    requires forall r :: r in rs ==> r.code in keys
    ensures CountAmong(rs, keys, p) == CountIf(rs, p)
  {
    if rs != [] {
      assert rs == rs[..|rs| - 1] + [rs[|rs| - 1]];
      AllAreAmongObserved(rs[..|rs| - 1], keys, p);
    }
  }

  lemma {:induction false} ObservedIsCounted(rs: seq<Report>, r: Report)
    requires r in rs
    ensures CountCode(rs, r.code) > 0
  {
    var n := |rs| - 1;
    assert rs == rs[..n] + [rs[n]];
    if r != rs[n] {
      ObservedIsCounted(rs[..n], r);
    }
  }

  lemma TalliesSum(rs: seq<Report>, codes: map<int, nat>, ks: seq<int>, p: int -> bool)
    requires Tallies(rs, codes) && Listing(ks, codes.Keys)
    ensures SumOver(ks, codes, p) == CountIf(rs, p)
  {
    SumCounts(rs, codes, ks, codes.Keys, p);
    forall r | r in rs ensures r.code in codes.Keys {
      ObservedIsCounted(rs, r);
    }
    AllAreAmongObserved(rs, codes.Keys, p);
  }

  lemma {:induction false} CountAll(rs: seq<Report>)
    ensures CountIf(rs, _ => true) == |rs|
  {
    if rs != [] {
      CountAll(rs[..|rs| - 1]);
    }
  }

  // The status counts of a run sum to the number of items.
  lemma StatusCountsSumToItems(rs: seq<Report>, codes: map<int, nat>, ks: seq<int>)
    requires Tallies(rs, codes) && Listing(ks, codes.Keys)
    ensures SumOver(ks, codes, _ => true) == |rs|
  {
    TalliesSum(rs, codes, ks, _ => true);
    CountAll(rs);
  }

  // ---- percentiles ----------------------------------------------------------------------------

  // Python's round: halves go to the even neighbour.
  function RoundHalfEven(x: real): int {
    var f := x.Floor;
    var d := x - f as real;
    if d < 0.5 then f else if d > 0.5 then f + 1 else if f % 2 == 0 then f else f + 1
  }

  lemma RoundIsMonotone(x: real, y: real)
    requires x <= y
    ensures RoundHalfEven(x) <= RoundHalfEven(y)
  {
  }

  function Fraction(x: real, z: real): real { x * z }

  function Rank(n: nat, pct: real): nat
    requires n > 0
    ensures Rank(n, pct) < n
  {
    var k := RoundHalfEven(Fraction(pct / 100.0, (n - 1) as real));
    var k' := if k < n - 1 then k else n - 1;
    if k' < 0 then 0 else k'
  }

  predicate RealLeq(x: real, y: real) { x <= y }

  ghost predicate SortedVersion(values: seq<real>, s: seq<real>) {
    multiset(s) == multiset(values) && SortedBy(RealLeq, s)
  }

  ghost predicate IsPercentile(values: seq<real>, pct: real, v: real) {
    if values == [] then v == 0.0
    else exists s :: SortedVersion(values, s) && |s| == |values| && v == s[Rank(|s|, pct)]
  }

  method Percentile(values: seq<real>, pct: real) returns (v: real)
    ensures IsPercentile(values, pct, v)
  {
    if |values| == 0 {
      return 0.0;
    }
    var s := Sort(values, RealLeq);
    assert |s| == |values| by { assert |multiset(s)| == |s| && |multiset(values)| == |values|; }
    assert SortedVersion(values, s);
    v := s[Rank(|s|, pct)];
  }

  lemma SortedVersionIsUnique(values: seq<real>, values': seq<real>, s: seq<real>, s': seq<real>)
    requires multiset(values) == multiset(values') && SortedVersion(values, s) && SortedVersion(values', s')
    ensures s == s'
  {
    SortedIsUnique(RealLeq, s, s');
  }

  // A percentile depends on the latencies only, not on the order they came in.
  lemma PercentileIsOrderFree(values: seq<real>, values': seq<real>, pct: real, v: real, v': real)
    requires multiset(values) == multiset(values') && IsPercentile(values, pct, v) && IsPercentile(values', pct, v')
    ensures v == v'
  {
    assert |multiset(values)| == |values| && |multiset(values')| == |values'|;
    if values != [] {
      var s :| SortedVersion(values, s) && |s| == |values| && v == s[Rank(|s|, pct)];
      var s' :| SortedVersion(values', s') && |s'| == |values'| && v' == s'[Rank(|s'|, pct)];
      SortedVersionIsUnique(values, values', s, s');
    }
  }

  // A percentile of a non-empty run was observed, and percentiles grow with the percentage.
  lemma PercentilesAreOrdered(values: seq<real>, lo: real, hi: real, a: real, b: real)
    requires values != [] && lo <= hi && IsPercentile(values, lo, a) && IsPercentile(values, hi, b)
    ensures a in values && b in values && a <= b
  {
    var s :| SortedVersion(values, s) && |s| == |values| && a == s[Rank(|s|, lo)];
    var s' :| SortedVersion(values, s') && |s'| == |values| && b == s'[Rank(|s'|, hi)];
    SortedVersionIsUnique(values, values, s, s');
    RankGrows(|s|, lo, hi);
    hide Rank;
    assert a in multiset(s) && b in multiset(s);
    assert Rank(|s|, lo) < Rank(|s|, hi) ==> RealLeq(s[Rank(|s|, lo)], s[Rank(|s|, hi)]);
  }

  lemma RankGrows(n: nat, lo: real, hi: real)
    requires n > 0 && lo <= hi
    ensures Rank(n, lo) <= Rank(n, hi)
  {
    hide Fraction;
    FractionGrows(lo / 100.0, hi / 100.0, (n - 1) as real);
    RoundIsMonotone(Fraction(lo / 100.0, (n - 1) as real), Fraction(hi / 100.0, (n - 1) as real));
    hide RoundHalfEven;
  }

  lemma FractionGrows(x: real, y: real, z: real)
    requires x <= y && z >= 0.0
    ensures Fraction(x, z) <= Fraction(y, z)
  {
    ProductMonotone(x, y, z);
  }

  lemma ProductMonotone(x: real, y: real, z: real)
    requires x <= y && z >= 0.0
    ensures x * z <= y * z
  {
    assert (y - x) * z >= 0.0;
  }

  // round(seconds * 1000, 1)
  function Millis(v: real): real {
    RoundHalfEven(v * 1000.0 * 10.0) as real / 10.0
  }

  // ---- the aggregator ---------------------------------------------------------------------------

  function Elapsed(): Report -> seq<real> { (r: Report) => [r.elapsed] }

  function Failure(): Report -> seq<string> { (r: Report) => if r.err != "" then [r.err] else [] }

  function Latencies(rs: seq<Report>): seq<real> { Gather(rs, Elapsed()) }

  function Errors(rs: seq<Report>): seq<string> { Gather(rs, Failure()) }

  function FirstFive(es: seq<string>): seq<string> {
    if |es| <= 5 then es else es[..5]
  }

  // What _drive promises about the reports, taken in completion order.
  ghost predicate Summarises(rs: seq<Report>, s: Summary) {
    && s.total == |rs|
    && Tallies(rs, s.codes)
    && s.successful == CountIf(rs, IsSuccess)
    && s.serverErrors == CountIf(rs, IsServerError)
    && s.transportErrors == CountCode(rs, 0)
    && (exists v :: IsPercentile(Latencies(rs), 50.0, v) && s.p50 == Millis(v))
    && (exists v :: IsPercentile(Latencies(rs), 95.0, v) && s.p95 == Millis(v))
    && s.sample == FirstFive(Errors(rs))
  }

  // Some iteration order of a dictionary's keys.
  method IterationOrder<T>(keys: set<T>) returns (ks: seq<T>)
    ensures Listing(ks, keys)
  {
    ks := [];
    var todo := keys;
    while todo != {}
      invariant todo <= keys && Listing(ks, keys - todo)
    {
      var k :| k in todo;
      ks, todo := ks + [k], todo - {k};
      assert keys - todo == (keys - (todo + {k})) + {k};
    }
    assert keys - {} == keys;
  }

  // sum(c for code, c in codes.items() if p(code)), whatever the iteration order.
  method SumCodes(ghost rs: seq<Report>, codes: map<int, nat>, p: int -> bool) returns (sum: nat)
    requires Tallies(rs, codes)
    ensures sum == CountIf(rs, p)
  {
    hide CountIf, Tallies, Listing;
    var ks := IterationOrder(codes.Keys);
    sum := 0;
    for i := 0 to |ks|
      invariant sum == SumOver(ks[..i], codes, p)
    {
      assert ks[..i + 1] == ks[..i] + [ks[i]];
      SumGrows(ks[..i], ks[i], codes, p);
      ListingMembers(ks, codes.Keys);
      if p(ks[i]) {
        sum := sum + codes[ks[i]];
      }
    }
    assert ks[..|ks|] == ks;
    TalliesSum(rs, codes, ks, p);
  }

  lemma SumGrows(ks: seq<int>, k: int, codes: map<int, nat>, p: int -> bool)
    ensures SumOver(ks + [k], codes, p) == SumOver(ks, codes, p) + (if k in codes && p(k) then codes[k] else 0)
  {
    assert (ks + [k])[..|ks|] == ks;
  }

  lemma NothingReported()
    ensures Tallies([], map[]) && Latencies([]) == [] && Errors([]) == []
  {
  }

  // codes.get(code, 0)
  lemma TallyLookup(rs: seq<Report>, codes: map<int, nat>, code: int)
    requires Tallies(rs, codes)
    ensures (if code in codes then codes[code] else 0) == CountCode(rs, code)
  {
  }

  lemma TallyGrows(rs: seq<Report>, r: Report, codes: map<int, nat>)
    requires Tallies(rs, codes)
    ensures Tallies(rs + [r], codes[r.code := (if r.code in codes then codes[r.code] else 0) + 1])
  {
    forall k ensures CountCode(rs + [r], k) == CountCode(rs, k) + (if r.code == k then 1 else 0) {
      GatherOne(rs, r, Having(Is(k)));
    }
    hide CountCode;
  }

  // _drive, given the reports in the order the workers completed.
  method Drive(rs: seq<Report>) returns (s: Summary)
    ensures Summarises(rs, s)
  {
    hide Tallies, Gather, CountIf, IsPercentile, Millis;
    NothingReported();
    var codes: map<int, nat> := map[];
    var latencies: seq<real>, errors: seq<string> := [], [];
    for i := 0 to |rs|
      invariant Tallies(rs[..i], codes)
      invariant latencies == Latencies(rs[..i])
      invariant errors == Errors(rs[..i])
    {
      var r := rs[i];
      assert rs[..i + 1] == rs[..i] + [r];
      TallyGrows(rs[..i], r, codes);
      GatherOne(rs[..i], r, Elapsed());
      GatherOne(rs[..i], r, Failure());
      codes := codes[r.code := (if r.code in codes then codes[r.code] else 0) + 1];
      latencies := latencies + [r.elapsed];
      if r.err != "" {
        errors := errors + [r.err];
      }
    }
    assert rs[..|rs|] == rs;
    var server := SumCodes(rs, codes, IsServerError);
    var transport := if 0 in codes then codes[0] else 0;
    TallyLookup(rs, codes, 0);
    var success := SumCodes(rs, codes, IsSuccess);
    var p50 := Percentile(latencies, 50.0);
    var p95 := Percentile(latencies, 95.0);
    s := Summary(|rs|, codes, success, server, transport, Millis(p50), Millis(p95), FirstFive(errors));
  }

  // ---- order independence ---------------------------------------------------------------------------

  lemma GatherOne<T>(a: seq<Report>, r: Report, f: Report -> seq<T>)
    ensures Gather(a + [r], f) == Gather(a, f) + f(r)
  {
    assert (a + [r])[..|a|] == a;
  }

  lemma {:induction false} GatherSplit<T>(a: seq<Report>, r: Report, b: seq<Report>, f: Report -> seq<T>)
    ensures multiset(Gather(a + [r] + b, f)) == multiset(Gather(a + b, f)) + multiset(f(r))
  {
    if b == [] {
      assert a + [r] + b == a + [r] && a + b == a;
      GatherOne(a, r, f);
    } else {
      var n, z := |b| - 1, b[|b| - 1];
      GatherSplit(a, r, b[..n], f);
      assert a + [r] + b == (a + [r] + b[..n]) + [z] && a + b == (a + b[..n]) + [z];
      GatherOne(a + [r] + b[..n], z, f);
      GatherOne(a + b[..n], z, f);
      hide Gather;
    }
  }

  lemma TakeOut<T>(xs: seq<T>, j: nat)
    requires j < |xs|
    ensures multiset(xs[..j] + xs[j + 1..]) == multiset(xs) - multiset{xs[j]}
  {
    assert xs == xs[..j] + [xs[j]] + xs[j + 1..];
  }

  // ys is xs with its last element somewhere else and the others in another order.
  lemma LastIsElsewhere<T>(xs: seq<T>, ys: seq<T>) returns (j: nat)
    requires multiset(xs) == multiset(ys) && xs != []
    ensures j < |ys| && ys[j] == xs[|xs| - 1] && ys == ys[..j] + [ys[j]] + ys[j + 1..]
    ensures multiset(xs[..|xs| - 1]) == multiset(ys[..j] + ys[j + 1..])
  {
    var n := |xs| - 1;
    SameMembers(xs, ys, n);
    j :| 0 <= j < |ys| && ys[j] == xs[n];
    TakeOut(ys, j);
    TakeOut(xs, n);
    assert xs[..n] + xs[n + 1..] == xs[..n];
  }

  // Gathering from the same reports in another order gives the same items.
  lemma {:induction false} GatherPermuted<T>(xs: seq<Report>, ys: seq<Report>, f: Report -> seq<T>)
    requires multiset(xs) == multiset(ys)
    ensures multiset(Gather(xs, f)) == multiset(Gather(ys, f))
  {
    if xs == [] {
      assert |multiset(ys)| == |ys|;
    } else {
      var j := LastIsElsewhere(xs, ys);
      var front, back := ys[..j], ys[j + 1..];
      GatherPermuted(xs[..|xs| - 1], front + back, f);
      GatherSplit(front, ys[j], back, f);
    }
  }

  lemma GatherPermutedSize<T>(xs: seq<Report>, ys: seq<Report>, f: Report -> seq<T>)
    requires multiset(xs) == multiset(ys)
    ensures |Gather(xs, f)| == |Gather(ys, f)|
  {
    GatherPermuted(xs, ys, f);
    hide Gather;
    assert |multiset(Gather(xs, f))| == |Gather(xs, f)| && |multiset(Gather(ys, f))| == |Gather(ys, f)|;
  }

  lemma TalliesPermuted(rs: seq<Report>, rs': seq<Report>, codes: map<int, nat>, codes': map<int, nat>)
    requires multiset(rs) == multiset(rs') && Tallies(rs, codes) && Tallies(rs', codes')
    ensures codes == codes'
  {
    forall k: int ensures CountCode(rs, k) == CountCode(rs', k) {
      GatherPermutedSize(rs, rs', Having(Is(k)));
    }
    hide CountCode;
    forall k ensures k in codes <==> k in codes' {
      assert CountCode(rs, k) == CountCode(rs', k);
    }
    assert codes.Keys == codes'.Keys;
    forall k | k in codes ensures codes[k] == codes'[k] {
      assert CountCode(rs, k) == CountCode(rs', k);
    }
  }

  lemma PercentilesPermuted(rs: seq<Report>, rs': seq<Report>, pct: real)
    requires multiset(rs) == multiset(rs')
    ensures forall v, v' :: IsPercentile(Latencies(rs), pct, v) && IsPercentile(Latencies(rs'), pct, v') ==> v == v'
  {
    GatherPermuted(rs, rs', Elapsed());
    forall v, v' | IsPercentile(Latencies(rs), pct, v) && IsPercentile(Latencies(rs'), pct, v') ensures v == v' {
      PercentileIsOrderFree(Latencies(rs), Latencies(rs'), pct, v, v');
    }
  }

  // Two completion orders of the same reports: every number agrees, and so does the verdict.
  // Only which errors are sampled may differ, never how many.
  lemma CompletionOrderIsInvisible(rs: seq<Report>, rs': seq<Report>, s: Summary, s': Summary, budget: Option<real>)
    requires multiset(rs) == multiset(rs') && Summarises(rs, s) && Summarises(rs', s')
    ensures s'.(sample := s.sample) == s
    ensures |s.sample| == |s'.sample|
    ensures Gate(s, budget) == Gate(s', budget)
  {
    hide IsPercentile, Tallies, Millis, Gather;
    assert |multiset(rs)| == |rs| && |multiset(rs')| == |rs'|;
    TalliesPermuted(rs, rs', s.codes, s'.codes);
    GatherPermutedSize(rs, rs', Having(IsSuccess));
    GatherPermutedSize(rs, rs', Having(IsServerError));
    GatherPermutedSize(rs, rs', Having(Is(0)));
    GatherPermutedSize(rs, rs', Failure());
    PercentilesPermuted(rs, rs', 50.0);
    PercentilesPermuted(rs, rs', 95.0);
  }

  // No completion order of the same reports would sample anything else.
  ghost predicate SampleIsOrderFree(rs: seq<Report>) {
    forall rs' :: multiset(rs') == multiset(rs) ==> FirstFive(Errors(rs')) == FirstFive(Errors(rs))
  }

  // No two of them differ.
  predicate AllAlike<T(==)>(xs: seq<T>) {
    forall x :: x in xs ==> x == xs[0]
  }

  // The sample keeps the first errors to complete, so it depends on the order if and only if
  // two of the reported errors differ, however many there are.
  lemma SampleIsOrderFreeIff(rs: seq<Report>)
    ensures SampleIsOrderFree(rs) <==> AllAlike(Errors(rs))
  {
    hide Gather;
    if AllAlike(Errors(rs)) {
      AlikeSampleIsOrderFree(rs);
    } else {
      var e :| e in Errors(rs) && e != Errors(rs)[0];
      var rs' := FailsFirst(rs, e);
      assert FirstFive(Errors(rs'))[0] != FirstFive(Errors(rs))[0];
    }
  }

  lemma AlikeSampleIsOrderFree(rs: seq<Report>)
    requires AllAlike(Errors(rs))
    ensures SampleIsOrderFree(rs)
  {
    forall rs' | multiset(rs') == multiset(rs) ensures FirstFive(Errors(rs')) == FirstFive(Errors(rs)) {
      GatherPermuted(rs, rs', Failure());
      AlikePermuted(Errors(rs), Errors(rs'));
    }
  }

  // Any reported error can be the first one to complete.
  lemma FailsFirst(rs: seq<Report>, e: string) returns (rs': seq<Report>)
    requires e in Errors(rs)
    ensures multiset(rs') == multiset(rs) && Errors(rs') != [] && Errors(rs')[0] == e
  {
    ErrorWasReported(rs, e);
    var j :| 0 <= j < |rs| && rs[j].err == e;
    var others := rs[..j] + rs[j + 1..];
    rs' := [rs[j]] + others;
    TakeOut(rs, j);
    FirstToFail(rs[j], others);
  }

  lemma AlikePermuted<T>(xs: seq<T>, ys: seq<T>)
    requires multiset(xs) == multiset(ys) && AllAlike(xs)
    ensures xs == ys
  {
    assert |multiset(xs)| == |xs| && |multiset(ys)| == |ys|;
    forall i | 0 <= i < |xs| ensures xs[i] == ys[i] {
      SameMembers(ys, xs, i);
      assert xs[i] in xs && ys[i] in xs;
    }
  }

  lemma {:induction false} ErrorWasReported(rs: seq<Report>, e: string)
    ensures e in Errors(rs) <==> e != "" && exists i :: 0 <= i < |rs| && rs[i].err == e
  {
    if rs != [] {
      var n := |rs| - 1;
      ErrorWasReported(rs[..n], e);
      assert forall i :: 0 <= i < n ==> rs[..n][i] == rs[i];
    }
  }

  // The first report to complete, if it failed, heads the errors.
  lemma {:induction false} FirstToFail(r: Report, rest: seq<Report>)
    requires r.err != ""
    ensures Errors([r] + rest) != [] && Errors([r] + rest)[0] == r.err
  {
    if rest == [] {
      assert [r] + rest == [] + [r];
      GatherOne([], r, Failure());
    } else {
      var front, last := rest[..|rest| - 1], rest[|rest| - 1];
      FirstToFail(r, front);
      assert [r] + rest == ([r] + front) + [last];
      GatherOne([r] + front, last, Failure());
    }
  }

  // Such a run: a request that timed out and one that was refused, completed either way round.
  lemma SampleFollowsCompletion()
    ensures FirstFive(Errors([TIMED_OUT, REFUSED])) != FirstFive(Errors([REFUSED, TIMED_OUT]))
    ensures !SampleIsOrderFree([TIMED_OUT, REFUSED])
  {
    FirstToFail(TIMED_OUT, [REFUSED]);
    FirstToFail(REFUSED, [TIMED_OUT]);
    hide Gather;
    assert [TIMED_OUT] + [REFUSED] == [TIMED_OUT, REFUSED] && [REFUSED] + [TIMED_OUT] == [REFUSED, TIMED_OUT];
    assert |TIMED_OUT.err| != |REFUSED.err|;
    assert multiset([REFUSED, TIMED_OUT]) == multiset([TIMED_OUT, REFUSED]);
  }

  const TIMED_OUT := Report(0, 30.0, "TimeoutError('timed out')")
  const REFUSED := Report(0, 0.1, "URLError(ConnectionRefusedError(111, 'Connection refused'))")

  // ---- the gate ---------------------------------------------------------------------------------------

  datatype Verdict = Passed | SawErrors(serverErrors: nat, transportErrors: nat) | TooSlow(p95: real, budget: real)

  function Gate(s: Summary, budget: Option<real>): Verdict {
    if s.serverErrors > 0 || s.transportErrors > 0 then SawErrors(s.serverErrors, s.transportErrors)
    else if budget.Some? && s.p95 > budget.value then TooSlow(s.p95, budget.value)
    else Passed
  }

  lemma {:induction false} NoneCounted(rs: seq<Report>, p: int -> bool)
    ensures CountIf(rs, p) == 0 <==> forall r :: r in rs ==> !p(r.code)
  {
    if rs != [] {
      NoneCounted(rs[..|rs| - 1], p);
      assert rs == rs[..|rs| - 1] + [rs[|rs| - 1]];
    }
  }

  // A pass means exactly: every request was answered, none with a server error, and the
  // 95th percentile is within the budget if there is one.
  lemma GatePassesIff(rs: seq<Report>, s: Summary, budget: Option<real>)
    requires Summarises(rs, s)
    ensures Gate(s, budget).Passed? <==>
              && (forall r :: r in rs ==> r.code != 0 && r.code < 500)
              && (budget.Some? ==> s.p95 <= budget.value)
    ensures Gate(s, budget).SawErrors? <==> exists r :: r in rs && (r.code == 0 || r.code >= 500)
    ensures Gate(s, budget).SawErrors? ==> Gate(s, budget) == SawErrors(s.serverErrors, s.transportErrors)
    ensures Gate(s, budget).TooSlow? ==> budget.Some? && Gate(s, budget) == TooSlow(s.p95, budget.value)
  {
    hide IsPercentile, Tallies, Millis;
    NoneCounted(rs, IsServerError);
    NoneCounted(rs, Is(0));
    assert forall r: Report :: !IsServerError(r.code) && !Is(0)(r.code) <==> r.code != 0 && r.code < 500;
  }

  lemma MillisIsMonotone(x: real, y: real)
    requires x <= y
    ensures Millis(x) <= Millis(y)
  {
    RoundIsMonotone(x * 1000.0 * 10.0, y * 1000.0 * 10.0);
  }

  lemma {:induction false} LatencyWasReported(rs: seq<Report>, v: real)
    ensures v in Latencies(rs) <==> exists r :: r in rs && r.elapsed == v
  {
    if rs != [] {
      LatencyWasReported(rs[..|rs| - 1], v);
      assert rs == rs[..|rs| - 1] + [rs[|rs| - 1]];
    }
  }

  // Both percentiles of a non-empty run are rounded observations, in order.
  lemma PercentilesWereObserved(rs: seq<Report>, s: Summary)
    requires rs != [] && Summarises(rs, s)
    ensures s.p50 <= s.p95
    ensures exists r :: r in rs && s.p50 == Millis(r.elapsed)
    ensures exists r :: r in rs && s.p95 == Millis(r.elapsed)
  {
    hide IsPercentile, Tallies, Millis, CountIf;
    var a :| IsPercentile(Latencies(rs), 50.0, a) && s.p50 == Millis(a);
    var b :| IsPercentile(Latencies(rs), 95.0, b) && s.p95 == Millis(b);
    LatencyWasReported(rs, rs[0].elapsed);
    PercentilesAreOrdered(Latencies(rs), 50.0, 95.0, a, b);
    MillisIsMonotone(a, b);
    LatencyWasReported(rs, a);
    LatencyWasReported(rs, b);
  }

  // ---- the summary, in words ------------------------------------------------------------------

  // Where the reports whose status satisfies p stand.
  ghost function Positions(rs: seq<Report>, p: int -> bool): set<int> {
    set i | 0 <= i < |rs| && p(rs[i].code)
  }

  lemma PositionsGrow(rs: seq<Report>, r: Report, p: int -> bool)
    ensures |rs| !in Positions(rs, p)
    ensures Positions(rs + [r], p) == Positions(rs, p) + (if p(r.code) then {|rs|} else {})
  {
    forall i ensures i in Positions(rs + [r], p) <==> i in Positions(rs, p) || (p(r.code) && i == |rs|) {
    }
  }

  // Counting is counting positions.
  lemma {:induction false} CountsPositions(rs: seq<Report>, p: int -> bool)
    ensures CountIf(rs, p) == |Positions(rs, p)|
  {
    if rs == [] {
      assert Positions(rs, p) == {};
    } else {
      var before, r := rs[..|rs| - 1], rs[|rs| - 1];
      assert rs == before + [r];
      CountsPositions(before, p);
      GatherOne(before, r, Having(p));
      PositionsGrow(before, r, p);
      hide Gather, Positions;
    }
  }

  lemma CountsThese(rs: seq<Report>, p: int -> bool, positions: set<int>)
    requires forall i :: i in positions <==> 0 <= i < |rs| && p(rs[i].code)
    ensures CountIf(rs, p) == |positions|
  {
    hide CountIf;
    CountsPositions(rs, p);
    assert positions == Positions(rs, p);
  }

  // The counts of a summary, as numbers of reports.
  lemma CountsInWords(rs: seq<Report>, s: Summary)
    requires Summarises(rs, s)
    ensures s.total == |rs|
    ensures s.successful == |set i | 0 <= i < |rs| && 200 <= rs[i].code < 400|
    ensures s.serverErrors == |set i | 0 <= i < |rs| && rs[i].code >= 500|
    ensures s.transportErrors == |set i | 0 <= i < |rs| && rs[i].code == 0|
  {
    hide IsPercentile, Tallies, Millis, CountIf, Gather;
    CountsThese(rs, IsSuccess, set i | 0 <= i < |rs| && 200 <= rs[i].code < 400);
    CountsThese(rs, IsServerError, set i | 0 <= i < |rs| && rs[i].code >= 500);
    CountsThese(rs, Is(0), set i | 0 <= i < |rs| && rs[i].code == 0);
  }

  // One latency per report, in the order the reports came in.
  lemma {:induction false} LatenciesInWords(rs: seq<Report>)
    ensures |Latencies(rs)| == |rs| && forall i :: 0 <= i < |rs| ==> Latencies(rs)[i] == rs[i].elapsed
  {
    if rs != [] {
      LatenciesInWords(rs[..|rs| - 1]);
    }
  }

  // The rank is the position nearest to pct percent of the way from the first to the last;
  // halfway between two, the even one.
  lemma RankInWords(n: nat, pct: real, exact: real)
    requires n > 0 && 0.0 <= pct <= 100.0 && exact == (pct / 100.0) * (n - 1) as real
    ensures var k := Rank(n, pct);
            && k as real - 0.5 <= exact <= k as real + 0.5
            && (exact == k as real - 0.5 || exact == k as real + 0.5 ==> k % 2 == 0)
  {
    assert exact == Fraction(pct / 100.0, (n - 1) as real);
    hide Fraction;
    HundredthsInRange(pct);
    FractionInRange(pct / 100.0, (n - 1) as real);
    NearestInRange(n, Fraction(pct / 100.0, (n - 1) as real));
    RoundsToNearest(Fraction(pct / 100.0, (n - 1) as real));
    hide RoundHalfEven;
  }

  lemma FractionInRange(x: real, z: real)
    requires 0.0 <= x <= 1.0 && z >= 0.0
    ensures 0.0 <= Fraction(x, z) <= z
  {
    ProductMonotone(x, 1.0, z);
  }

  lemma NearestInRange(n: nat, exact: real)
    requires n > 0 && 0.0 <= exact <= (n - 1) as real
    ensures 0 <= RoundHalfEven(exact) <= n - 1
  {
    RoundIsMonotone(0.0, exact);
    RoundIsMonotone(exact, (n - 1) as real);
    RoundsWholes(0);
    RoundsWholes(n - 1);
  }

  lemma HundredthsInRange(pct: real)
    requires 0.0 <= pct <= 100.0
    ensures 0.0 <= pct / 100.0 <= 1.0
  {
  }

  lemma RoundsToNearest(x: real)
    ensures var k := RoundHalfEven(x);
            && k as real - 0.5 <= x <= k as real + 0.5
            && (x == k as real - 0.5 || x == k as real + 0.5 ==> k % 2 == 0)
  {
  }

  lemma RoundsWholes(k: int)
    ensures RoundHalfEven(k as real) == k
  {
  }

  // Milliseconds to one decimal: within a twentieth, and a whole number of tenths.
  lemma MillisInWords(v: real) returns (tenths: int)
    ensures v * 1000.0 - 0.05 <= Millis(v) <= v * 1000.0 + 0.05
    ensures Millis(v) * 10.0 == tenths as real
  {
    RoundsToNearest(v * 1000.0 * 10.0);
    tenths := RoundHalfEven(v * 1000.0 * 10.0);
  }

  // A percentile is the latency at that rank of the latencies in rising order; 0 for none.
  lemma PercentileInWords(rs: seq<Report>, pct: real, v: real)
    requires IsPercentile(Latencies(rs), pct, v)
    ensures rs == [] ==> v == 0.0
    ensures rs != [] ==>
              exists rising: seq<real> ::
                && multiset(rising) == multiset(Latencies(rs)) && |rising| == |rs|
                && (forall i, j :: 0 <= i < j < |rising| ==> rising[i] <= rising[j])
                && v == rising[Rank(|rs|, pct)]
  {
    LatenciesInWords(rs);
    if rs != [] {
      var rising :| SortedVersion(Latencies(rs), rising) && |rising| == |Latencies(rs)|
        && v == rising[Rank(|rising|, pct)];
      hide Rank, Gather;
      forall i, j | 0 <= i < j < |rising| ensures rising[i] <= rising[j] {
        assert RealLeq(rising[i], rising[j]);
      }
    }
  }

  // The two percentiles of a summary: the latencies at the ranks for 50 and 95 percent, in
  // milliseconds.
  lemma SummaryPercentilesInWords(rs: seq<Report>, s: Summary)
    requires Summarises(rs, s)
    ensures rs == [] ==> s.p50 == 0.0 && s.p95 == 0.0
    ensures rs != [] ==>
              exists rising: seq<real> ::
                && multiset(rising) == multiset(Latencies(rs)) && |rising| == |rs|
                && (forall i, j :: 0 <= i < j < |rising| ==> rising[i] <= rising[j])
                && s.p50 == Millis(rising[Rank(|rs|, 50.0)])
                && s.p95 == Millis(rising[Rank(|rs|, 95.0)])
  {
    var a :| IsPercentile(Latencies(rs), 50.0, a) && s.p50 == Millis(a);
    var b :| IsPercentile(Latencies(rs), 95.0, b) && s.p95 == Millis(b);
    PercentileInWords(rs, 50.0, a);
    PercentileInWords(rs, 95.0, b);
    RoundsWholes(0);
    hide IsPercentile, Tallies, CountIf, Gather, Rank, RoundHalfEven;
    if rs != [] {
      var rising: seq<real> :| multiset(rising) == multiset(Latencies(rs)) && |rising| == |rs|
        && (forall i, j :: 0 <= i < j < |rising| ==> rising[i] <= rising[j]) && a == rising[Rank(|rs|, 50.0)];
      var rising': seq<real> :| multiset(rising') == multiset(Latencies(rs)) && |rising'| == |rs|
        && (forall i, j :: 0 <= i < j < |rising'| ==> rising'[i] <= rising'[j]) && b == rising'[Rank(|rs|, 95.0)];
      SortedIsUnique(RealLeq, rising, rising');
    }
  }

  // The sample is the first five of the errors; the errors are those of the reports that have
  // one, in order.
  lemma SampleInWords(rs: seq<Report>, r: Report, s: Summary)
    requires Summarises(rs, s)
    ensures s.sample <= Errors(rs) && |s.sample| == if |Errors(rs)| < 5 then |Errors(rs)| else 5
    ensures Errors([]) == [] && Errors(rs + [r]) == Errors(rs) + (if r.err == "" then [] else [r.err])
  {
    GatherOne(rs, r, Failure());
    hide IsPercentile, Tallies, Millis, CountIf;
  }
}
