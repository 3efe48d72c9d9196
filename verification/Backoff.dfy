/** The delay arithmetic of services/wiki-client/client.go: an int64 shift with an overflow
    guard, and jitter on top of it.  Durations are nanoseconds. */
module Backoff {
  import opened Arith
  import opened Text

  const MAX_DELAY := 5_000_000_000
  const TWO_63 := 0x8000_0000_0000_0000
  const TWO_64 := 0x1_0000_0000_0000_0000
  const TWO_32 := 0x1_0000_0000

  function Pow2(n: nat): (r: nat)
    ensures r >= 1
  {
    if n == 0 then 1 else 2 * Pow2(n - 1)
  }

  // x as a two's-complement int64.
  function Wrap64(x: int): int {
    var u := x % TWO_64;
    if u >= TWO_63 then u - TWO_64 else u
  }

  // d << k on int64: shift counts of 64 and above give 0.
  function ShiftLeft64(d: int, k: nat): int {
    if k >= 64 then 0 else Wrap64(d * Pow2(k))
  }

  // The delay before retry number `attempt`.
  function BackoffDelay(base: int, attempt: nat): int
    requires attempt >= 1
  {
    var d := ShiftLeft64(base, attempt - 1);
    if d > MAX_DELAY || d <= 0 then MAX_DELAY else d
  }

  // An overflow the guard lets through: some high bits are lost, and what is left of the
  // delay looks like a legitimate one.
  predicate Slips(base: int, k: nat) {
    k < 64 && base >= Pow2(64 - k) && 0 < (base % Pow2(64 - k)) * Pow2(k) < MAX_DELAY
  }

  // ---- multiplication ------------------------------------------------------------------------

  lemma MulSum(a: int, b: int, c: int)
    ensures (a + b) * c == a * c + b * c
    ensures c * (a + b) == c * a + c * b
  {
  }

  lemma MulAssoc(a: int, b: int, c: int)
    ensures (a * b) * c == a * (b * c)
  {
  }

  lemma MulLess(a: int, b: int, c: int)
    requires a < b && c > 0
    ensures a * c + c <= b * c
  {
    MulSum(a + 1, b - a - 1, c);
    MulSum(a, 1, c);
  }

  lemma MulLeq(a: int, b: int, c: int)
    requires a <= b && c > 0
    ensures a * c <= b * c
  {
    if a < b {
      MulLess(a, b, c);
    }
  }

  lemma RemainderIs(x: nat, n: nat, q: int, u: nat)
    requires n > 0 && x == q * n + u && u < n
    ensures x % n == u
  {
    var q' := x / n;
    assert x == q' * n + x % n;
    if q < q' {
      MulLess(q, q', n);
    } else if q > q' {
      MulLess(q', q, n);
    }
  }

  // ---- powers of two ----------------------------------------------------------------------

  lemma {:induction false} Pow2Add(a: nat, b: nat)
    ensures Pow2(a + b) == Pow2(a) * Pow2(b)
  {
    if a > 0 {
      Pow2Add(a - 1, b);
      MulAssoc(2, Pow2(a - 1), Pow2(b));
    }
  }

  lemma Pow2Values()
    ensures Pow2(32) == 0x1_0000_0000 && Pow2(33) == 0x2_0000_0000 && Pow2(64) == 0x1_0000_0000_0000_0000
  {
    Pow2Of16();
    hide Pow2;
    Pow2Add(16, 16);
    Pow2Add(32, 32);
    Pow2Of1();
    Pow2Add(1, 32);
  }

  lemma Pow2Of1()
    ensures Pow2(1) == 2
  {
    assert Pow2(0) == 1;
  }

  lemma Pow2Of16()
    ensures Pow2(16) == 65536
  {
    assert Pow2(4) == 16;
    Pow2Add(4, 4);
    Pow2Add(8, 8);
  }

  lemma {:induction false} Pow2Grows(a: nat, b: nat)
    requires a <= b
    ensures Pow2(a) <= Pow2(b)
  {
    if a < b {
      Pow2Grows(a, b - 1);
    }
  }

  // The low bits of a shifted value are the shifted lower bits.
  lemma ShiftedRemainder(base: nat, m: nat, p: nat)
    requires m > 0 && p > 0
    ensures 0 <= (base % m) * p < m * p
    ensures (base * p) % (m * p) == (base % m) * p
  {
    var q, r := base / m, base % m;
    assert base == q * m + r;
    MulSum(q * m, r, p);
    MulAssoc(q, m, p);
    MulLess(r, m, p);
    MulLeq(0, r, p);
    RemainderIs(base * p, m * p, q, r * p);
  }

  // ---- exactness ----------------------------------------------------------------------------

  lemma ShiftedValue(base: nat, k: nat)
    requires k < 64
    ensures ShiftLeft64(base, k) == Wrap64((base % Pow2(64 - k)) * Pow2(k))
    ensures 0 <= (base % Pow2(64 - k)) * Pow2(k) < TWO_64
    ensures if base < Pow2(64 - k) then base * Pow2(k) == (base % Pow2(64 - k)) * Pow2(k) else base * Pow2(k) >= TWO_64
  {
    var m, p := Pow2(64 - k), Pow2(k);
    Pow2Add(64 - k, k);
    Pow2Values();
    ShiftedRemainder(base, m, p);
    if base >= m {
      MulLeq(m, base, p);
    } else {
      RemainderIs(base, m, 0, base);
    }
  }

  lemma ManyDoublings(base: int, k: nat)
    requires base > 0 && k >= 64
    ensures base * Pow2(k) >= TWO_64
  {
    Pow2Values();
    Pow2Grows(64, k);
    MulLeq(1, base, Pow2(k));
  }

  // For every positive int64 base and every attempt: the delay is the ideal one if and only
  // if no overflow slips past the guard.
  lemma ExactUnlessItSlips(base: int, attempt: nat)
    requires 0 < base < TWO_63 && attempt >= 1
    ensures BackoffDelay(base, attempt) == Min(base * Pow2(attempt - 1), 5_000_000_000) <==>
            !(attempt <= 64 && base >= Pow2(65 - attempt) &&
              0 < (base % Pow2(65 - attempt)) * Pow2(attempt - 1) < 5_000_000_000)
  {
    hide Pow2;
    var k := attempt - 1;
    if k >= 64 {
      ManyDoublings(base, k);
    } else {
      ShiftedValue(base, k);
      ProductNotZero(base, Pow2(k));
      GuardedWrap((base % Pow2(64 - k)) * Pow2(k), base * Pow2(k), base >= Pow2(64 - k));
    }
  }

  // The guard on a wrapped value u of a product: exact unless bits were lost and what is left
  // looks small.
  lemma GuardedWrap(u: int, product: int, lost: bool)
    requires 0 <= u < TWO_64 && product > 0
    requires if lost then product >= TWO_64 else product == u
    ensures var d := Wrap64(u);
            (if d > MAX_DELAY || d <= 0 then MAX_DELAY else d) == Min(product, MAX_DELAY) <==>
              !(lost && 0 < u < MAX_DELAY)
  {
  }

  lemma ProductNotZero(a: int, b: int)
    requires a > 0 && b > 0
    ensures a * b > 0
  {
  }

  // A remainder shifted by 33 or more is zero or out of range.
  lemma FarShiftsAreSafe(base: nat, k: nat)
    requires 33 <= k < 64
    ensures !Slips(base, k)
  {
    hide Pow2;
    Pow2Values();
    Pow2Grows(33, k);
    var r := base % Pow2(64 - k);
    if r > 0 {
      MulLeq(1, r, Pow2(k));
    }
  }

  // Up to a base of 2^32 ns (about 4.3 s) nothing ever slips, at any attempt.
  lemma ExactUpTo2To32(base: int, attempt: nat)
    requires 0 < base <= 0x1_0000_0000 && attempt >= 1
    ensures BackoffDelay(base, attempt) == Min(base * Pow2(attempt - 1), 5_000_000_000)
  {
    hide Pow2, BackoffDelay;
    var k := attempt - 1;
    ExactUnlessItSlips(base, attempt);
    Pow2Values();
    if k < 32 {
      Pow2Grows(33, 64 - k);
    } else if k == 32 {
      if base == TWO_32 {
        RemainderIs(base, TWO_32, 1, 0);
      }
    } else if k < 64 {
      FarShiftsAreSafe(base, k);
    }
  }

  // One nanosecond more and attempt 33 waits 2^32 ns instead of five seconds.
  lemma BoundIsSharp()
    ensures BackoffDelay(0x1_0000_0001, 33) == 0x1_0000_0000
    ensures Min(0x1_0000_0001 * Pow2(32), 5_000_000_000) == 5_000_000_000
  {
    Pow2Values();
    assert (TWO_32 + 1) * TWO_32 == TWO_64 + TWO_32;
    assert (TWO_64 + TWO_32) % TWO_64 == TWO_32;
  }

  lemma DelayInRange(base: int, attempt: nat)
    requires attempt >= 1
    ensures 0 < BackoffDelay(base, attempt) <= 5_000_000_000
  {
  }

  // ---- jitter ---------------------------------------------------------------------------------

  // The draw is uniform on [0, d/2]; None is a failing random source.
  function Jitter(d: int, draw: Option<nat>): int {
    if d <= 0 then 0
    else
      match draw
      case None => d
      case Some(n) => d / 2 + n
  }

  predicate DrawFits(d: int, draw: Option<nat>) {
    draw.Some? ==> draw.value <= d / 2
  }

  // ---- the waits of a whole call ----------------------------------------------------------------

  function Sum(xs: seq<int>): int {
    if xs == [] then 0 else Sum(xs[..|xs| - 1]) + xs[|xs| - 1]
  }

  function Delays(base: int, n: nat): seq<int> {
    seq(n, i requires 0 <= i < n => BackoffDelay(base, i + 1))
  }

  function Halves(ds: seq<int>): seq<int> {
    seq(|ds|, i requires 0 <= i < |ds| => ds[i] / 2)
  }

  // Each wait is a jittered backoff delay.
  ghost predicate JitteredWaits(base: int, waits: seq<int>) {
    forall i :: 0 <= i < |waits| ==> JitteredWait(BackoffDelay(base, i + 1), waits[i])
  }

  ghost predicate JitteredWait(d: int, wait: int) {
    exists draw :: DrawFits(d, draw) && wait == Jitter(d, draw)
  }

  // Jitter stays in the top half of the delay, random source or not.
  lemma JitterInRange(d: int, wait: int)
    requires d > 0 && JitteredWait(d, wait)
    ensures d / 2 <= wait <= d
  {
  }

  lemma {:induction false} SumBetween(lo: seq<int>, xs: seq<int>, hi: seq<int>)
    requires |lo| == |xs| == |hi| && forall i :: 0 <= i < |xs| ==> lo[i] <= xs[i] <= hi[i]
    ensures Sum(lo) <= Sum(xs) <= Sum(hi)
  {
    if xs != [] {
      var n := |xs| - 1;
      SumBetween(lo[..n], xs[..n], hi[..n]);
    }
  }

  lemma {:induction false} DelaysSum(base: int, n: nat)
    requires 0 < base <= 0x1_0000_0000
    ensures Sum(Delays(base, n)) <= base * (Pow2(n) - 1)
    ensures Sum(Delays(base, n)) <= n * 5_000_000_000
  {
    if n > 0 {
      DelaysSum(base, n - 1);
      assert Delays(base, n)[..n - 1] == Delays(base, n - 1);
      ExactUpTo2To32(base, n);
      MulSum(Pow2(n - 1) - 1, Pow2(n - 1), base);
      DelayInRange(base, n);
      hide BackoffDelay;
    }
  }

  lemma WaitsBetween(base: int, waits: seq<int>)
    requires JitteredWaits(base, waits)
    ensures Sum(Halves(Delays(base, |waits|))) <= Sum(waits) <= Sum(Delays(base, |waits|))
  {
    var ds := Delays(base, |waits|);
    hide BackoffDelay, Sum, Pow2;
    forall i | 0 <= i < |waits| ensures Halves(ds)[i] <= waits[i] <= ds[i] {
      assert JitteredWait(BackoffDelay(base, i + 1), waits[i]);
      DelayInRange(base, i + 1);
      JitterInRange(BackoffDelay(base, i + 1), waits[i]);
    }
    SumBetween(Halves(ds), waits, ds);
  }

  // n retries wait at least half and at most all of the backoff delays, and in all never
  // more than base * (2^n - 1), nor more than five seconds each.
  lemma TotalWaitBounds(base: int, waits: seq<int>)
    requires 0 < base <= 0x1_0000_0000 && JitteredWaits(base, waits)
    ensures Sum(Halves(Delays(base, |waits|))) <= Sum(waits) <= Sum(Delays(base, |waits|))
    ensures Sum(Delays(base, |waits|)) <= base * (Pow2(|waits|) - 1)
    ensures Sum(Delays(base, |waits|)) <= |waits| * 5_000_000_000
  {
    hide JitteredWaits, Sum, Delays, Halves;
    WaitsBetween(base, waits);
    DelaysSum(base, |waits|);
  }
}
