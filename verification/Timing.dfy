/** The programmable timer and the cycle pacer: fixed-point scaling between host
    microseconds, system cycles and timer ticks, over whole runs. */
module Timing {
  import opened Arith

  const MICROS_PER_SECOND := 1_000_000

  type uint64 = x: int | 0 <= x < 0x1_0000_0000_0000_0000

  // ------------------------------------------------------------------ scaleU64

  /** The form with a 128-bit product. */
  function ScaleWide(value: uint64, numerator: uint64, denominator: uint64): uint64 {
    if value == 0 || numerator == 0 || denominator == 0 then 0
    else value * numerator / denominator % TWO64
  }

  /** The form with 64-bit products only. */
  function ScaleSplit(value: uint64, numerator: uint64, denominator: uint64): uint64 {
    if value == 0 || numerator == 0 || denominator == 0 then 0
    else (value / denominator * numerator % TWO64
          + value % denominator * numerator % TWO64 / denominator) % TWO64
  }

  lemma SplitProduct(v: nat, n: nat, d: nat)
    requires d > 0
    ensures v * n / d == v / d * n + v % d * n / d
    ensures v % d * n / d <= n && (n > 0 ==> v % d * n / d < n)
  {
    DivBounds(v, d);
    var q, r := v / d, v % d;
    assert v == d * q + r;
    DivBounds(r * n, d);
    var s := r * n / d;
    assert v * n == d * (q * n) + r * n by { assert (d * q) * n == d * (q * n); }
    assert d * (q * n + s) == d * (q * n) + d * s;
    DivUnique(v * n, d, q * n + s);
    assert r * n <= (d - 1) * n by { MulMono(r, d - 1, n); }
    assert d * s <= d * n - n;
    if n > 0 && s >= n {
      MulMono(n, s, d);
      assert false;
    }
  }

  lemma CutOnce(a: nat, x: uint64)
    ensures (a % TWO64 + x) % TWO64 == (a + x) % TWO64
  {}

  lemma SameSum(a: nat, x: uint64, y: uint64)
    ensures (a % TWO64 + x) % TWO64 == (a + y) % TWO64 <==> x == y
  {}

  /** A product cut to 64 bits has a smaller quotient. */
  lemma CutQuotient(p: nat, d: uint64)
    requires p >= TWO64 && d > 0
    ensures p % TWO64 / d < p / d
  {
    var low := p % TWO64;
    DivBounds(low, d);
    assert d * (low / d + 1) == d * (low / d) + d;
    DivUnique(low + d, d, low / d + 1);
    DivMono(low + d, p, d);
  }

  lemma UncutSum(a: nat, p: nat, cut: nat, d: uint64)
    requires d > 0 && cut == p && p / d < TWO64
    ensures (a % TWO64 + cut / d) % TWO64 == (a + p / d) % TWO64
  {
    CutOnce(a, p / d);
  }

  lemma CutSmall(p: nat)
    requires p < TWO64
    ensures p % TWO64 == p
  {}

  lemma CutSum(a: nat, p: nat, d: uint64)
    requires d > 0 && p / d < TWO64
    ensures (a % TWO64 + p % TWO64 / d) % TWO64 == (a + p / d) % TWO64 <==> p < TWO64
  {
    if p >= TWO64 {
      CutQuotient(p, d);
      SameSum(a, p % TWO64 / d, p / d);
    } else {
      CutSmall(p);
      UncutSum(a, p, p % TWO64, d);
    }
  }

  /** The two forms of scaleU64 agree exactly when the remainder product fits in 64 bits. */
  lemma ScaleFormsAgree(v: uint64, n: uint64, d: uint64)
    requires v > 0 && n > 0 && d > 0
    ensures ScaleSplit(v, n, d) == ScaleWide(v, n, d) <==> v % d * n < TWO64
  {
    SplitProduct(v, n, d);
    DivBounds(v, d);
    var a, p: nat := v / d * n, v % d * n;
    CutSum(a, p, d);
    assert v * n / d == a + p / d;
  }

  // -------------------------------------------------------------------- the scales

  predicate IsClock(hz: nat) { hz == 16_000_000 || hz == 20_000_000 }

  datatype Scale = NoScale | Scale(numerator: uint64, denominator: uint64)

  /** Ticks per system cycle, or per microsecond while the PLL is off. */
  function TimerScale(source: nat, prescaler: nat, hz: nat, asleep: bool): (s: Scale)
    requires source < 8 && 1 <= prescaler <= 256 && IsClock(hz)
    ensures s.Scale? <==> source !in {0, 3}
    ensures s.Scale? ==> 0 < s.numerator && 0 < s.denominator
                         && s.numerator * s.denominator < TWO64
    ensures s.Scale? && !asleep ==> s.numerator <= s.denominator
    ensures !asleep && source in {1, 2} ==> s.numerator == 1
  {
    if source == 1 then
      if asleep then Scale(hz, MICROS_PER_SECOND * prescaler) else Scale(1, prescaler)
    else if source == 2 then
      if asleep then Scale(hz, MICROS_PER_SECOND * prescaler * 16) else Scale(1, prescaler * 16)
    else if source < 4 then NoScale
    else Scale(32768, if asleep then MICROS_PER_SECOND * prescaler else hz * prescaler)
  }

  /** For the timer's scales scaleU64 is the exact quotient, in both directions. */
  lemma ScaleIsFloor(v: uint64, n: uint64, d: uint64)
    requires n > 0 && d > 0 && n * d < TWO64
    ensures ScaleSplit(v, n, d) == ScaleWide(v, n, d) == Cut64(Quot(v * n, d))
    ensures ScaleSplit(v, d, n) == ScaleWide(v, d, n) == Cut64(Quot(v * d, n))
  {
    if v > 0 {
      DivBounds(v, d);
      DivBounds(v, n);
      MulMono(v % d, d, n);
      MulMono(v % n, n, d);
      assert n * d == d * n;
      ScaleFormsAgree(v, n, d);
      ScaleFormsAgree(v, d, n);
      QuotIsDiv(v * n, d);
      QuotIsDiv(v * d, n);
    } else {
      assert v * n == 0 && v * d == 0;
    }
  }

  // --------------------------------------------------------- sampling the timer

  /** Casts to uint64_t and uint32_t. */
  function Cut64(x: nat): (r: uint64)
    ensures r <= x && (x < TWO64 ==> r == x)
  {
    x % TWO64
  }

  function Cut32(x: nat): (r: nat)
    ensures r < TWO32 && r <= x && (x < TWO32 ==> r == x)
  {
    x % TWO32
  }

  /** And to uint16_t. */
  function Cut16(x: int): (r: nat)
    ensures r < 0x10000
  {
    x % 0x10000
  }

  lemma Cut16OfCut32(x: nat, c: nat)
    ensures Cut16(Cut32(x) - c) == Cut16(x - c)
  {
    assert Cut32(x) == x - TWO32 * (x / TWO32);
    assert (x - c - 0x10000 * (0x10000 * (x / TWO32))) % 0x10000 == (x - c) % 0x10000;
  }

  /** What one sampling call delivers and how far it moves the baseline. */
  function Ticks(elapsed: uint64, n: uint64, d: uint64): (t: nat)
    requires n > 0 && d > 0
    ensures t < TWO32
  {
    Cut32(Cut64(Quot(elapsed * n, d)))
  }

  function Consumed(elapsed: uint64, n: uint64, d: uint64): uint64
    requires n > 0 && d > 0
  {
    var back := Cut64(Quot(Ticks(elapsed, n, d) * d, n));
    if back == 0 then elapsed else back
  }

  lemma BaselineBounds(e: nat, n: nat, d: nat, t: nat, c: int)
    requires 0 < n <= d && t > 0
    requires d * t <= e * n < d * t + d && n * c <= t * d < n * c + n
    ensures 0 < c <= e && (e - c) * n < d + n
  {
    MulMono(1, t, d);
    MulAtLeast(n, c);
    MulAtLeast(n, c - e);
    assert n * (c - e) == n * c - n * e && (e - c) * n == e * n - n * c;
  }

  lemma Uncut(elapsed: uint64, n: uint64, d: uint64, t: nat, c: nat)
    requires n > 0 && d > 0 && t == Quot(elapsed * n, d) && t < TWO32
    requires t > 0 ==> c == Quot(t * d, n) && 0 < c < TWO64
    ensures Ticks(elapsed, n, d) == t && (t > 0 ==> Consumed(elapsed, n, d) == c)
  {}

  /** Awake: the baseline never passes the time sampled, and what stays behind it is less
      than a tick, or a tick and a cycle once something was delivered. */
  lemma Baseline(elapsed: uint64, n: uint64, d: uint64)
    requires 0 < n <= d && Quot(elapsed * n, d) < TWO32 && Ticks(elapsed, n, d) > 0
    ensures var t, c := Ticks(elapsed, n, d), Consumed(elapsed, n, d);
            && 0 < c <= elapsed && n * c <= t * d < n * c + n && (elapsed - c) * n < d + n
            && d * t <= elapsed * n < d * t + d
  {
    var t := Quot(elapsed * n, d);
    var c := Quot(t * d, n);
    QuotBounds(elapsed * n, d);
    QuotBounds(t * d, n);
    BaselineBounds(elapsed, n, d, t, c);
    Uncut(elapsed, n, d, t, c);
  }

  /** Awake, cut short or not: time is consumed, and not past the time sampled. */
  lemma ConsumedBounded(elapsed: uint64, n: uint64, d: uint64)
    requires 0 < n <= d && Ticks(elapsed, n, d) > 0
    ensures 0 < Consumed(elapsed, n, d) <= elapsed
  {
    var q, t := Quot(elapsed * n, d), Ticks(elapsed, n, d);
    var c := Quot(t * d, n);
    QuotBounds(elapsed * n, d);
    QuotBounds(t * d, n);
    MulMono(t, q, d);
    MulMono(1, t, d);
    MulAtLeast(n, c);
    MulAtLeast(n, c - elapsed);
    assert n * (c - elapsed) == n * c - n * elapsed;
  }

  /** The baseline, the ticks delivered so far and the number of calls that delivered any. */
  datatype Sampling = Sampling(last: uint64, total: nat, deliveries: nat)

  function Sample(r: Sampling, now: uint64, n: uint64, d: uint64): (s: Sampling)
    requires 0 < n <= d
  {
    if now <= r.last || Ticks(now - r.last, n, d) == 0 then r
    else
      ConsumedBounded(now - r.last, n, d);
      Sampling(r.last + Consumed(now - r.last, n, d), r.total + Ticks(now - r.last, n, d), r.deliveries + 1)
  }

  /** Sampling the timer at the given cycle counts. */
  function Sampled(base: uint64, n: uint64, d: uint64, samples: seq<uint64>): (r: Sampling)
    requires 0 < n <= d
  {
    if samples == [] then Sampling(base, 0, 0)
    else Sample(Sampled(base, n, d, samples[..|samples| - 1]), samples[|samples| - 1], n, d)
  }

  function Final(base: uint64, samples: seq<uint64>): uint64 {
    if samples == [] then base else samples[|samples| - 1]
  }

  predicate Ordered(base: uint64, samples: seq<uint64>) {
    samples == [] || (Ordered(base, samples[..|samples| - 1])
                      && Final(base, samples[..|samples| - 1]) <= samples[|samples| - 1])
  }

  /** The call counts fewer than 2^32 ticks. */
  predicate Small(last: uint64, now: uint64, n: uint64, d: uint64)
    requires 0 < d
  {
    now > last ==> Quot((now - last) * n, d) < TWO32
  }

  predicate Fits(base: uint64, n: uint64, d: uint64, samples: seq<uint64>)
    requires 0 < n <= d
  {
    samples == []
    || (Fits(base, n, d, samples[..|samples| - 1])
        && Small(Sampled(base, n, d, samples[..|samples| - 1]).last, samples[|samples| - 1], n, d))
  }

  /** Ticks owed at the end of a schedule. */
  function Owed(base: uint64, d: uint64, samples: seq<uint64>): (k: nat)
    requires d > 0
  {
    var last := Sampled(base, 1, d, samples).last;
    if last <= Final(base, samples) then Quot(Final(base, samples) - last, d) else 0
  }

  /** Clock sources 1 and 2: whatever the schedule, delivered and owed ticks make up the
      whole number of divisors elapsed; what is owed is a multiple of 2^32, and nothing is
      owed exactly when no call saw that many. */
  lemma {:induction false} Conservation(base: uint64, d: uint64, samples: seq<uint64>)
    requires d > 0 && Ordered(base, samples)
    ensures var r, end := Sampled(base, 1, d, samples), Final(base, samples);
            && base + r.total * d == r.last <= end
            && Quot(end - base, d) == r.total + Owed(base, d, samples)
            && Owed(base, d, samples) % TWO32 == 0
            && (Fits(base, 1, d, samples) <==> Owed(base, d, samples) == 0)
  {
    if samples == [] {
      QuotUnique(0, d, 0);
    } else {
      var before := samples[..|samples| - 1];
      Conservation(base, d, before);
      ConservationStep(base, d, Sampled(base, 1, d, before), Final(base, before), Final(base, samples));
    }
  }

  lemma ConservationStep(base: uint64, d: uint64, r: Sampling, prev: uint64, now: uint64)
    requires d > 0 && base + r.total * d == r.last <= prev <= now && Quot(prev - r.last, d) % TWO32 == 0
    ensures var s := Sample(r, now, 1, d);
            && base + s.total * d == s.last <= now
            && Quot(now - base, d) == s.total + Quot(now - s.last, d)
            && Quot(now - s.last, d) % TWO32 == 0
            && (Quot(prev - r.last, d) == 0 && Small(r.last, now, 1, d) <==> Quot(now - s.last, d) == 0)
  {
    var q, s := Quot(now - r.last, d), Sample(r, now, 1, d);
    WholeTicks(r, now, d);
    SmallQuot(r.last, now, d);
    QuotMono(prev - r.last, now - r.last, d);
    OwedCut(Quot(prev - r.last, d), q);
    Accounted(base, d, r.total, Cut32(q), s.total);
    WholeSum(base, s.total, s.last, now, d);
  }

  lemma SmallQuot(last: uint64, now: uint64, d: uint64)
    requires d > 0 && last <= now
    ensures Small(last, now, 1, d) <==> Quot(now - last, d) < TWO32
  {
    assert (now - last) * 1 == now - last;
    if now == last {
      QuotUnique(0, d, 0);
    }
  }

  lemma Accounted(base: nat, d: nat, before: nat, more: nat, total: nat)
    requires total == before + more
    ensures base + total * d == base + before * d + more * d
  {}

  lemma WholeTicks(r: Sampling, now: uint64, d: uint64)
    requires d > 0 && r.last <= now
    ensures var q, s := Quot(now - r.last, d), Sample(r, now, 1, d);
            && s.total == r.total + Cut32(q) && s.last == r.last + Cut32(q) * d <= now
            && Quot(now - s.last, d) == q - Cut32(q)
  {
    var e := now - r.last;
    var q := Quot(e, d);
    var t := Cut32(q);
    QuotBounds(e, d);
    MulMono(1, d, q);
    MulMono(t, q, d);
    assert d * (q - t) == d * q - d * t;
    QuotUnique(e - t * d, d, q - t);
    UnitTicks(e, d);
    if e == 0 { QuotUnique(0, d, 0); }
  }

  lemma UnitTicks(e: uint64, d: uint64)
    requires d > 0
    ensures Ticks(e, 1, d) == Cut32(Quot(e, d))
    ensures Ticks(e, 1, d) > 0 ==> Consumed(e, 1, d) == Ticks(e, 1, d) * d
  {
    var q := Quot(e, d);
    var t := Cut32(q);
    assert e * 1 == e;
    QuotBounds(e, d);
    MulMono(1, d, q);
    MulMono(t, q, d);
    MulMono(1, d, t);
    QuotUnique(t * d, 1, t * d);
  }

  lemma QuotMono(x: nat, y: nat, d: nat)
    requires d > 0 && x <= y
    ensures Quot(x, d) <= Quot(y, d)
  {
    QuotIsDiv(x, d);
    QuotIsDiv(y, d);
    DivMono(x, y, d);
  }

  lemma WholeSum(base: uint64, total: nat, last: uint64, now: uint64, d: uint64)
    requires d > 0 && base + total * d == last <= now
    ensures Quot(now - base, d) == total + Quot(now - last, d)
  {
    var q := Quot(now - last, d);
    QuotBounds(now - last, d);
    assert d * (total + q) == d * total + d * q;
    QuotUnique(now - base, d, total + q);
  }

  lemma OwedCut(before: nat, q: nat)
    requires before % TWO32 == 0 && before <= q
    ensures (q - Cut32(q)) % TWO32 == 0 && (q - Cut32(q) == 0 <==> q < TWO32) && (q < TWO32 ==> before == 0)
  {}

  /** A schedule no call of which counts 2^32 ticks delivers all the whole divisors elapsed. */
  lemma FitTotal(base: uint64, d: uint64, s: seq<uint64>)
    requires d > 0 && Ordered(base, s) && Fits(base, 1, d, s)
    ensures base <= Final(base, s) && Sampled(base, 1, d, s).total == Quot(Final(base, s) - base, d)
    ensures Sampled(base, 1, d, s).last == base + Quot(Final(base, s) - base, d) * d
  {
    Conservation(base, d, s);
  }

  /** Two schedules over the same stretch deliver the same ticks, however they sample it. */
  lemma ScheduleIndependence(base: uint64, d: uint64, s: seq<uint64>, t: seq<uint64>)
    requires d > 0 && Ordered(base, s) && Ordered(base, t) && Final(base, s) == Final(base, t)
    requires Fits(base, 1, d, s) && Fits(base, 1, d, t)
    ensures base <= Final(base, s)
            && Sampled(base, 1, d, s).total == Sampled(base, 1, d, t).total == Quot(Final(base, s) - base, d)
    ensures Sampled(base, 1, d, s).last == Sampled(base, 1, d, t).last
  {
    FitTotal(base, d, s);
    FitTotal(base, d, t);
  }

  /** Any scale, so also the 32 kHz source: the ticks delivered stand for the elapsed time to
      within less than a cycle for each call that delivered, beside the tick in progress. */
  lemma {:induction false} ErrorBound(base: uint64, n: uint64, d: uint64, samples: seq<uint64>)
    requires 0 < n <= d && Ordered(base, samples) && Fits(base, n, d, samples)
    ensures var r, end := Sampled(base, n, d, samples), Final(base, samples);
            && base <= r.last <= end
            && (end - base) * n - d - n < r.total * d <= (end - base + r.deliveries) * n
            && (r.deliveries > 0 ==> r.total * d < (end - base + r.deliveries) * n)
  {
    DriftBound(base, n, d, samples);
    var r, end := Sampled(base, n, d, samples), Final(base, samples);
    assert (end - base) * n == (end - r.last) * n + (r.last - base) * n;
    MulMono(r.last - base + r.deliveries, end - base + r.deliveries, n);
  }

  lemma {:induction false} DriftBound(base: uint64, n: uint64, d: uint64, samples: seq<uint64>)
    requires 0 < n <= d && Ordered(base, samples) && Fits(base, n, d, samples)
    ensures var r, end := Sampled(base, n, d, samples), Final(base, samples);
            && base <= r.last <= end && (end - r.last) * n < d + n
            && (r.last - base) * n <= r.total * d <= (r.last - base + r.deliveries) * n
            && (r.deliveries > 0 ==> r.total * d < (r.last - base + r.deliveries) * n)
  {
    if samples == [] {
      assert 0 * n == 0 && 0 * d == 0;
    } else {
      var before := samples[..|samples| - 1];
      DriftBound(base, n, d, before);
      DriftStep(base, n, d, Sampled(base, n, d, before), Final(base, before), Final(base, samples));
    }
  }

  lemma DriftStep(base: uint64, n: uint64, d: uint64, r: Sampling, prev: uint64, now: uint64)
    requires 0 < n <= d && base <= r.last <= prev <= now && Small(r.last, now, n, d) && (prev - r.last) * n < d + n
    requires (r.last - base) * n <= r.total * d <= (r.last - base + r.deliveries) * n
    requires r.deliveries > 0 ==> r.total * d < (r.last - base + r.deliveries) * n
    ensures var s := Sample(r, now, n, d);
            && base <= s.last <= now && (now - s.last) * n < d + n
            && (s.last - base) * n <= s.total * d <= (s.last - base + s.deliveries) * n
            && (s.deliveries > 0 ==> s.total * d < (s.last - base + s.deliveries) * n)
  {
    var s, e := Sample(r, now, n, d), now - r.last;
    if now > r.last {
      QuotBounds(e * n, d);
      if Ticks(e, n, d) == 0 {
        NoTicks(e, n, d);
      } else {
        Baseline(e, n, d);
        var t, c := Ticks(e, n, d), Consumed(e, n, d);
        DriftSum(r.last - base, r.total, r.deliveries, c, t, n, d);
        assert now - s.last == e - c && s.last - base == r.last - base + c;
      }
    }
  }

  lemma NoTicks(e: uint64, n: uint64, d: uint64)
    requires 0 < n <= d && Ticks(e, n, d) == 0 && Quot(e * n, d) < TWO32
    ensures e * n < d
  {
    assert Quot(e * n, d) == 0;
    QuotBounds(e * n, d);
  }

  lemma DriftSum(a: nat, total: nat, k: nat, c: nat, t: nat, n: nat, d: nat)
    requires a * n <= total * d <= (a + k) * n && n * c <= t * d < n * c + n
    ensures (a + c) * n <= (total + t) * d < (a + c + (k + 1)) * n
  {
    assert (a + c) * n == a * n + n * c && (total + t) * d == total * d + t * d;
    assert (a + c + (k + 1)) * n == (a + k) * n + n * c + n;
  }

  // -------------------------------------------------------------------- the pacer

  datatype Pacer = Pacer(cycles: uint64, hostMicros: uint64, base: uint64)

  /** The cycles a host interval is worth. */
  function Worth(micros: uint64, hz: nat): (c: nat) { Quot(micros * hz, MICROS_PER_SECOND) }

  /** The pacer's promise: cycles lie between the base and the base plus the worth of the
      host time since. */
  predicate Paced(p: Pacer, now: uint64, hz: nat) {
    p.hostMicros <= now && p.base <= p.cycles <= p.base + Worth(now - p.hostMicros, hz)
  }

  function Rebased(p: Pacer, now: uint64): Pacer {
    if p.hostMicros == 0 || now < p.hostMicros then Pacer(p.cycles, now, p.cycles) else p
  }

  /** As many of the requested cycles as the host clock allows. */
  function Advanced(p: Pacer, cycles: nat, now: uint64, hz: nat): (q: Pacer)
    requires Room(p, cycles, now, hz)
  {
    var b := Rebased(p, now);
    var limit := b.base + Worth(now - b.hostMicros, hz);
    b.(cycles := if p.cycles + cycles <= limit then p.cycles + cycles else if limit < p.cycles then p.cycles else limit)
  }

  /** Neither the request nor the limit passes 2^64. */
  predicate Room(p: Pacer, cycles: nat, now: uint64, hz: nat) {
    p.cycles + cycles < TWO64 && Rebased(p, now).base + Worth(now - Rebased(p, now).hostMicros, hz) < TWO64
  }

  datatype Call = Call(cycles: nat, now: uint64)

  predicate Steady(p: Pacer, calls: seq<Call>, from: uint64, hz: nat)
    decreases |calls|
  {
    calls == []
    || (from <= calls[0].now && Room(p, calls[0].cycles, calls[0].now, hz)
        && Steady(Advanced(p, calls[0].cycles, calls[0].now, hz), calls[1..], calls[0].now, hz))
  }

  function AfterCalls(p: Pacer, calls: seq<Call>, from: uint64, hz: nat): Pacer
    requires Steady(p, calls, from, hz)
    decreases |calls|
  {
    if calls == [] then p
    else AfterCalls(Advanced(p, calls[0].cycles, calls[0].now, hz), calls[1..], calls[0].now, hz)
  }

  function LastNow(calls: seq<Call>, from: uint64): uint64 {
    if calls == [] then from else calls[|calls| - 1].now
  }

  lemma WorthMono(a: uint64, b: uint64, hz: nat)
    requires a <= b
    ensures Worth(a, hz) <= Worth(b, hz)
  {
    MulMono(a, b, hz);
    QuotMono(a * hz, b * hz, MICROS_PER_SECOND);
  }

  /** A call on a pacer that is set keeps its base, never takes cycles back, grants no more
      than asked and stays below the worth of the host time since the base. */
  lemma PacedStep(p: Pacer, cycles: nat, from: uint64, now: uint64, hz: nat)
    requires Paced(p, from, hz) && from <= now && Room(p, cycles, now, hz) && p.hostMicros != 0
    ensures var q := Advanced(p, cycles, now, hz);
            && q.base == p.base && q.hostMicros == p.hostMicros && Paced(q, now, hz)
            && q.cycles >= p.cycles
            && q.cycles == (if p.cycles + cycles <= p.base + Worth(now - p.hostMicros, hz) then p.cycles + cycles
                            else p.base + Worth(now - p.hostMicros, hz))
  {
    WorthMono(from - p.hostMicros, now - p.hostMicros, hz);
  }

  /** A pacer that is not set takes the current cycles and host time as its base, and grants
      nothing yet. */
  lemma UnsetStep(p: Pacer, cycles: nat, now: uint64, hz: nat)
    requires p.hostMicros == 0 && Room(p, cycles, now, hz)
    ensures Advanced(p, cycles, now, hz) == Pacer(p.cycles, now, p.cycles)
  {
    assert Worth(0, hz) == 0;
  }

  /** Over every run of calls with a non-decreasing host clock, measured from the reset the
      run starts from. */
  lemma {:induction false} PacedRun(p: Pacer, calls: seq<Call>, from: uint64, hz: nat)
    requires Paced(p, from, hz) && Steady(p, calls, from, hz) && p.hostMicros != 0
    ensures var q := AfterCalls(p, calls, from, hz);
            && q.base == p.base && q.hostMicros == p.hostMicros <= LastNow(calls, from)
            && p.cycles <= q.cycles <= p.base + Worth(LastNow(calls, from) - p.hostMicros, hz)
    decreases |calls|
  {
    if calls != [] {
      PacedStep(p, calls[0].cycles, from, calls[0].now, hz);
      PacedRun(Advanced(p, calls[0].cycles, calls[0].now, hz), calls[1..], calls[0].now, hz);
    }
  }

  /** The first host time of a run that is not zero. */
  function FirstClock(calls: seq<Call>): uint64 {
    if calls == [] then 0 else if calls[0].now != 0 then calls[0].now else FirstClock(calls[1..])
  }

  /** A run that starts with the pacer not set resets it at its first host time that is not
      zero, and there only. */
  lemma {:induction false} UnsetRun(p: Pacer, calls: seq<Call>, from: uint64, hz: nat)
    requires Steady(p, calls, from, hz) && p.hostMicros == 0 && p.base <= p.cycles
    ensures var q := AfterCalls(p, calls, from, hz);
            && q.hostMicros == FirstClock(calls) && q.hostMicros <= LastNow(calls, from)
            && (calls != [] ==> q.base == p.cycles)
            && p.cycles <= q.cycles
            && (calls != [] ==> q.cycles <= p.cycles + Worth(LastNow(calls, from) - q.hostMicros, hz))
    decreases |calls|
  {
    if calls != [] {
      UnsetStep(p, calls[0].cycles, calls[0].now, hz);
      var r := Pacer(p.cycles, calls[0].now, p.cycles);
      if r.hostMicros != 0 {
        PacedRun(r, calls[1..], calls[0].now, hz);
      } else {
        UnsetRun(r, calls[1..], calls[0].now, hz);
      }
    }
  }

  // --------------------------------------------------------------------- the source

  class Clocks {
    const hz: nat
    var asleep: bool                  // PLL_CONTROL_DISABLE in 0x200
    var control: nat                  // 0x600
    var prescaler: nat                // 0x602
    var compare: nat                  // 0x604
    var counter: nat                  // 0x608
    var compareStatus: bool           // TMR_STATUS_COMPARE in 0x60A
    var timerPending: bool            // INT_LO_TIMER in 0x312
    var systemCycles: uint64
    var timerLastCycles: uint64
    var timerLastHostMicros: uint64
    var cyclePaceHostMicros: uint64
    var cyclePaceBaseCycles: uint64
    ghost var total: nat              // ticks delivered, and by how many calls
    ghost var deliveries: nat

    predicate Valid()
      reads this
    {
      IsClock(hz) && control < 0x10000 && prescaler < 0x10000 && compare < 0x10000 && counter < 0x10000
    }

    ghost function ThePacer(): Pacer
      reads this
    {
      Pacer(systemCycles, cyclePaceHostMicros, cyclePaceBaseCycles)
    }

    ghost function TheSampling(): Sampling
      reads this
    {
      Sampling(timerLastCycles, total, deliveries)
    }

    function TheScale(): (s: Scale)
      requires Valid()
      reads this
      ensures s.Scale? ==> 0 < s.numerator && 0 < s.denominator && s.numerator * s.denominator < TWO64
      ensures s.Scale? && !asleep ==> s.numerator <= s.denominator
    {
      TimerScale(control / 2 % 8, prescaler % 0x100 + 1, hz, asleep)
    }

    constructor (clock: nat, now: uint64)
      requires IsClock(clock)
      ensures Valid() && hz == clock && Paced(ThePacer(), now, hz)
    {
      hz := clock;
      asleep, control, prescaler, compare, counter := false, 0, 0, 0xffff, 0;
      compareStatus, timerPending, systemCycles := false, false, 0;
      timerLastCycles, timerLastHostMicros, cyclePaceHostMicros, cyclePaceBaseCycles := 0, now, now, 0;
      total, deliveries := 0, 0;
    }

    method ResetCyclePacer(now: uint64)
      modifies this`cyclePaceHostMicros, this`cyclePaceBaseCycles
      ensures ThePacer() == Pacer(systemCycles, now, systemCycles)
    {
      cyclePaceHostMicros, cyclePaceBaseCycles := now, systemCycles;
    }

    /** palmHwAdvanceCycles. */
    method AdvanceCycles(cycles: nat, now: uint64)
      requires Valid() && cycles < TWO32
      modifies this`systemCycles, this`cyclePaceHostMicros, this`cyclePaceBaseCycles
      ensures Valid()
      ensures asleep ==> ThePacer() == Pacer(Cut64(old(systemCycles) + cycles), now, Cut64(old(systemCycles) + cycles))
      ensures !asleep && Room(old(ThePacer()), cycles, now, hz) ==>
                ThePacer() == Advanced(old(ThePacer()), cycles, now, hz)
    {
      var requested := Cut64(systemCycles + cycles);
      if asleep {
        systemCycles := requested;
        ResetCyclePacer(now);
        return;
      }
      if cyclePaceHostMicros == 0 || now < cyclePaceHostMicros {
        ResetCyclePacer(now);
      }
      var elapsed: uint64 := now - cyclePaceHostMicros;
      ScaleIsFloor(elapsed, hz, MICROS_PER_SECOND);
      var most := Cut64(cyclePaceBaseCycles + ScaleSplit(elapsed, hz, MICROS_PER_SECOND));
      if most < systemCycles {
        most := systemCycles;
      }
      systemCycles := if requested > most then most else requested;
    }

    method ResetTimerBaselines(now: uint64)
      modifies this`timerLastCycles, this`timerLastHostMicros
      ensures timerLastCycles == systemCycles && timerLastHostMicros == now
    {
      timerLastCycles, timerLastHostMicros := systemCycles, now;
    }

    /** The counter moves on by the ticks; reaching a set compare value raises the status and,
        when enabled, the interrupt, and restarts the counter unless it runs free. */
    method ApplyTimerTicks(ticks: nat)
      requires Valid() && ticks < TWO32
      modifies this`counter, this`compareStatus, this`timerPending, this`total, this`deliveries
      ensures Valid()
      ensures total == old(total) + ticks && deliveries == old(deliveries) + if ticks > 0 then 1 else 0
      ensures Counted(ticks, old(counter), old(compareStatus), old(timerPending))
    {
      total, deliveries := total + ticks, deliveries + if ticks > 0 then 1 else 0;
      if ticks == 0 { return; }
      var updated := Cut32(counter + ticks);
      Cut16OfCut32(counter + ticks, 0);
      Cut16OfCut32(counter + ticks, compare);
      counter := Cut16(updated);
      if compare != 0 && updated >= compare {
        compareStatus := true;
        if control / 0x100 % 2 == 0 {
          counter := Cut16(updated - compare);
        }
        if control / 0x10 % 2 == 1 {
          timerPending := true;
        }
      }
    }

    /** The counter after some ticks, in terms of what it counted from. */
    ghost predicate Counted(ticks: nat, from: nat, status: bool, pending: bool)
      reads this
    {
      var hit := ticks > 0 && compare != 0 && compare <= Cut32(from + ticks);
      && compareStatus == (status || hit)
      && timerPending == (pending || (hit && control / 0x10 % 2 == 1))
      && counter == Cut16(from + ticks - if hit && control / 0x100 % 2 == 0 then compare else 0)
    }

    /** No ticks leave the counter, its status and its interrupt alone; some are counted. */
    twostate predicate Ticked()
      reads this
    {
      if total == old(total) then
        counter == old(counter) && compareStatus == old(compareStatus) && timerPending == old(timerPending)
        && deliveries == old(deliveries)
      else
        total > old(total) && deliveries == old(deliveries) + 1
        && Counted(total - old(total), old(counter), old(compareStatus), old(timerPending))
    }

    /** updateTimer: a timer that is stopped, has no clock or wakes without a host baseline
        starts over; asleep it follows the host clock, awake the system cycles. */
    method UpdateTimer(now: uint64)
      requires Valid()
      modifies this`counter, this`compareStatus, this`timerPending, this`timerLastCycles, this`timerLastHostMicros,
               this`total, this`deliveries
      ensures Valid() && Ticked()
      ensures control % 2 == 0 || TheScale().NoScale? || (asleep && old(timerLastHostMicros) == 0) ==>
                timerLastCycles == systemCycles && timerLastHostMicros == now && total == old(total)
      ensures control % 2 == 1 && !asleep && TheScale().Scale? ==>
                var s := TheScale();
                && TheSampling() == Sample(old(TheSampling()), systemCycles, s.numerator, s.denominator)
                && (old(timerLastCycles) <= systemCycles ==> timerLastCycles <= systemCycles)
                && timerLastHostMicros == now
      ensures control % 2 == 1 && asleep && old(timerLastHostMicros) != 0 && TheScale().Scale? ==>
                Slept(now, TheScale())
    {
      var scale := TheScale();
      if control % 2 == 0 || scale.NoScale? {
        ResetTimerBaselines(now);
      } else if asleep {
        UpdateAsleep(now, scale);
      } else {
        UpdateAwake(now, scale);
      }
    }

    /** What a sampling call asleep delivers and consumes of the host time since the last. */
    twostate predicate Slept(now: uint64, scale: Scale)
      requires scale.Scale? && 0 < scale.numerator && 0 < scale.denominator
      reads this
    {
      var elapsed := Cut64(now - old(timerLastHostMicros) + TWO64);
      var ticks := Ticks(elapsed, scale.numerator, scale.denominator);
      && total == old(total) + ticks
      && timerLastCycles == (if ticks == 0 then old(timerLastCycles) else systemCycles)
      && timerLastHostMicros
         == if ticks == 0 then old(timerLastHostMicros)
            else Cut64(old(timerLastHostMicros) + Consumed(elapsed, scale.numerator, scale.denominator))
    }

    method UpdateAsleep(now: uint64, scale: Scale)
      requires Valid() && scale == TheScale() && scale.Scale?
      modifies this`counter, this`compareStatus, this`timerPending, this`timerLastCycles, this`timerLastHostMicros,
               this`total, this`deliveries
      ensures Valid() && Ticked()
      ensures old(timerLastHostMicros) == 0 ==>
                timerLastCycles == systemCycles && timerLastHostMicros == now && total == old(total)
      ensures old(timerLastHostMicros) != 0 ==> Slept(now, scale)
    {
      if timerLastHostMicros == 0 {
        ResetTimerBaselines(now);
        return;
      }
      var elapsed: uint64 := Cut64(now - timerLastHostMicros + TWO64);
      var ticks, consumed := Due(elapsed, scale);
      if ticks == 0 { return; }
      timerLastHostMicros := Cut64(timerLastHostMicros + consumed);
      timerLastCycles := systemCycles;
      ApplyTimerTicks(ticks);
    }

    method UpdateAwake(now: uint64, scale: Scale)
      requires Valid() && !asleep && scale == TheScale() && scale.Scale?
      modifies this`counter, this`compareStatus, this`timerPending, this`timerLastCycles, this`timerLastHostMicros,
               this`total, this`deliveries
      ensures Valid() && Ticked() && timerLastHostMicros == now
      ensures TheSampling() == Sample(old(TheSampling()), systemCycles, scale.numerator, scale.denominator)
      ensures old(timerLastCycles) <= systemCycles ==> timerLastCycles <= systemCycles
    {
      if systemCycles <= timerLastCycles {
        timerLastHostMicros := now;
        return;
      }
      var ticks, consumed := Due(systemCycles - timerLastCycles, scale);
      if ticks == 0 {
        timerLastHostMicros := now;
        return;
      }
      ConsumedBounded(systemCycles - timerLastCycles, scale.numerator, scale.denominator);
      timerLastCycles := Cut64(timerLastCycles + consumed);
      timerLastHostMicros := now;
      ApplyTimerTicks(ticks);
    }

    /** The two scaleU64 calls of updateTimer, with the cast of the tick count to 32 bits. */
    static method Due(elapsed: uint64, scale: Scale) returns (ticks: nat, consumed: uint64)
      requires scale.Scale? && 0 < scale.numerator && 0 < scale.denominator
      requires scale.numerator * scale.denominator < TWO64
      ensures ticks == Ticks(elapsed, scale.numerator, scale.denominator)
      ensures ticks > 0 ==> consumed == Consumed(elapsed, scale.numerator, scale.denominator)
    {
      var n, d := scale.numerator, scale.denominator;
      ScaleIsFloor(elapsed, n, d);
      ticks := Cut32(ScaleSplit(elapsed, n, d));
      ScaleIsFloor(ticks, n, d);
      consumed := ScaleSplit(ticks, d, n);
      if consumed == 0 {
        consumed := elapsed;
      }
    }
  }
}
