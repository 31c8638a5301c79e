/**
 RFC 4733 telephone events: the payload generator (internal/rtp/dtmf_generator.go)
 and the parser (internal/rtp/dtmf.go).
 */
module Dtmf {
  import opened Bytes
  import opened Results
  import opened Text

  // ---- digits ----

  function DigitToEvent(digit: string): (e: Byte)
    ensures e < 16
  {
    if |digit| == 0 then 0
    else
      var c := Upper(digit[0]);
      if '0' <= c <= '9' then (c as int) - ('0' as int)
      else if c == '*' then 10
      else if c == '#' then 11
      else if 'A' <= c <= 'D' then 12 + ((c as int) - ('A' as int))
      else 0
  }

  const EVENT_NAMES: seq<string> :=
    ["0", "1", "2", "3", "4", "5", "6", "7", "8", "9", "*", "#", "A", "B", "C", "D"]

  function EventToDigit(e: Byte): (s: string) {
    if e < |EVENT_NAMES| then EVENT_NAMES[e] else Decimal(e)
  }

  predicate IsDigit(c: char) {
    '0' <= c <= '9' || c == '*' || c == '#' || 'A' <= c <= 'D' || 'a' <= c <= 'd'
  }

  /** A digit survives the trip as its upper-case form exactly when it is one of the sixteen keys. */
  lemma DigitRoundTrip(digit: string)
    ensures EventToDigit(DigitToEvent(digit)) == ToUpper(digit) <==> |digit| == 1 && IsDigit(digit[0])
  {
    var name := EventToDigit(DigitToEvent(digit));
    assert |name| == 1;
    if |digit| == 1 {
      var c := Upper(digit[0]);
      assert ToUpper(digit) == [c];
      if IsDigit(digit[0]) {
        assert name[0] == c;
      } else {
        assert DigitToEvent(digit) == 0;
      }
    }
  }

  /** The event codes 0 to 15 of section 3.2 of RFC 4733, in order. */
  const KEYS := "0123456789*#ABCD"

  lemma KeyCodes(i: nat)
    requires i < 16
    ensures DigitToEvent([KEYS[i]]) == i && EventToDigit(i) == [KEYS[i]]
    ensures i >= 12 ==> DigitToEvent([(KEYS[i] as int + 32) as char]) == i
  {
    if i < 8 {
      assert i in {0, 1, 2, 3, 4, 5, 6, 7};
    } else {
      assert i in {8, 9, 10, 11, 12, 13, 14, 15};
    }
  }

  /** Only the first character counts, and what is no key is sent as 0. */
  lemma OtherCodes(digit: string)
    ensures digit != "" ==> DigitToEvent(digit) == DigitToEvent(digit[..1])
    ensures digit == "" || !IsDigit(digit[0]) ==> DigitToEvent(digit) == 0
  {
  }

  // ---- payloads ----

  datatype Event = Event(digit: string, duration: Word16, end: bool)

  function UpdatePayload(event: Byte, duration: Word16): (r: seq<Byte>) {
    [event, 0x0A] + Be16(duration)
  }

  function EndPayload(event: Byte, total: Word16): (r: seq<Byte>) {
    [event, 0x8A] + Be16(total)
  }

  /** The four bytes of section 2.3 of RFC 4733: event, end bit, reserved bit, volume 10, duration. */
  lemma PayloadFields(event: Byte, duration: Word16)
    ensures var u, e := UpdatePayload(event, duration), EndPayload(event, duration);
            && |u| == 4 && |e| == 4 && u[0] == event && e[0] == event
            && u[1] / 128 == 0 && e[1] / 128 == 1 && u[1] / 64 % 2 == 0 && e[1] / 64 % 2 == 0
            && u[1] % 64 == 10 && e[1] % 64 == 10
            && u[2] as int * 256 + u[3] == duration && e[2] as int * 256 + e[3] == duration
  {
  }

  function ParseDTMFPayload(payload: seq<Byte>): (r: Result<Event>) {
    if |payload| < 4 then Failure
    else
      Success(Event(EventToDigit(payload[0]), FromBe16(payload[2..4]), payload[1] / 128 != 0))
  }

  lemma ParseGenerated(event: Byte, duration: Word16)
    ensures ParseDTMFPayload(UpdatePayload(event, duration)) == Success(Event(EventToDigit(event), duration, false))
    ensures ParseDTMFPayload(EndPayload(event, duration)) == Success(Event(EventToDigit(event), duration, true))
  {
    assert UpdatePayload(event, duration)[2..4] == Be16(duration);
    assert EndPayload(event, duration)[2..4] == Be16(duration);
  }

  // ---- durations in 16-bit arithmetic ----

  /** Go's integer division truncates toward zero. */
  function TruncDiv(a: int, b: int): (q: int)
    requires b > 0
  {
    if a >= 0 then a / b else -((-a) / b)
  }

  function SamplesFor(sampleRate: int, ms: int): (w: Word16) {
    TruncDiv(sampleRate * ms, 1000) % WORD16
  }

  /** Milliseconds become whole samples, rounded toward zero, and keep their low sixteen bits. */
  lemma SamplesForMeans(sampleRate: int, ms: int)
    ensures var n := TruncDiv(sampleRate * ms, 1000);
            && (SamplesFor(sampleRate, ms) - n) % WORD16 == 0
            && (sampleRate * ms >= 0 ==> 1000 * n <= sampleRate * ms < 1000 * n + 1000)
            && (sampleRate * ms <= 0 ==> 1000 * n - 1000 < sampleRate * ms <= 1000 * n)
  {
    Rounded(sampleRate * ms);
  }

  lemma Rounded(a: int)
    ensures var n := TruncDiv(a, 1000);
            && (n % WORD16 - n) % WORD16 == 0
            && (a >= 0 ==> 1000 * n <= a < 1000 * n + 1000)
            && (a <= 0 ==> 1000 * n - 1000 < a <= 1000 * n)
  {
  }

  /** The running duration after k loop iterations that stayed below the total. */
  function After(step: Word16, k: nat): (w: Word16) {
    (k * step) % WORD16
  }

  predicate Reaches(total: Word16, step: Word16, k: nat) {
    k >= 1 && After(step, k) >= total
  }

  function TwoTo(k: nat): (r: nat)
    ensures r >= 1
  {
    if k == 0 then 1 else 2 * TwoTo(k - 1)
  }

  /** How often two divides n. */
  function Twos(n: nat): (v: nat)
    requires n > 0
  {
    if n % 2 == 1 then 0 else 1 + Twos(n / 2)
  }

  /** The largest power of two that divides the step in 16-bit arithmetic. */
  function Grain(step: Word16): (g: nat)
  {
    if step == 0 then WORD16 else TwoTo(Twos(step))
  }

  lemma TwoToAdd(a: nat, b: nat)
    ensures TwoTo(a + b) == TwoTo(a) * TwoTo(b)
  {
    if a > 0 {
      TwoToAdd(a - 1, b);
      assert TwoTo(a + b) == 2 * TwoTo(a - 1 + b);
    }
  }

  lemma TwoToSixteen()
    ensures TwoTo(16) == WORD16
  {
    assert TwoTo(4) == 16;
    TwoToAdd(4, 4);
    TwoToAdd(8, 8);
  }

  lemma Doubled(t: nat, m: nat)
    ensures (2 * t) * m == 2 * (t * m) == t * (2 * m)
  {
  }

  lemma OddPart(n: nat) returns (m: nat)
    requires n > 0
    ensures n == TwoTo(Twos(n)) * m && m % 2 == 1
  {
    if n % 2 == 1 {
      m := n;
    } else {
      m := OddPart(n / 2);
      Doubled(TwoTo(Twos(n / 2)), m);
      assert n == 2 * (n / 2);
    }
  }

  lemma TwoToMonotone(a: nat, b: nat)
    requires a <= b
    ensures TwoTo(a) <= TwoTo(b)
  {
    if a < b { TwoToMonotone(a, b - 1); }
  }

  /** A non-zero step is its grain times an odd number, and the grain divides 2^16 evenly. */
  lemma GrainSplit(step: Word16) returns (m: nat, e: nat)
    requires step > 0
    ensures step == Grain(step) * m && m % 2 == 1
    ensures e >= 1 && Grain(step) * TwoTo(e) == WORD16
  {
    m := OddPart(step);
    var v := Twos(step);
    TwoToSixteen();
    if v >= 16 {
      TwoToMonotone(16, v);
      assert TwoTo(v) * m >= TwoTo(v);
    }
    e := 16 - v;
    TwoToAdd(v, e);
  }

  lemma HalveDouble(t: nat, p: nat)
    requires t % 2 == 0
    ensures t * p == (t / 2) * (2 * p)
  {
    assert t == 2 * (t / 2);
    Doubled(t / 2, p);
  }

  lemma ProductOfSum(a: nat, b: nat, p: nat)
    ensures (a + b) * p == a * p + b * p && p * (a + b) == p * a + p * b
  {
  }

  lemma OddSum(a: nat, b: nat)
    requires a % 2 == 1 && b % 2 == 1
    ensures (a + b) % 2 == 0
  {
    DivisionUnique(a + b, a / 2 + b / 2 + 1, 0, 2);
  }

  lemma OddStep(m: nat, k0: nat, t0: nat, p: nat)
    requires m * k0 + 1 == t0 * p && m % 2 == 1 && t0 % 2 == 1
    ensures m * (k0 + p) + 1 == ((t0 + m) / 2) * (2 * p)
  {
    ProductOfSum(k0, p, m);
    ProductOfSum(t0, m, p);
    OddSum(t0, m);
    HalveDouble(t0 + m, p);
  }

  /** Odd numbers have a negative inverse modulo every power of two. */
  lemma MinusInverse(m: nat, e: nat) returns (k: nat, t: nat)
    requires m % 2 == 1
    ensures m * k + 1 == t * TwoTo(e)
  {
    if e == 0 {
      k, t := 0, 1;
    } else {
      var k0, t0 := MinusInverse(m, e - 1);
      var p := TwoTo(e - 1);
      if t0 % 2 == 0 {
        k, t := k0, t0 / 2;
        HalveDouble(t0, p);
      } else {
        k, t := k0 + p, (t0 + m) / 2;
        OddStep(m, k0, t0, p);
      }
    }
  }

  lemma ScaleInverse(g: nat, m: nat, k: nat, t: nat, p: nat)
    requires m * k + 1 == t * p
    ensures k * (g * m) + g == t * (g * p)
  {
    assert k * (g * m) + g == g * (m * k + 1) by {
      assert k * (g * m) == g * (m * k);
    }
    assert g * (t * p) == t * (g * p);
  }

  lemma NotEvenProduct(m: nat, k: nat, t: nat, p: nat)
    requires m * k + 1 == t * (2 * p)
    ensures k >= 1 && t >= 1
  {
    assert t * (2 * p) == 2 * (t * p);
  }

  /** Within the bound some iteration reaches the total. */
  lemma BoundReaches(total: Word16, step: Word16) returns (k: nat)
    requires total <= WORD16 - Grain(step)
    ensures Reaches(total, step, k)
  {
    if step == 0 {
      k := 1;
    } else {
      var m, e := GrainSplit(step);
      var t;
      k, t := MinusInverse(m, e);
      NotEvenProduct(m, k, t, TwoTo(e - 1));
      ScaleInverse(Grain(step), m, k, t, TwoTo(e));
      BelowMultiple(k * step, t, Grain(step));
    }
  }

  lemma BelowMultiple(n: nat, t: nat, g: nat)
    requires n + g == t * WORD16 && t >= 1 && 1 <= g <= WORD16
    ensures n % WORD16 == WORD16 - g || g == WORD16
    ensures n % WORD16 >= WORD16 - g
  {
    if g < WORD16 {
      assert n == (t - 1) * WORD16 + (WORD16 - g);
      RemainderIs(n, t - 1, WORD16 - g);
    }
  }

  lemma RemainderIs(n: nat, q: nat, r: nat)
    requires n == q * WORD16 + r && r < WORD16
    ensures n % WORD16 == r
  {
  }

  /** Multiples of a divisor of 2^16 leave remainders that are multiples of it. */
  lemma ScaleRemainder(g: nat, x: nat, p: nat) returns (q: nat, s: nat)
    requires p >= 1 && g * p == WORD16
    ensures g * x == q * WORD16 + s && s <= WORD16 - g
  {
    var r := x % p;
    q, s := x / p, g * r;
    assert x == q * p + r;
    Distribute(g, q, p, r);
    assert g * r <= g * (p - 1);
    assert g * (p - 1) == g * p - g;
  }

  lemma Distribute(g: nat, q: nat, p: nat, r: nat)
    ensures g * (q * p + r) == q * (g * p) + g * r
  {
  }

  lemma Reorder(k: nat, g: nat, m: nat)
    ensures k * (g * m) == g * (m * k)
  {
  }

  /** No iteration ever gets past the largest multiple of the grain. */
  lemma BoundHolds(step: Word16, k: nat)
    ensures After(step, k) <= WORD16 - Grain(step)
  {
    if step > 0 {
      var m, e := GrainSplit(step);
      Reorder(k, Grain(step), m);
      var q, s := ScaleRemainder(Grain(step), m * k, TwoTo(e));
      RemainderIs(k * step, q, s);
    }
  }

  /**
   The generator's duration loop can leave its body exactly when the total is at most
   2^16 minus the grain of the step; otherwise no number of iterations reaches the total.
   */
  lemma StopsExactly(total: Word16, step: Word16)
    ensures (exists k :: Reaches(total, step, k)) <==> total <= WORD16 - Grain(step)
  {
    if total <= WORD16 - Grain(step) {
      var k := BoundReaches(total, step);
    }
    forall k | Reaches(total, step, k)
      ensures total <= WORD16 - Grain(step)
    {
      BoundHolds(step, k);
    }
  }

  predicate Stops(total: Word16, step: Word16) {
    total <= WORD16 - Grain(step)
  }

  lemma GrainDouble(n: nat)
    requires 0 < n && 2 * n < WORD16
    ensures Grain(2 * n) == 2 * Grain(n)
  {
    DivisionUnique(2 * n, n, 0, 2);
  }

  lemma Grain960()
    ensures Grain(960) == 64
  {
    assert Grain(15) == 1;
    GrainDouble(15);
    GrainDouble(30);
    GrainDouble(60);
    GrainDouble(120);
    GrainDouble(240);
    GrainDouble(480);
  }

  /** A 1365 ms digit at 48 kHz is one of the requests whose duration loop never ends. */
  lemma EndlessExample()
    ensures SamplesFor(48000, 1365) == 65520 && SamplesFor(48000, 20) == 960
    ensures !Stops(65520, 960)
    ensures forall k :: k >= 1 ==> After(960, k) < 65520
  {
    Grain960();
    forall k | k >= 1
      ensures After(960, k) < 65520
    {
      BoundHolds(960, k);
    }
  }

  // ---- the generated payloads ----

  function FirstReach(total: Word16, step: Word16, k: nat, witness_: nat): (r: nat)
    requires 1 <= k <= witness_ && Reaches(total, step, witness_)
    ensures Reaches(total, step, r) && k <= r <= witness_
    ensures forall j :: k <= j < r ==> !Reaches(total, step, j)
    decreases witness_ - k
  {
    if Reaches(total, step, k) then k else FirstReach(total, step, k + 1, witness_)
  }

  /** The number of update packets: the first iteration that reaches the total. */
  ghost function UpdateCount(total: Word16, step: Word16): (n: nat)
    requires Stops(total, step)
    ensures n == 0 <==> total == 0
    ensures total > 0 ==> Reaches(total, step, n)
    ensures forall j :: 1 <= j < n ==> !Reaches(total, step, j)
  {
    if total == 0 then 0
    else
      StopsExactly(total, step);
      var w :| Reaches(total, step, w);
      FirstReach(total, step, 1, w)
  }

  /** The duration field of the j-th update packet. */
  ghost function UpdateDuration(total: Word16, step: Word16, j: nat): (d: Word16)
    requires Stops(total, step) && j < UpdateCount(total, step)
  {
    if j == UpdateCount(total, step) - 1 then total else After(step, j + 1)
  }

  ghost function Updates(event: Byte, total: Word16, step: Word16, n: nat): (r: seq<seq<Byte>>)
    requires Stops(total, step) && n <= UpdateCount(total, step)
    ensures |r| == n
  {
    seq(n, j requires 0 <= j < n => UpdatePayload(event, UpdateDuration(total, step, j)))
  }

  /** Growing updates, then the end packet three times. */
  ghost function Payloads(event: Byte, total: Word16, step: Word16): (r: seq<seq<Byte>>)
    requires Stops(total, step)
  {
    var e := EndPayload(event, total);
    Updates(event, total, step, UpdateCount(total, step)) + [e, e, e]
  }

  /** Rounding the total up to whole steps still fits sixteen bits. */
  predicate NoWrap(total: Word16, step: Word16) {
    total == 0 || (step > 0 && (total + step - 1) / step * step < WORD16)
  }

  lemma WholeStep(total: nat, step: nat, k: nat)
    requires total > 0 && step > 0
    ensures k * step < total <==> k < (total + step - 1) / step
    ensures (total + step - 1) / step >= 1
  {
    var n := (total + step - 1) / step;
    assert total + step - 1 == n * step + (total + step - 1) % step;
    assert (n - k) * step == n * step - k * step;
    Multiple(n - k, step);
    Multiple(n, step);
  }

  /** Below 2^16 the running duration is the product itself. */
  lemma AfterIs(step: Word16, k: nat)
    requires k * step < WORD16
    ensures After(step, k) == k * step
  {
  }

  /** Without wrap-around the loop stops after exactly the rounded-up number of steps. */
  lemma NoWrapCount(total: Word16, step: Word16)
    requires NoWrap(total, step) && total > 0
    ensures Stops(total, step)
    ensures UpdateCount(total, step) == (total + step - 1) / step
  {
    var n := (total + step - 1) / step;
    WholeStep(total, step, n);
    AfterIs(step, n);
    assert Reaches(total, step, n);
    StopsExactly(total, step);
    var c := UpdateCount(total, step);
    if c < n {
      WholeStep(total, step, c);
      AfterIs(step, c);
    }
  }

  ghost predicate Growing(total: Word16, step: Word16)
    requires Stops(total, step)
  {
    forall i, j :: 0 <= i < j < UpdateCount(total, step) ==>
      UpdateDuration(total, step, i) < UpdateDuration(total, step, j)
  }

  /** Every update but the last carries the running duration, which is below the total. */
  lemma NoWrapDuration(total: Word16, step: Word16, j: nat)
    requires NoWrap(total, step) && Stops(total, step) && j < UpdateCount(total, step)
    ensures j < UpdateCount(total, step) - 1 ==> UpdateDuration(total, step, j) == (j + 1) * step < total
  {
    if j < UpdateCount(total, step) - 1 {
      NoWrapCount(total, step);
      WholeStep(total, step, j + 1);
      AfterIs(step, j + 1);
    }
  }

  lemma StrictlyMore(i: nat, j: nat, step: nat)
    requires i < j && step > 0
    ensures i * step < j * step
  {
  }

  lemma NoWrapGrows(total: Word16, step: Word16)
    requires NoWrap(total, step) && Stops(total, step)
    ensures Growing(total, step)
  {
    var n := UpdateCount(total, step);
    forall i, j | 0 <= i < j < n
      ensures UpdateDuration(total, step, i) < UpdateDuration(total, step, j)
    {
      NoWrapDuration(total, step, i);
      NoWrapDuration(total, step, j);
      StrictlyMore(i + 1, j + 1, step);
    }
  }

  lemma WrapShrinks(total: Word16, step: Word16)
    requires !NoWrap(total, step) && Stops(total, step)
    ensures !Growing(total, step)
  {
    var n := (total + step - 1) / step;
    WholeStep(total, step, n - 1);
    WholeStep(total, step, n);
    assert n * step == (n - 1) * step + step;
    assert 1 * step < WORD16;
    assert n != 1;
    RemainderIs(n * step, 1, n * step - WORD16);
    var c := UpdateCount(total, step);
    if c <= n {
      if c < n {
        WholeStep(total, step, c);
        AfterIs(step, c);
      }
      assert false;
    }
    AfterIs(step, 1);
    assert UpdateDuration(total, step, 0) == step;
    assert UpdateDuration(total, step, n - 1) == After(step, n);
  }

  /**
   The durations of the updates grow strictly exactly when rounding the total up to
   whole steps does not wrap sixteen bits.
   */
  lemma UpdatesGrowExactly(total: Word16, step: Word16)
    requires Stops(total, step)
    ensures Growing(total, step) <==> NoWrap(total, step)
  {
    if NoWrap(total, step) { NoWrapGrows(total, step); } else { WrapShrinks(total, step); }
  }

  /**
   Without wrap-around a receiver reads, packet by packet, a digit that has lasted one step more
   each time and at last its total, and then its end with the total three times.
   */
  lemma PayloadsRead(event: Byte, total: Word16, step: Word16, i: nat)
    requires NoWrap(total, step) && Stops(total, step) && total > 0 && i < |Payloads(event, total, step)|
    ensures |Payloads(event, total, step)| == (total + step - 1) / step + 3
    ensures ParseDTMFPayload(Payloads(event, total, step)[i])
         == Success(Event(EventToDigit(event), if i < (total + step - 1) / step then Min((i + 1) * step, total) else total,
                          i >= (total + step - 1) / step))
  {
    var n := UpdateCount(total, step);
    NoWrapCount(total, step);
    if i < n {
      assert Payloads(event, total, step)[i] == UpdatePayload(event, UpdateDuration(total, step, i));
      NoWrapDuration(total, step, i);
      if i == n - 1 { WholeStep(total, step, n); }
      ParseGenerated(event, UpdateDuration(total, step, i));
    } else {
      assert Payloads(event, total, step)[i] == EndPayload(event, total);
      ParseGenerated(event, total);
    }
  }

  // ---- the generator ----

  class Generator {
    const sampleRate: int
    const ptime: int

    constructor (sampleRate: int, ptime: int)
      ensures this.sampleRate == sampleRate && this.ptime == if ptime <= 0 then 20 else ptime
    {
      this.sampleRate := sampleRate;
      this.ptime := if ptime <= 0 then 20 else ptime;
    }

    method Generate(digit: string, durationMs: int) returns (payloads: seq<seq<Byte>>)
      requires Stops(SamplesFor(sampleRate, durationMs), SamplesFor(sampleRate, Min(durationMs, ptime)))
      ensures payloads == Payloads(DigitToEvent(digit), SamplesFor(sampleRate, durationMs),
                                   SamplesFor(sampleRate, Min(durationMs, ptime)))
    {
      var event := DigitToEvent(digit);
      var totalSamples := SamplesFor(sampleRate, durationMs);
      var intervalMs := Min(durationMs, ptime);
      var ptimeSamples := SamplesFor(sampleRate, intervalMs);
      ghost var count := UpdateCount(totalSamples, ptimeSamples);
      payloads := [];
      var currentDuration: Word16 := 0;
      ghost var k := 0;
      while currentDuration < totalSamples
        invariant k <= count
        invariant k < count ==> currentDuration == After(ptimeSamples, k)
        invariant k == count ==> currentDuration == totalSamples
        invariant payloads == Updates(event, totalSamples, ptimeSamples, k)
        decreases count - k
      {
        StepAfter(ptimeSamples, k);
        currentDuration := (currentDuration + ptimeSamples) % WORD16;
        if currentDuration > totalSamples {
          currentDuration := totalSamples;
        }
        payloads := payloads + [UpdatePayload(event, currentDuration)];
        k := k + 1;
        if currentDuration == totalSamples {
          break;
        }
      }
      assert 1 <= k < count ==> !Reaches(totalSamples, ptimeSamples, k);
      assert After(ptimeSamples, 0) == 0;
      assert k == count;
      var i := 0;
      ghost var updates := payloads;
      ghost var e := EndPayload(event, totalSamples);
      while i < 3
        invariant 0 <= i <= 3
        invariant payloads == updates + [e, e, e][..i]
      {
        payloads := payloads + [EndPayload(event, totalSamples)];
        i := i + 1;
      }
    }
  }

  lemma StepAfter(step: Word16, k: nat)
    ensures (After(step, k) + step) % WORD16 == After(step, k + 1)
  {
    var q := k * step / WORD16;
    assert k * step == q * WORD16 + After(step, k);
    var n := After(step, k) + step;
    assert (k + 1) * step == q * WORD16 + n;
    if n < WORD16 {
      RemainderIs((k + 1) * step, q, n);
    } else {
      RemainderIs((k + 1) * step, q + 1, n - WORD16);
    }
  }
}
