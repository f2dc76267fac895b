/** Activity rhythm: the least active eight hours of the day, and the UTC offset that explains them. Hours,
    averages and confidence are reals; the rounding of doubles is not part of this model. */
module Rhythm {
  import opened Wrappers

  const HOURS := 24
  const WIDTH := 8
  const MIN_SAMPLES := 12
  const U32_MAX := 0xFFFF_FFFF

  type Histogram = h: seq<nat> | |h| == HOURS witness seq(24, i => 0)

  datatype ActivityRhythm = ActivityRhythm(offsetMinutes: Option<int>, confidence: real,
                                           troughCentre: Option<real>, samples: nat)

  function Sum(s: seq<nat>): nat {
    if s == [] then 0 else Sum(s[..|s| - 1]) + s[|s| - 1]
  }

  // The first `k` hours of the circular window at `start`.
  function WindowSum(h: Histogram, start: nat, k: nat): nat {
    if k == 0 then 0 else WindowSum(h, start, k - 1) + h[(start + k - 1) % HOURS]
  }

  function Window(h: Histogram, start: nat): nat { WindowSum(h, start, WIDTH) }

  // The scan over the first `n` starts; a start replaces the best so far only if it is strictly better.
  function Best(h: Histogram, n: nat): (nat, nat) {
    if n == 0 then (0, U32_MAX)
    else
      var (start, sum) := Best(h, n - 1);
      if Window(h, n - 1) < sum then (n - 1, Window(h, n - 1)) else (start, sum)
  }

  function Trough(h: Histogram): nat { Best(h, HOURS).0 }

  function Centre(h: Histogram): nat { (Trough(h) + WIDTH / 2) % HOURS }

  // Half away from zero, as the language rounds; the argument is not negative.
  function Round(x: real): int
    requires x >= 0.0
  {
    (x + 0.5).Floor
  }

  function Contrast(best: nat, total: nat): real
    requires total > 0
  {
    var raw := 1.0 - (best as real / WIDTH as real) / (total as real / HOURS as real);
    if raw > 0.0 then raw else 0.0
  }

  function Least(x: real, y: real): real { if x <= y then x else y }

  function Confidence(best: nat, total: nat): real
    requires total > 0
  {
    Weighed(Least(1.0, total as real / 120.0), Contrast(best, total))
  }

  function Weighed(volume: real, contrast: real): real {
    var weight := Least(1.0, volume * contrast);
    if weight >= 0.0 then Round(weight * 1000.0) as real / 1000.0 else 0.0
  }

  method FindTrough(h: Histogram) returns (bestStart: nat, bestSum: nat)
    ensures (bestStart, bestSum) == Best(h, HOURS)
  {
    bestStart, bestSum := 0, U32_MAX;
    for start := 0 to HOURS
      invariant (bestStart, bestSum) == Best(h, start)
    {
      var sum := 0;
      for k := 0 to WIDTH
        invariant sum == WindowSum(h, start, k)
      {
        sum := sum + h[(start + k) % HOURS];
      }
      if sum < bestSum {
        bestSum := sum;
        bestStart := start;
      }
    }
  }

  // Hours taken around the day into (-12, 12].
  method Wrap(hours: real) returns (wrapped: real, ghost days: int)
    ensures -12.0 < wrapped <= 12.0 && wrapped == hours + 24.0 * days as real
  {
    wrapped, days := hours, 0;
    while wrapped <= -12.0
      invariant wrapped == hours + 24.0 * days as real
      decreases -wrapped
    {
      wrapped := wrapped + 24.0;
      days := days + 1;
    }
    while wrapped > 12.0
      invariant wrapped == hours + 24.0 * days as real && -12.0 < wrapped
      decreases wrapped
    {
      wrapped := wrapped - 24.0;
      days := days - 1;
    }
  }

  // Rounding does nothing to a whole number.
  lemma RoundWhole(x: real, n: int)
    requires x == n as real
    ensures (if x >= 0.0 then Round(x) else -Round(-x)) == n
  {
    assert (n as real + 0.5).Floor == n && ((-n) as real + 0.5).Floor == -n;
  }

  // The offset that puts the trough at 03:30 local time, in (-12, 12] hours, as whole minutes.
  method OffsetMinutes(centre: nat) returns (minutes: int)
    ensures minutes == Normalized(210 - 60 * centre)
  {
    var hours, days := Wrap(3.5 - centre as real);
    var scaled := hours * 60.0;
    minutes := if scaled >= 0.0 then Round(scaled) else -Round(-scaled);
    RoundWhole(scaled, 210 - 60 * centre + 1440 * days);
    NormalizedExactly(210 - 60 * centre, minutes);
  }

  // The minutes of one day around zero.
  function Normalized(minutes: int): int {
    var m := minutes % 1440;
    if m > 720 then m - 1440 else m
  }

  lemma {:induction false} NormalizedExactly(minutes: int, n: int)
    ensures n == Normalized(minutes) <==> -720 < n <= 720 && (n - minutes) % 1440 == 0
  {
  }

  lemma {:induction false} SumAppend(a: seq<nat>, b: seq<nat>)
    ensures Sum(a + b) == Sum(a) + Sum(b)
  {
    if b == [] {
      assert a + b == a;
    } else {
      SumAppend(a, b[..|b| - 1]);
      assert (a + b)[..|a + b| - 1] == a + b[..|b| - 1];
    }
  }

  // A window is a stretch of two days in a row.
  lemma {:induction false} WindowIsStretch(h: Histogram, start: nat, k: nat)
    requires start < HOURS && k <= HOURS
    ensures WindowSum(h, start, k) == Sum((h + h)[start..start + k])
  {
    var days := h + h;
    if k != 0 {
      WindowIsStretch(h, start, k - 1);
      StretchNext(days, start, k);
      HourOfTwoDays(h, start + k - 1);
    } else {
      assert days[start..start] == [];
    }
  }

  lemma StretchNext(days: seq<nat>, start: nat, k: nat)
    requires k != 0 && start + k <= |days|
    ensures Sum(days[start..start + k]) == Sum(days[start..start + k - 1]) + days[start + k - 1]
  {
    assert days[start..start + k][..k - 1] == days[start..start + k - 1];
  }

  lemma HourOfTwoDays(h: Histogram, i: nat)
    requires i < 2 * HOURS
    ensures (h + h)[i] == h[i % HOURS]
  {
  }

  // Three windows that follow each other are the whole day.
  lemma ThreeWindows(h: Histogram, start: nat)
    requires start < WIDTH
    ensures Window(h, start) + Window(h, start + 8) + Window(h, start + 16) == Sum(h)
  {
    var days := h + h;
    WindowIsStretch(h, start, WIDTH);
    WindowIsStretch(h, start + 8, WIDTH);
    WindowIsStretch(h, start + 16, WIDTH);
    DayInParts(h, start);
    SumAppend(days[start..start + 8], days[start + 8..start + 16]);
    SumAppend(days[start..start + 16], days[start + 16..start + 24]);
    SumAppend(h[start..], h[..start]);
    SumAppend(h[..start], h[start..]);
  }

  lemma DayInParts(h: Histogram, start: nat)
    requires start < WIDTH
    ensures var days := h + h;
      && days[start..start + 16] == days[start..start + 8] + days[start + 8..start + 16]
      && days[start..start + 16] + days[start + 16..start + 24] == h[start..] + h[..start]
      && h[..start] + h[start..] == h
  {
    assert (h + h)[start..start + 24] == h[start..] + h[..start];
  }

  // The scan finds the earliest of the least active windows.
  ghost predicate Earliest(h: Histogram, n: nat, start: nat, sum: nat) {
    && start < n && sum == Window(h, start)
    && (forall t | 0 <= t < n :: sum <= Window(h, t)) && (forall t | 0 <= t < start :: sum < Window(h, t))
  }

  lemma {:induction false} BestScan(h: Histogram, n: nat)
    ensures var (start, sum) := Best(h, n);
      if exists t :: 0 <= t < n && Window(h, t) < U32_MAX then Earliest(h, n, start, sum)
      else (start, sum) == (0, U32_MAX)
  {
    if n != 0 {
      BestScan(h, n - 1);
    }
  }

  // The start value of the scan never survives it, and three troughs fit into the day.
  lemma TroughEarliest(h: Histogram)
    requires Sum(h) <= U32_MAX
    ensures Earliest(h, HOURS, Trough(h), Best(h, HOURS).1)
    ensures 3 * Best(h, HOURS).1 <= Sum(h)
  {
    ThreeWindows(h, 0);
    BestScan(h, HOURS);
    assert Window(h, 0) < U32_MAX || Window(h, 8) < U32_MAX;
    assert exists t :: 0 <= t < HOURS && Window(h, t) < U32_MAX;
  }

  lemma ContrastIs(best: nat, total: nat)
    requires total > 0 && 3 * best <= total
    ensures Contrast(best, total) == 1.0 - (3 * best) as real / total as real
    ensures 0.0 <= Contrast(best, total) <= 1.0
    ensures Contrast(best, total) == 0.0 <==> 3 * best == total
  {
    var (b, t) := (best as real, total as real);
    FractionIs(b, t);
    assert (3 * best) as real == 3.0 * b;
    RatioAtMostOne(3.0 * b, t);
  }

  lemma FractionIs(b: real, t: real)
    requires t > 0.0
    ensures (b / 8.0) / (t / 24.0) == (3.0 * b) / t
  {
    var q := (b / 8.0) / (t / 24.0);
    assert q * (t / 24.0) == b / 8.0;
    assert q * t == 3.0 * b;
  }

  lemma RatioAtMostOne(x: real, y: real)
    requires 0.0 <= x <= y && y > 0.0
    ensures 0.0 <= x / y <= 1.0 && (x / y == 1.0 <==> x == y)
  {
    var q := x / y;
    assert q * y == x;
  }

  ghost predicate Flat(h: Histogram) {
    forall s, t | 0 <= s < HOURS && 0 <= t < HOURS :: Window(h, s) == Window(h, t)
  }

  lemma FlatExactly(h: Histogram)
    requires Sum(h) <= U32_MAX
    ensures 3 * Best(h, HOURS).1 == Sum(h) <==> Flat(h)
  {
    var best := Best(h, HOURS).1;
    TroughEarliest(h);
    ThreeWindows(h, 0);
    if 3 * best == Sum(h) {
      forall s | 0 <= s < HOURS ensures Window(h, s) == best {
        ThreeWindows(h, s % 8);
        assert best <= Window(h, s % 8) && best <= Window(h, s % 8 + 8) && best <= Window(h, s % 8 + 16);
        assert s == s % 8 || s == s % 8 + 8 || s == s % 8 + 16;
      }
    }
  }

  // The contrast is never clamped, and there is none exactly when all windows are equally active.
  lemma ContrastExactly(h: Histogram)
    requires MIN_SAMPLES <= Sum(h) <= U32_MAX
    ensures var best := Best(h, HOURS).1;
      && Contrast(best, Sum(h)) == 1.0 - (3 * best) as real / Sum(h) as real
      && (Contrast(best, Sum(h)) == 0.0 <==> Flat(h))
  {
    TroughEarliest(h);
    FlatExactly(h);
    ContrastIs(Best(h, HOURS).1, Sum(h));
  }

  lemma ProductNonNegative(x: real, y: real)
    requires x >= 0.0 && y >= 0.0
    ensures x * y >= 0.0
  {
  }

  lemma ProductOfDifference(x: real, y: real, z: real)
    requires z == 1.0 - y
    ensures x * z + x * y == x
  {
    assert z + y == 1.0;
    assert x * (z + y) == x * z + x * y;
  }

  lemma ProductInRange(x: real, y: real)
    requires 0.0 <= x <= 1.0 && 0.0 <= y <= 1.0
    ensures 0.0 <= x * y <= 1.0
  {
    ProductNonNegative(x, y);
    ProductNonNegative(x, 1.0 - y);
    ProductOfDifference(x, y, 1.0 - y);
  }

  lemma {:induction false} ConfidenceRange(best: nat, total: nat)
    requires total > 0 && 3 * best <= total
    ensures 0.0 <= Confidence(best, total) <= 1.0
    ensures 3 * best == total ==> Confidence(best, total) == 0.0
  {
    ContrastIs(best, total);
    ProductInRange(Least(1.0, total as real / 120.0), Contrast(best, total));
  }

  function Rotated(h: Histogram, shift: nat): Histogram {
    seq(HOURS, i requires 0 <= i < HOURS => h[(i + HOURS - shift % HOURS) % HOURS])
  }

  lemma {:induction false} RotatedWindow(h: Histogram, shift: nat, start: nat, k: nat)
    ensures WindowSum(Rotated(h, shift), start + shift, k) == WindowSum(h, start, k)
  {
    if k != 0 {
      RotatedWindow(h, shift, start, k - 1);
      RotatedIndex(start + k - 1, shift);
    }
  }

  lemma RotatedIndex(i: nat, shift: nat)
    ensures ((i + shift) % HOURS + HOURS - shift % HOURS) % HOURS == i % HOURS
  {
  }

  lemma {:induction false} WindowModulo(h: Histogram, a: nat, b: nat, k: nat)
    requires a % HOURS == b % HOURS
    ensures WindowSum(h, a, k) == WindowSum(h, b, k)
  {
    if k != 0 {
      WindowModulo(h, a, b, k - 1);
      SameHour(a, b, k - 1);
    }
  }

  lemma SameHour(a: nat, b: nat, k: nat)
    requires a % HOURS == b % HOURS
    ensures (a + k) % HOURS == (b + k) % HOURS
  {
    HourOfSum(a, k);
    HourOfSum(b, k);
  }

  lemma {:induction false} HourOfSum(a: nat, k: nat)
    ensures (a + k) % HOURS == (a % HOURS + k) % HOURS
  {
    if a >= HOURS {
      HourOfSum(a - HOURS, k);
    }
  }

  lemma RotatedAt(h: Histogram, shift: nat, start: nat)
    requires start < HOURS
    ensures Window(Rotated(h, shift), (start + shift) % HOURS) == Window(h, start)
  {
    RotatedWindow(h, shift, start, WIDTH);
    WindowModulo(Rotated(h, shift), (start + shift) % HOURS, start + shift, WIDTH);
  }

  lemma Back(hour: nat, shift: nat)
    requires hour < HOURS
    ensures ((hour + HOURS - shift % HOURS) % HOURS + shift) % HOURS == hour
  {
  }

  lemma {:induction false} RotatedSum(h: Histogram, shift: nat)
    ensures Sum(Rotated(h, shift)) == Sum(h)
  {
    var a := (HOURS - shift % HOURS) % HOURS;
    Opposite(shift, a);
    RotatedAt(h, shift, a);
    RotatedAt(h, shift, (a + 8) % HOURS);
    RotatedAt(h, shift, (a + 16) % HOURS);
    ThreeWindows(Rotated(h, shift), 0);
    ThreeWindowsFrom(h, a);
  }

  lemma Opposite(shift: nat, a: nat)
    requires a == (HOURS - shift % HOURS) % HOURS
    ensures (a + shift) % HOURS == 0 && ((a + 8) % HOURS + shift) % HOURS == 8
    ensures ((a + 16) % HOURS + shift) % HOURS == 16
  {
    var days := (a + shift) / 24;
    assert a + shift == 24 * days;
    OppositeAt(a, shift, days, 0);
    OppositeAt(a, shift, days, 8);
    OppositeAt(a, shift, days, 16);
  }

  lemma OppositeAt(a: nat, shift: nat, days: nat, hour: nat)
    requires a + shift == 24 * days && hour < HOURS
    ensures ((a + hour) % HOURS + shift) % HOURS == hour && (hour == 0 ==> (a + shift) % HOURS == 0)
  {
    HourOf(days, hour);
    SameHour((a + hour) % HOURS, a + hour, shift);
  }

  lemma HourOf(days: nat, hour: nat)
    requires hour < HOURS
    ensures (24 * days + hour) % HOURS == hour
  {
  }

  lemma Thirds(a: nat)
    requires a < HOURS
    ensures (a + 8) % HOURS == if a < 16 then a + 8 else a - 16
    ensures (a + 16) % HOURS == if a < 8 then a + 16 else a - 8
  {
  }

  lemma ThreeWindowsFrom(h: Histogram, a: nat)
    requires a < HOURS
    ensures Window(h, a) + Window(h, (a + 8) % HOURS) + Window(h, (a + 16) % HOURS) == Sum(h)
  {
    Thirds(a);
    if a < 8 {
      ThreeWindows(h, a);
    } else if a < 16 {
      ThreeWindows(h, a - 8);
    } else {
      ThreeWindows(h, a - 16);
    }
  }

  // Someone who lives `shift` hours later has the same day: with a single least active window the trough moves by
  // as many hours.
  lemma RotationShifts(h: Histogram, shift: nat)
    requires Sum(h) <= U32_MAX
    requires forall t | 0 <= t < HOURS && t != Trough(h) :: Window(h, t) > Window(h, Trough(h))
    ensures Trough(Rotated(h, shift)) == (Trough(h) + shift) % HOURS
  {
    var (later, was) := (Rotated(h, shift), Trough(h));
    var now := Trough(later);
    var back := (now + HOURS - shift % HOURS) % HOURS;
    RotatedSum(h, shift);
    TroughEarliest(h);
    TroughEarliest(later);
    Back(now, shift);
    RotatedAt(h, shift, back);
    RotatedAt(h, shift, was);
    assert Window(later, now) <= Window(later, (was + shift) % HOURS);
  }

  // The offset then moves by 60 minutes for each hour, around the day.
  lemma OffsetShifts(h: Histogram, shift: nat)
    requires Sum(h) <= U32_MAX
    requires forall t | 0 <= t < HOURS && t != Trough(h) :: Window(h, t) > Window(h, Trough(h))
    ensures Normalized(210 - 60 * Centre(Rotated(h, shift))) == Normalized(210 - 60 * Centre(h) - 60 * shift)
  {
    RotationShifts(h, shift);
    CentreShifts(Trough(h), shift);
    var (c, d) := (Centre(h), Centre(Rotated(h, shift)));
    assert d == (c + shift) % HOURS;
    SameMinutes(c + shift);
  }

  lemma CentreShifts(trough: nat, shift: nat)
    ensures ((trough + shift) % HOURS + 4) % HOURS == ((trough + 4) % HOURS + shift) % HOURS
  {
  }

  lemma SameMinutes(hours: nat)
    ensures (210 - 60 * (hours % HOURS)) % 1440 == (210 - 60 * hours) % 1440
  {
    var days := hours / HOURS;
    assert 210 - 60 * (hours % HOURS) == 210 - 60 * hours + 1440 * days;
  }

  /******* The answer in terms of the hours *******/

  function Day(h: Histogram): nat {
    h[0] + h[1] + h[2] + h[3] + h[4] + h[5] + h[6] + h[7] + h[8] + h[9] + h[10] + h[11]
    + h[12] + h[13] + h[14] + h[15] + h[16] + h[17] + h[18] + h[19] + h[20] + h[21] + h[22] + h[23]
  }

  function EightHours(h: Histogram, t: nat): nat {
    h[t % 24] + h[(t + 1) % 24] + h[(t + 2) % 24] + h[(t + 3) % 24]
    + h[(t + 4) % 24] + h[(t + 5) % 24] + h[(t + 6) % 24] + h[(t + 7) % 24]
  }

  // The earliest of the least active stretches of eight hours.
  ghost predicate Quietest(h: Histogram, start: nat) {
    && start < 24
    && (forall t | 0 <= t < 24 :: EightHours(h, start) <= EightHours(h, t))
    && (forall t | 0 <= t < start :: EightHours(h, start) < EightHours(h, t))
  }

  ghost predicate RoundedToThousandths(x: real, exact: real) {
    exists m: int :: Thousandths(x, exact, m)
  }

  ghost predicate Thousandths(x: real, exact: real, m: int) {
    1000.0 * x == m as real && m as real - 0.5 <= 1000.0 * exact < m as real + 0.5
  }

  // Volume times contrast: the day's excess over three quietest stretches, as a share of 120 interactions at least.
  function Weight(best: nat, total: nat): real {
    (total - 3 * best) as real / (if total >= 120 then total else 120) as real
  }

  // What is said of a day with `total` interactions whose quietest eight hours start at `start` and have `best`.
  ghost predicate Describes(r: ActivityRhythm, start: nat, best: nat, total: nat)
    requires total > 0
  {
    && r.samples == total && r.troughCentre == Some(((start + 4) % 24) as real)
    && r.offsetMinutes.Some? && -720 < r.offsetMinutes.value <= 720
    && (r.offsetMinutes.value - (210 - 60 * (start + 4))) % 1440 == 0
    && RoundedToThousandths(r.confidence, Weight(best, total))
  }

  lemma SumOfPrefix(h: Histogram, k: nat)
    requires k < HOURS
    ensures Sum(h[..k + 1]) == Sum(h[..k]) + h[k]
  {
    assert h[..k + 1][..k] == h[..k];
  }

  lemma DayIs(h: Histogram)
    ensures Sum(h) == Day(h)
  {
    forall k | 0 <= k < HOURS ensures Sum(h[..k + 1]) == Sum(h[..k]) + h[k] {
      SumOfPrefix(h, k);
    }
    assert h[..0] == [] && h[..24] == h;
    FirstHalf(h);
    SecondHalf(h);
  }

  lemma FirstHalf(h: Histogram)
    requires forall k | 0 <= k < HOURS :: Sum(h[..k + 1]) == Sum(h[..k]) + h[k]
    ensures Sum(h[..12]) == h[0] + h[1] + h[2] + h[3] + h[4] + h[5] + h[6] + h[7] + h[8] + h[9] + h[10] + h[11]
  {
    assert h[..0] == [];
    assert Sum(h[..1]) == Sum(h[..0]) + h[0] && Sum(h[..2]) == Sum(h[..1]) + h[1];
    assert Sum(h[..3]) == Sum(h[..2]) + h[2] && Sum(h[..4]) == Sum(h[..3]) + h[3];
    assert Sum(h[..5]) == Sum(h[..4]) + h[4] && Sum(h[..6]) == Sum(h[..5]) + h[5];
    assert Sum(h[..7]) == Sum(h[..6]) + h[6] && Sum(h[..8]) == Sum(h[..7]) + h[7];
    assert Sum(h[..9]) == Sum(h[..8]) + h[8] && Sum(h[..10]) == Sum(h[..9]) + h[9];
    assert Sum(h[..11]) == Sum(h[..10]) + h[10] && Sum(h[..12]) == Sum(h[..11]) + h[11];
  }

  lemma SecondHalf(h: Histogram)
    requires forall k | 0 <= k < HOURS :: Sum(h[..k + 1]) == Sum(h[..k]) + h[k]
    ensures Sum(h[..24]) == Sum(h[..12]) + h[12] + h[13] + h[14] + h[15] + h[16] + h[17] + h[18] + h[19] + h[20]
                            + h[21] + h[22] + h[23]
  {
    assert Sum(h[..13]) == Sum(h[..12]) + h[12] && Sum(h[..14]) == Sum(h[..13]) + h[13];
    assert Sum(h[..15]) == Sum(h[..14]) + h[14] && Sum(h[..16]) == Sum(h[..15]) + h[15];
    assert Sum(h[..17]) == Sum(h[..16]) + h[16] && Sum(h[..18]) == Sum(h[..17]) + h[17];
    assert Sum(h[..19]) == Sum(h[..18]) + h[18] && Sum(h[..20]) == Sum(h[..19]) + h[19];
    assert Sum(h[..21]) == Sum(h[..20]) + h[20] && Sum(h[..22]) == Sum(h[..21]) + h[21];
    assert Sum(h[..23]) == Sum(h[..22]) + h[22] && Sum(h[..24]) == Sum(h[..23]) + h[23];
  }

  lemma WindowIs(h: Histogram, t: nat)
    ensures Window(h, t) == EightHours(h, t)
  {
    assert WindowSum(h, t, 1) == h[t % 24] && WindowSum(h, t, 2) == WindowSum(h, t, 1) + h[(t + 1) % 24];
    assert WindowSum(h, t, 3) == WindowSum(h, t, 2) + h[(t + 2) % 24];
    assert WindowSum(h, t, 4) == WindowSum(h, t, 3) + h[(t + 3) % 24];
    assert WindowSum(h, t, 5) == WindowSum(h, t, 4) + h[(t + 4) % 24];
    assert WindowSum(h, t, 6) == WindowSum(h, t, 5) + h[(t + 5) % 24];
    assert WindowSum(h, t, 7) == WindowSum(h, t, 6) + h[(t + 6) % 24];
    assert WindowSum(h, t, 8) == WindowSum(h, t, 7) + h[(t + 7) % 24];
  }

  lemma TroughIsQuietest(h: Histogram)
    requires Sum(h) <= U32_MAX
    ensures Quietest(h, Trough(h)) && Best(h, HOURS).1 == EightHours(h, Trough(h))
  {
    TroughEarliest(h);
    forall t: nat ensures Window(h, t) == EightHours(h, t) {
      WindowIs(h, t);
    }
  }

  lemma RoundedIs(weight: real)
    requires 0.0 <= weight
    ensures RoundedToThousandths(Round(weight * 1000.0) as real / 1000.0, weight)
  {
    var m := Round(weight * 1000.0);
    assert Thousandths(m as real / 1000.0, weight, m);
  }

  lemma WeighedIs(volume: real, contrast: real)
    requires 0.0 <= volume <= 1.0 && 0.0 <= contrast <= 1.0
    ensures RoundedToThousandths(Weighed(volume, contrast), volume * contrast)
  {
    ProductInRange(volume, contrast);
    RoundedIs(volume * contrast);
  }

  lemma ConfidenceOf(best: nat, total: nat, volume: real, contrast: real, weight: real)
    requires total > 0 && volume == Least(1.0, total as real / 120.0) && contrast == Contrast(best, total)
    requires 0.0 <= volume <= 1.0 && 0.0 <= contrast <= 1.0 && volume * contrast == weight
    ensures RoundedToThousandths(Confidence(best, total), weight)
  {
    WeighedIs(volume, contrast);
  }

  lemma QuotientIs(x: real, y: real, q: real)
    requires y > 0.0 && q * y == x
    ensures q == x / y
  {
  }

  // With few interactions the volume cancels the total, with many it is 1.
  lemma WeightIs(best: nat, total: nat, volume: real, contrast: real)
    requires total > 0 && volume == Least(1.0, total as real / 120.0)
    requires contrast == 1.0 - (3 * best) as real / total as real
    ensures volume * contrast == Weight(best, total)
  {
    var (b, t) := ((3 * best) as real, total as real);
    var q := b / t;
    assert q * t == b;
    ExcessShare(t, b, q);
    assert (total - 3 * best) as real == t - b;
    if total >= 120 {
      QuotientIs(t - b, t, contrast);
    } else {
      ScaledShare(t, contrast, t - b);
      QuotientIs(t - b, 120.0, volume * contrast);
    }
  }

  lemma ExcessShare(t: real, b: real, q: real)
    requires q * t == b
    ensures (1.0 - q) * t == t - b
  {
  }

  lemma ScaledShare(t: real, contrast: real, excess: real)
    requires contrast * t == excess
    ensures (t / 120.0) * contrast * 120.0 == excess
  {
  }

  // The confidence, to three decimals.
  lemma ConfidenceExactly(best: nat, total: nat)
    requires total > 0 && 3 * best <= total
    ensures RoundedToThousandths(Confidence(best, total), Weight(best, total))
  {
    ContrastIs(best, total);
    var (volume, contrast, weight) := (Least(1.0, total as real / 120.0), Contrast(best, total), Weight(best, total));
    WeightIs(best, total, volume, contrast);
    ConfidenceOf(best, total, volume, contrast, weight);
  }

  // Nothing is inferred from fewer than 12 interactions; from more, everything that is said of the day is said of its
  // earliest quietest eight hours, in terms of the histogram itself.
  method InferActivityRhythm(h: Histogram) returns (r: ActivityRhythm)
    requires Day(h) <= 0xFFFF_FFFF
    ensures Day(h) < 12 ==> r == ActivityRhythm(None, 0.0, None, Day(h))
    ensures Day(h) >= 12 ==> exists start :: Quietest(h, start) && Describes(r, start, EightHours(h, start), Day(h))
    ensures Day(h) >= 12 ==> r.offsetMinutes == Some(Normalized(210 - 60 * Centre(h)))
  {
    DayIs(h);
    var total := 0;
    for i := 0 to HOURS
      invariant total == Sum(h[..i])
    {
      total := total + h[i];
      assert h[..i + 1][..i] == h[..i];
    }
    assert h[..HOURS] == h;
    if total < MIN_SAMPLES {
      return ActivityRhythm(None, 0.0, None, total);
    }
    var bestStart, bestSum := FindTrough(h);
    TroughIsQuietest(h);
    var centre := (bestStart + WIDTH / 2) % HOURS;
    var minutes := OffsetMinutes(centre);
    r := ActivityRhythm(Some(minutes), Confidence(bestSum, total), Some(centre as real), total);
    AnswerDescribes(h, r, minutes);
  }

  lemma AnswerDescribes(h: Histogram, r: ActivityRhythm, minutes: int)
    requires 0 < Sum(h) <= U32_MAX && minutes == Normalized(210 - 60 * Centre(h))
    requires r == ActivityRhythm(Some(minutes), Confidence(Best(h, HOURS).1, Sum(h)), Some(Centre(h) as real), Sum(h))
    ensures Describes(r, Trough(h), EightHours(h, Trough(h)), Sum(h))
  {
    TroughEarliest(h);
    TroughIsQuietest(h);
    TimesDescribed(Trough(h), Centre(h), minutes);
    ConfidenceExactly(Best(h, HOURS).1, Sum(h));
  }

  lemma TimesDescribed(start: nat, centre: nat, minutes: int)
    requires centre == (start + 4) % 24 && minutes == Normalized(210 - 60 * centre)
    ensures -720 < minutes <= 720 && (minutes - (210 - 60 * (start + 4))) % 1440 == 0
  {
    NormalizedExactly(210 - 60 * centre, minutes);
    MinutesOfCentre(start, minutes);
  }

  lemma MinutesOfCentre(start: nat, m: int)
    ensures (m - (210 - 60 * ((start + 4) % 24))) % 1440 == 0 <==> (m - (210 - 60 * (start + 4))) % 1440 == 0
  {
    var days := (start + 4) / 24;
    assert 60 * ((start + 4) % 24) == 60 * (start + 4) - 1440 * days;
    WholeDays(m - (210 - 60 * (start + 4)), days);
  }

  lemma {:induction false} WholeDays(n: int, days: nat)
    ensures (n - 1440 * days) % 1440 == 0 <==> n % 1440 == 0
  {
    if days != 0 {
      WholeDays(n, days - 1);
    }
  }
}
