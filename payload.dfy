/** The body `sendMetricToGrafana` posts: an OTLP/JSON metrics export holding
    one metric with one data point. */
module MetricPayload {
  import opened Wrappers

  /** What a send reads from its environment: `Date.now()` in milliseconds and
      the `Math.random()` draw used for the timestamp jitter. */
  datatype Stamp = Stamp(nowMs: int, random: real)

  /** `Math.random()` returns a number in [0, 1). */
  predicate ValidStamp(st: Stamp) {
    0.0 <= st.random < 1.0
  }

  datatype DataPoint = DataPoint(asDouble: real, timeUnixNano: int)

  /** The object under the computed key `[type]`; the two optional members are
      the ones the source adds afterwards for sums. */
  datatype Aggregation = Aggregation(
    dataPoints: seq<DataPoint>,
    aggregationTemporality: Option<string>,
    isMonotonic: Option<bool>)

  /** One metric; `kind` is the `type` argument, used as the key of `data`. */
  datatype Metric = Metric(name: string, unit: string, kind: string, data: Aggregation)

  datatype ScopeMetrics = ScopeMetrics(metrics: seq<Metric>)

  datatype ResourceMetrics = ResourceMetrics(scopeMetrics: seq<ScopeMetrics>)

  datatype Payload = Payload(resourceMetrics: seq<ResourceMetrics>)

  const Cumulative: string := "AGGREGATION_TEMPORALITY_CUMULATIVE"

  /** The payload holds exactly one resource, one scope and one metric. */
  predicate SingleMetric(p: Payload) {
    && |p.resourceMetrics| == 1
    && |p.resourceMetrics[0].scopeMetrics| == 1
    && |p.resourceMetrics[0].scopeMetrics[0].metrics| == 1
  }

  function OnlyMetric(p: Payload): Metric
    requires SingleMetric(p)
  {
    p.resourceMetrics[0].scopeMetrics[0].metrics[0]
  }

  /** `Math.floor(Math.random() * 1000)`. */
  function Jitter(random: real): (j: nat)
    requires 0.0 <= random < 1.0
    ensures j < 1000
    ensures j as real <= random * 1000.0 < j as real + 1.0
  {
    (random * 1000.0).Floor
  }

  /** The data-point timestamp in nanoseconds, computed exactly (see
      `TimeUnixNanoAsWritten` for what double arithmetic makes of it). */
  function TimeUnixNano(nowMs: int, jitter: nat): int
    requires jitter < 1000
  {
    nowMs * 1000000 + jitter
  }

  /** Exact timestamps lie in the supplied millisecond and are ordered, and so
      distinct, by (millisecond, jitter): the "unique timestamp" the source intends. */
  lemma TimeUnixNanoOrder(ms1: int, j1: nat, ms2: int, j2: nat)
    requires j1 < 1000 && j2 < 1000
    ensures ms1 * 1000000 <= TimeUnixNano(ms1, j1) <= ms1 * 1000000 + 999
    ensures TimeUnixNano(ms1, j1) < TimeUnixNano(ms2, j2) <==> ms1 < ms2 || (ms1 == ms2 && j1 < j2)
    ensures TimeUnixNano(ms1, j1) == TimeUnixNano(ms2, j2) <==> ms1 == ms2 && j1 == j2
  {
  }

  /** The object `sendMetricToGrafana(name, value, kind, unit)` serialises. */
  function BuildPayload(name: string, value: real, kind: string, unit: string, st: Stamp): (p: Payload)
    requires ValidStamp(st)
    ensures SingleMetric(p)
    ensures OnlyMetric(p).name == name && OnlyMetric(p).unit == unit && OnlyMetric(p).kind == kind
    ensures |OnlyMetric(p).data.dataPoints| == 1
    ensures OnlyMetric(p).data.dataPoints[0].asDouble == value
    ensures st.nowMs * 1000000 <= OnlyMetric(p).data.dataPoints[0].timeUnixNano <= st.nowMs * 1000000 + 999
    ensures kind == "sum" <==> OnlyMetric(p).data.aggregationTemporality == Some(Cumulative)
    ensures kind == "sum" <==> OnlyMetric(p).data.isMonotonic == Some(true)
    ensures kind != "sum" ==> OnlyMetric(p).data.aggregationTemporality.None? && OnlyMetric(p).data.isMonotonic.None?
  {
    var point := DataPoint(value, TimeUnixNano(st.nowMs, Jitter(st.random)));
    var data :=
      if kind == "sum" then Aggregation([point], Some(Cumulative), Some(true))
      else Aggregation([point], None, None);
    Payload([ResourceMetrics([ScopeMetrics([Metric(name, unit, kind, data)])])])
  }

  // ---------------------------------------------------------------------
  // The timestamp as the source writes it: `Date.now() * 1000000 + jitter`
  // evaluated in IEEE-754 doubles, each operation rounded to nearest, ties to
  // even. Above 2^53 the doubles are spaced more than 1 apart.

  const TwoTo52: nat := 0x10_0000_0000_0000
  const TwoTo53: nat := 0x20_0000_0000_0000

  function Pow2(e: nat): (p: nat)
    ensures p >= 1
  {
    if e == 0 then 1 else 2 * Pow2(e - 1)
  }

  /** The gap between adjacent doubles around the integer `x` (overflow to
      infinity is not modelled). */
  function Spacing(x: nat): (u: nat)
    ensures u >= 1
    ensures x < TwoTo53 * u
    ensures u > 1 ==> TwoTo52 * u <= x
    decreases x
  {
    if x < TwoTo53 then 1 else 2 * Spacing(x / 2)
  }

  /** Between 2^(52+e) and 2^(53+e) the doubles are 2^e apart. */
  lemma {:induction false} SpacingBetween(x: nat, e: nat)
    requires x < TwoTo53 * Pow2(e)
    requires e > 0 ==> TwoTo52 * Pow2(e) <= x
    ensures Spacing(x) == Pow2(e)
    decreases e
  {
    if e > 0 {
      SpacingBetween(x / 2, e - 1);
    }
  }

  /** The double nearest to the integer `x`, ties to the even significand. */
  function RoundToDouble(x: nat): (r: nat)
    ensures 2 * (x - r) <= Spacing(x) && 2 * (r - x) <= Spacing(x)
  {
    var u := Spacing(x);
    var rem := x % u;
    var below := x - rem;
    if 2 * rem < u || (2 * rem == u && (x / u) % 2 == 0) then below else below + u
  }

  /** `Date.now() * 1000000 + Math.floor(Math.random() * 1000)` in doubles:
      exact while the sum stays below 2^53. */
  function TimeUnixNanoAsWritten(nowMs: nat, jitter: nat): (t: nat)
    requires jitter < 1000
    ensures nowMs * 1000000 + 999 < TwoTo53 ==> t == TimeUnixNano(nowMs, jitter)
  {
    RoundToDouble(RoundToDouble(nowMs * 1000000) + jitter)
  }

  /** Each of the two roundings moves the timestamp by at most half the spacing
      around its operand. */
  lemma TimeUnixNanoAsWrittenError(nowMs: nat, jitter: nat)
    requires jitter < 1000
    ensures var t1, t := RoundToDouble(nowMs * 1000000), TimeUnixNanoAsWritten(nowMs, jitter);
      && 2 * (t - TimeUnixNano(nowMs, jitter)) <= Spacing(nowMs * 1000000) + Spacing(t1 + jitter)
      && 2 * (TimeUnixNano(nowMs, jitter) - t) <= Spacing(nowMs * 1000000) + Spacing(t1 + jitter)
  {
  }

  /** Around present-day nanosecond timestamps (2^60 to 2^61) the doubles are 256 apart. */
  lemma SpacingNearNow(x: nat)
    requires TwoTo52 * 256 <= x < TwoTo53 * 256
    ensures Spacing(x) == 256
  {
    assert Pow2(8) == 256 by {
      assert Pow2(1) == 2 && Pow2(2) == 4 && Pow2(3) == 8 && Pow2(4) == 16;
      assert Pow2(5) == 32 && Pow2(6) == 64 && Pow2(7) == 128;
    }
    SpacingBetween(x, 8);
  }

  /** Division by the spacing 256 of a number written as a multiple of 256 plus a remainder. */
  lemma DivMod256(q: nat, r: nat)
    requires r < 256
    ensures (256 * q + r) / 256 == q && (256 * q + r) % 256 == r
  {
  }

  /** Around present-day timestamps, less than half the spacing above a
      multiple of 256 rounds down to it. */
  lemma RoundsDownNearNow(q: nat, r: nat)
    requires TwoTo52 * 256 <= 256 * q && 256 * q + r < TwoTo53 * 256
    requires r < 128
    ensures RoundToDouble(256 * q + r) == 256 * q
  {
    SpacingNearNow(256 * q + r);
    DivMod256(q, r);
  }

  /** A present-day millisecond whose nanosecond count lies 64 above a
      multiple of 256 gets, with jitter 0, a double before the millisecond.
      The count itself reads back as that double, and it is the only multiple
      of 10^6 that does, so the text `JSON.stringify` posts for the double
      (the fewest significant digits that read back) is the count: as posted,
      the timestamp stays in its millisecond. */
  lemma MillisecondLeftAsWritten(nowMs: nat, q: nat)
    requires nowMs * 1000000 == 256 * q + 64
    requires TwoTo52 * 256 <= 256 * q && 256 * q + 64 < TwoTo53 * 256
    ensures TimeUnixNanoAsWritten(nowMs, 0) == 256 * q < nowMs * 1000000
    ensures RoundToDouble(nowMs * 1000000) == 256 * q
    ensures forall d: nat :: TwoTo52 * 256 <= d < TwoTo53 * 256 && RoundToDouble(d) == 256 * q && d % 1000000 == 0 ==>
      d == nowMs * 1000000
  {
    RoundsDownNearNow(q, 64);
    RoundsDownNearNow(q, 0);
    assert 256 * q + 0 == 256 * q;
    ShortestNearLeft(nowMs, nowMs * 1000000, 256 * q);
  }

  /** The decimals that read back as the double 64 below the count `n` of a
      millisecond `m`: the only multiple of 10^6 among them is `n`. */
  lemma ShortestNearLeft(m: nat, n: nat, t: nat)
    requires n == m * 1000000 && t + 64 == n
    ensures forall d: nat :: TwoTo52 * 256 <= d < TwoTo53 * 256 && RoundToDouble(d) == t && d % 1000000 == 0 ==> d == n
  {
    forall d: nat | TwoTo52 * 256 <= d < TwoTo53 * 256 && RoundToDouble(d) == t && d % 1000000 == 0
      ensures d == n
    {
      ReadsBackNear(d, t);
      DigitsNearLeft(m, d);
    }
  }

  /** A multiple of 10^6 within 192 below and 64 above `m * 10^6` is `m * 10^6`. */
  lemma DigitsNearLeft(m: nat, d: nat)
    requires m * 1000000 <= d + 192 && d <= m * 1000000 + 64
    requires d % 1000000 == 0
    ensures d == m * 1000000
  {
    var c := d / 1000000;
    assert d == 1000000 * c;
    assert c <= m && m <= c;
  }

  /** At 2023-11-14T22:13:20.001Z with jitter 0, the double lies 64 ns before
      the millisecond it was computed from, and the millisecond's own count,
      1700000000001000000, is the only multiple of 10^6 that reads back as it. */
  lemma MillisecondLeftOnSampleDay()
    ensures TimeUnixNanoAsWritten(1700000000001, 0) == 1700000000000999936 < 1700000000001 * 1000000
    ensures RoundToDouble(1700000000001000000) == 1700000000000999936
    ensures forall d: nat :: TwoTo52 * 256 <= d < TwoTo53 * 256 && RoundToDouble(d) == 1700000000000999936 && d % 1000000 == 0 ==>
      d == 1700000000001000000
  {
    MillisecondLeftAsWritten(1700000000001, 6640625000003906);
  }

  /** Around present-day timestamps, more than half the spacing above a
      multiple of 256 rounds up to the next one. */
  lemma RoundsUpNearNow(q: nat, r: nat)
    requires TwoTo52 * 256 <= 256 * q && 256 * q + r < TwoTo53 * 256
    requires 128 < r < 256
    ensures RoundToDouble(256 * q + r) == 256 * (q + 1)
  {
    SpacingNearNow(256 * q + r);
    DivMod256(q, r);
  }

  /** A present-day decimal that reads back as the double `t` lies within
      half a spacing, 128, of it. */
  lemma ReadsBackNear(d: nat, t: nat)
    requires TwoTo52 * 256 <= d < TwoTo53 * 256
    requires RoundToDouble(d) == t
    ensures d - 128 <= t <= d + 128
  {
    SpacingNearNow(d);
  }

  /** A decimal within 128 of `m * 10^6 + 960` is not a multiple of 10^4,
      and is a multiple of 10^3 only as `m * 10^6 + 1000`. */
  lemma DigitsNearPassed(m: nat, d: nat)
    requires m * 1000000 + 832 <= d <= m * 1000000 + 1088
    ensures d % 10000 != 0 && (d % 1000 == 0 ==> d == m * 1000000 + 1000)
  {
    var k := d - m * 1000000;
    assert d == 10000 * (m * 100) + k;
    assert d == 1000 * (m * 1000) + k;
  }

  /** With jitter 999, a count 64 above a multiple of 256 gives the double
      960 above it, and the count 1000 above it reads back as that double. */
  lemma PassedDouble(q: nat)
    requires TwoTo52 * 256 <= 256 * q && 256 * q + 1064 < TwoTo53 * 256
    ensures RoundToDouble(RoundToDouble(256 * q + 64) + 999) == 256 * q + 1024
    ensures RoundToDouble(256 * q + 1064) == 256 * q + 1024
  {
    RoundsDownNearNow(q, 64);
    assert 256 * q + 999 == 256 * (q + 3) + 231;
    RoundsUpNearNow(q + 3, 231);
    assert 256 * q + 1064 == 256 * (q + 4) + 40;
    RoundsDownNearNow(q + 4, 40);
  }

  /** A present-day millisecond whose nanosecond count lies 64 above a
      multiple of 256 gets, with jitter 999, the double `nowMs * 10^6 + 960`.
      `JSON.stringify` writes a double with the fewest significant digits that
      read back as it (Number::toString, section 6.1.6.1.20 of ECMA-262). Among
      the 19-digit decimals that read back as this double, none is a multiple
      of 10^4 and exactly one, `nowMs * 10^6 + 1000`, is a multiple of 10^3:
      that is the text posted, one past the millisecond's last nanosecond. */
  lemma MillisecondPassedAsWritten(nowMs: nat, q: nat)
    requires nowMs * 1000000 == 256 * q + 64
    requires TwoTo52 * 256 <= 256 * q && 256 * q + 1064 < TwoTo53 * 256
    ensures TimeUnixNanoAsWritten(nowMs, 999) == nowMs * 1000000 + 960
    ensures RoundToDouble(nowMs * 1000000 + 1000) == nowMs * 1000000 + 960
    ensures forall d: nat :: TwoTo52 * 256 <= d < TwoTo53 * 256 && RoundToDouble(d) == nowMs * 1000000 + 960 ==>
      d % 10000 != 0 && (d % 1000 == 0 ==> d == nowMs * 1000000 + 1000)
  {
    PassedDouble(q);
    assert TimeUnixNanoAsWritten(nowMs, 999) == RoundToDouble(RoundToDouble(256 * q + 64) + 999);
    assert nowMs * 1000000 + 1000 == 256 * q + 1064;
    ShortestNearPassed(nowMs, nowMs * 1000000);
  }

  /** The decimals that read back as the double 960 above the count `n` of a
      millisecond `m`: none is a multiple of 10^4, and only `n + 1000` is a
      multiple of 10^3. */
  lemma ShortestNearPassed(m: nat, n: nat)
    requires n == m * 1000000
    ensures forall d: nat :: TwoTo52 * 256 <= d < TwoTo53 * 256 && RoundToDouble(d) == n + 960 ==>
      d % 10000 != 0 && (d % 1000 == 0 ==> d == n + 1000)
  {
    forall d: nat | TwoTo52 * 256 <= d < TwoTo53 * 256 && RoundToDouble(d) == n + 960
      ensures d % 10000 != 0 && (d % 1000 == 0 ==> d == n + 1000)
    {
      ReadsBackNear(d, n + 960);
      DigitsNearPassed(m, d);
    }
  }

  /** At 2023-11-14T22:13:20.001Z with jitter 999 the double is
      1700000000001000960, posted as 1700000000001001000: one nanosecond past
      the range [ms * 10^6, ms * 10^6 + 999] the exact timestamps keep to. */
  lemma MillisecondPassedOnSampleDay()
    ensures TimeUnixNanoAsWritten(1700000000001, 999) == 1700000000001000960
    ensures RoundToDouble(1700000000001001000) == 1700000000001000960
    ensures 1700000000001 * 1000000 + 999 < 1700000000001001000
    ensures forall d: nat :: TwoTo52 * 256 <= d < TwoTo53 * 256 && RoundToDouble(d) == 1700000000001000960 ==>
      d % 10000 != 0 && (d % 1000 == 0 ==> d == 1700000000001001000)
  {
    MillisecondPassedAsWritten(1700000000001, 6640625000003906);
  }

  /** Adding a jitter of at most 128 to a present-day multiple of 512 rounds
      back to it (128 is a tie, broken towards the even significand). */
  lemma RoundsBackNearNow(m: nat, j: nat)
    requires TwoTo52 * 256 <= 512 * m && 512 * m + 128 < TwoTo53 * 256
    requires j <= 128
    ensures RoundToDouble(512 * m + j) == 512 * m
  {
    var x := 512 * m + j;
    SpacingNearNow(x);
    assert x == 256 * (2 * m) + j;
    DivMod256(2 * m, j);
    assert x % 256 == j && x / 256 == 2 * m;
  }

  /** A millisecond count divisible by 8 gives a nanosecond count divisible by 512. */
  lemma MillisecondsOfEight(k: nat)
    ensures (8 * k) * 1000000 == 512 * (k * 15625)
  {
  }

  /** In double arithmetic the jitter does not make timestamps unique. For
      every millisecond from mid-2006 to 2043 that is a multiple of 8 (so that
      `nowMs * 1000000` is a multiple of 512), every jitter from 0 to 128 gives
      the same timestamp, while the exact timestamps all differ. */
  lemma JitterLostAsWritten(nowMs: nat, j: nat)
    requires TwoTo52 * 256 <= nowMs * 1000000 && nowMs * 1000000 + 128 < TwoTo53 * 256
    requires nowMs % 8 == 0 && j <= 128
    ensures TimeUnixNanoAsWritten(nowMs, j) == TimeUnixNanoAsWritten(nowMs, 0)
    ensures j != 0 ==> TimeUnixNano(nowMs, j) != TimeUnixNano(nowMs, 0)
  {
    var k := nowMs / 8;
    assert nowMs == 8 * k;
    MillisecondsOfEight(k);
    JitterLostAt(nowMs, k * 15625, j);
  }

  /** The collision for a millisecond whose nanosecond count is 512 * m. */
  lemma JitterLostAt(nowMs: nat, m: nat, j: nat)
    requires nowMs * 1000000 == 512 * m
    requires TwoTo52 * 256 <= 512 * m && 512 * m + 128 < TwoTo53 * 256
    requires j <= 128
    ensures TimeUnixNanoAsWritten(nowMs, j) == 512 * m == TimeUnixNanoAsWritten(nowMs, 0)
  {
    RoundsBackNearNow(m, 0);
    RoundsBackNearNow(m, j);
    assert 512 * m + 0 == 512 * m;
  }

  /** 2023-11-14T22:13:20Z in milliseconds since the epoch: one such millisecond. */
  lemma JitterLostOnSampleDay()
    ensures TimeUnixNanoAsWritten(1700000000000, 1) == TimeUnixNanoAsWritten(1700000000000, 0)
  {
    JitterLostAsWritten(1700000000000, 1);
  }
}
