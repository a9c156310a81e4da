/**
 * The macro-period clock model (utils/calcs.js).
 *
 * The source computes in floating point; this model computes the exact
 * rational values in integers. calcMacroPeriod(p) = (2304 * p * 1655 + 500) / 1000
 * nanoseconds, so S = 1000 * calcMacroPeriod(p) = 3813120 * p + 500 is an
 * integer (the macro period in picoseconds) and every conversion below is an
 * integer division by a multiple of S or of 10^6.
 */
module ClockModel {
  import opened Arithmetic

  /** 1000 * calcMacroPeriod(p): the macro period in picoseconds. */
  function MacroPeriodPs(vcselPeriodPclks: nat): (s: nat)
    ensures s >= 500
  {
    2304 * vcselPeriodPclks * 1655 + 500
  }

  /** The macro period is four times an odd number of picoseconds, and over a microsecond for a real period. */
  lemma MacroPeriodShape(p: nat)
    ensures MacroPeriodPs(p) % 8 == 4
    ensures p >= 1 ==> MacroPeriodPs(p) >= 2000000
  {
    assert MacroPeriodPs(p) == 8 * (476640 * p + 62) + 4;
    DivUnique(MacroPeriodPs(p), 8, 476640 * p + 62, 4);
  }

  /** A longer pulse period always means a longer macro period. */
  lemma MacroPeriodIncreasing(p: nat, q: nat)
    requires p < q
    ensures MacroPeriodPs(p) < MacroPeriodPs(q)
  {
  }

  /**
   * timeoutMclksToMicroseconds: floor((m * M + M / 2) / 1000) for a macro period
   * of M nanoseconds, i.e. the whole microseconds in m and a half macro periods.
   */
  function MclksToUs(timeoutPeriodMclks: int, vcselPeriodPclks: nat): int
  {
    var s := MacroPeriodPs(vcselPeriodPclks);
    (timeoutPeriodMclks * s + s / 2) / 1000000
  }

  /** The microseconds are those in m and a half macro periods, rounded down. */
  lemma MclksToUsBounds(timeoutPeriodMclks: int, vcselPeriodPclks: nat)
    ensures var s := MacroPeriodPs(vcselPeriodPclks);
      var us := MclksToUs(timeoutPeriodMclks, vcselPeriodPclks);
      us * 2000000 <= (2 * timeoutPeriodMclks + 1) * s < (us + 1) * 2000000
  {
    var s := MacroPeriodPs(vcselPeriodPclks);
    MacroPeriodShape(vcselPeriodPclks);
    HalfPeriodsDown(timeoutPeriodMclks, s);
  }

  /** The quotient bounds of (m * s + s / 2) / 10^6, doubled, for an even s. */
  lemma HalfPeriodsDown(m: int, s: int)
    requires s > 0 && s % 2 == 0
    ensures var us := (m * s + s / 2) / 1000000;
      us * 2000000 <= (2 * m + 1) * s < (us + 1) * 2000000
  {
    var us := (m * s + s / 2) / 1000000;
    DivBounds(m * s + s / 2, 1000000);
    assert (2 * m + 1) * s == 2 * (m * s + s / 2);
  }

  /**
   * timeoutMicrosecondsToMclks, truncated as the timeout encoder truncates it:
   * the number of macro periods nearest to us microseconds (halves round up).
   */
  function UsToMclks(timeoutPeriodUs: int, vcselPeriodPclks: nat): int
  {
    var s := MacroPeriodPs(vcselPeriodPclks);
    (timeoutPeriodUs * 1000000 + s / 2) / s
  }

  /** The ticks are the whole macro periods nearest to the duration, halves rounding up. */
  lemma UsToMclksNearest(timeoutPeriodUs: int, vcselPeriodPclks: nat)
    ensures var s := MacroPeriodPs(vcselPeriodPclks);
      var mclks := UsToMclks(timeoutPeriodUs, vcselPeriodPclks);
      mclks * s - s / 2 <= timeoutPeriodUs * 1000000 < mclks * s + s / 2
  {
    var s := MacroPeriodPs(vcselPeriodPclks);
    var n := timeoutPeriodUs * 1000000;
    MacroPeriodShape(vcselPeriodPclks);
    assert UsToMclks(timeoutPeriodUs, vcselPeriodPclks) == (n + s / 2) / s;
    NearestMultiple(n, s);
  }

  /** (n + s / 2) / s is the multiple of s nearest to n, for an even s. */
  lemma NearestMultiple(n: int, s: int)
    requires s > 0 && s % 2 == 0
    ensures var k := (n + s / 2) / s; k * s - s / 2 <= n < k * s + s / 2
  {
    var k := (n + s / 2) / s;
    DivBounds(n + s / 2, s);
    assert k * s <= n + s / 2 < k * s + s;
    assert s / 2 + s / 2 == s;
  }

  /** Converting ticks to microseconds keeps the order of tick counts and never turns a count negative. */
  lemma MclksToUsMonotonic(m1: int, m2: int, p: nat)
    requires m1 <= m2
    ensures MclksToUs(m1, p) <= MclksToUs(m2, p)
    ensures m1 >= 0 ==> MclksToUs(m1, p) >= 0
  {
    var s := MacroPeriodPs(p);
    MulMonotonic(m1, m2, s);
    DivMonotonic(m1 * s + s / 2, m2 * s + s / 2, 1000000);
    if m1 >= 0 {
      DivMonotonic(0, m1 * s + s / 2, 1000000);
    }
  }

  /** Converting microseconds to ticks keeps the order of durations and never turns a duration negative. */
  lemma UsToMclksMonotonic(u1: int, u2: int, p: nat)
    requires u1 <= u2
    ensures UsToMclks(u1, p) <= UsToMclks(u2, p)
    ensures u1 >= 0 ==> UsToMclks(u1, p) >= 0
  {
    var s := MacroPeriodPs(p);
    DivMonotonic(u1 * 1000000 + s / 2, u2 * 1000000 + s / 2, s);
    if u1 >= 0 {
      DivMonotonic(0, u1 * 1000000 + s / 2, s);
    }
  }

  /**
   * Microseconds to ticks and back never loses time, and overshoots by less
   * than one macro period.
   */
  lemma UsRoundTrip(us: int, p: nat)
    ensures var s := MacroPeriodPs(p);
      us <= MclksToUs(UsToMclks(us, p), p) <= us + s / 1000000
  {
    MacroPeriodShape(p);
    UsRoundTripCore(us, MacroPeriodPs(p));
  }

  /** The microseconds round trip for an even macro period s. */
  lemma UsRoundTripCore(u: int, s: int)
    requires s > 0 && s % 2 == 0
    ensures var x := (u * 1000000 + s / 2) / s;
      u <= (x * s + s / 2) / 1000000 <= u + s / 1000000
  {
    var h := s / 2;
    var x := (u * 1000000 + h) / s;
    var back := (x * s + h) / 1000000;
    DivBounds(u * 1000000 + h, s);
    DivBounds(x * s + h, 1000000);
    DivBounds(s, 1000000);
    assert u * 1000000 < x * s + h <= u * 1000000 + s;
    assert (u + s / 1000000) * 1000000 + 1000000 > u * 1000000 + s;
  }

  /**
   * Ticks to microseconds and back is exact for every pulse period of at least
   * one tick: the half-period offset never lands on a whole microsecond,
   * because S is four times an odd number.
   */
  lemma MclksRoundTrip(mclks: int, p: nat)
    requires p >= 1
    ensures UsToMclks(MclksToUs(mclks, p), p) == mclks
  {
    MacroPeriodShape(p);
    RoundTripCore(mclks, MacroPeriodPs(p));
  }

  /** The round trip for a macro period s that is at least 1000000 and four times an odd number. */
  lemma RoundTripCore(m: int, s: int)
    requires s >= 1000000 && s % 8 == 4
    ensures var y := (m * s + s / 2) / 1000000; (y * 1000000 + s / 2) / s == m
  {
    var h := s / 2;
    var y := (m * s + h) / 1000000;
    var x := (y * 1000000 + h) / s;
    DivBounds(m * s + h, 1000000);
    DivBounds(y * 1000000 + h, s);
    OffGrid(m, s, y);
    assert x * s < m * s + s;
    assert m * s - s < x * s;
    CloseMultiples(x, m, s);
  }

  /** m and a half periods of a four-times-odd s are never a whole number of microseconds. */
  lemma OffGrid(m: int, s: int, y: int)
    requires s % 8 == 4
    ensures y * 1000000 != m * s + s / 2
  {
    NotMultipleOf8(2 * m + 1, s);
    assert (2 * m + 1) * s == 2 * (m * s + s / 2);
    assert 2 * (y * 1000000) == (y * 250000) * 8;
  }

  lemma NotMultipleOf8(a: int, s: int)
    requires a % 2 == 1 && s % 8 == 4
    ensures (a * s) % 8 == 4
  {
    var i, j := a / 2, s / 8;
    assert a * s == (2 * i + 1) * (8 * j + 4) == 8 * (2 * i * j + i + j) + 4;
  }

  /** Two multiples of s less than s apart are the same multiple. */
  lemma CloseMultiples(x: int, m: int, s: int)
    requires s > 0 && m * s - s < x * s < m * s + s
    ensures x == m
  {
    if x > m {
      MulMonotonic(m + 1, x, s);
    } else if x < m {
      MulMonotonic(x + 1, m, s);
    }
  }
}
