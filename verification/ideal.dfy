/**
 * The design equations of OpAmp.py lines 70 and 74: for a chosen R1 and Rf, the
 * R2 and Rg that make the stage realise the target map Vout = m·Vin + b exactly,
 * and the feasibility filter of lines 71-72 and 75-76 that skips a pair whose
 * ideal R2 or Rg would be negative.
 */
module Ideal {
  import opened Wrappers
  import opened Transfer
  import opened Network

  /** The denominator (m-1)·Vref + b of the R2 equation. */
  function R2Denominator(t: Affine, vref: real): real
  {
    (t.m - 1.0) * vref + t.b
  }

  /** The denominator (m-1)·Vref of the Rg equation. */
  function RgDenominator(t: Affine, vref: real): real
  {
    (t.m - 1.0) * vref
  }

  /** The ideal R2 for a given R1 (before rounding to a stock value). */
  function IdealR2(t: Affine, vref: real, r1: real): real
    requires R2Denominator(t, vref) != 0.0
  {
    -t.b * r1 / R2Denominator(t, vref)
  }

  /** The ideal Rg for a given R1 and Rf (before rounding to a stock value). */
  function IdealRg(t: Affine, vref: real, r1: real, rf: real): real
    requires RgDenominator(t, vref) != 0.0
  {
    (t.b * r1 + vref * rf) / RgDenominator(t, vref)
  }

  /**
   * The script computes Rg only once the ideal R2 is non-negative; for a positive R1
   * that alone guarantees that the Rg equation does not divide by zero.
   */
  lemma RgDenominatorNonZero(t: Affine, vref: real, r1: real)
    requires R2Denominator(t, vref) != 0.0
    requires r1 > 0.0
    requires IdealR2(t, vref, r1) >= 0.0
    ensures RgDenominator(t, vref) != 0.0
  {
    if RgDenominator(t, vref) == 0.0 {
      QuotientTimesDivisor(-t.b * r1, t.b);
      assert false;
    }
  }

  /**
   * The ideal pair (R2, Rg) for R1 and Rf, or None when the script skips the pair
   * because one of them would be negative; R2 is checked first.
   */
  function IdealPair(t: Affine, vref: real, r1: real, rf: real): (r: Option<(real, real)>)
    requires R2Denominator(t, vref) != 0.0
    requires r1 > 0.0
    ensures r.Some? <==>
      IdealR2(t, vref, r1) >= 0.0 &&
      RgDenominator(t, vref) != 0.0 && IdealRg(t, vref, r1, rf) >= 0.0
    ensures r.Some? ==> r.value == (IdealR2(t, vref, r1), IdealRg(t, vref, r1, rf))
  {
    var r2 := IdealR2(t, vref, r1);
    if r2 < 0.0 then None
    else
      RgDenominatorNonZero(t, vref, r1);
      var rg := IdealRg(t, vref, r1, rf);
      if rg < 0.0 then None else Some((r2, rg))
  }

  /**
   * Below unit gain (m ≤ 1, which includes inverted ranges with m < 0) and with a
   * positive reference, no pair of positive resistors passes both sign checks:
   * with b < 0 the ideal R2 is negative; otherwise, once the ideal R2 is
   * non-negative, the Rg denominator (m-1)·Vref is negative and so is the ideal Rg.
   */
  lemma NoIdealPairBelowUnitGain(t: Affine, vref: real, r1: real, rf: real)
    requires R2Denominator(t, vref) != 0.0
    requires r1 > 0.0 && rf > 0.0 && vref > 0.0
    requires t.m <= 1.0
    ensures IdealPair(t, vref, r1, rf).None?
  {
    var d := R2Denominator(t, vref);
    var e := RgDenominator(t, vref);
    NonPositiveTimesPositive(t.m - 1.0, vref);
    if t.b < 0.0 {
      assert d < 0.0;
      assert -t.b * r1 > 0.0;
      NegativeQuotient(-t.b * r1, d);
    } else if IdealR2(t, vref, r1) >= 0.0 {
      RgDenominatorNonZero(t, vref, r1);
      assert e < 0.0;
      assert t.b * r1 >= 0.0;
      assert vref * rf > 0.0;
      NegativeQuotient(t.b * r1 + vref * rf, e);
    }
  }

  /** A non-positive factor times a positive one is non-positive. */
  lemma NonPositiveTimesPositive(x: real, y: real)
    requires x <= 0.0 && y > 0.0
    ensures x * y <= 0.0
  {
  }

  /** A positive value divided by a negative one is negative. */
  lemma NegativeQuotient(x: real, q: real)
    requires x > 0.0 && q < 0.0
    ensures x / q < 0.0
  {
  }

  /** The network built from R1, Rf and the ideal R2 and Rg. */
  function IdealNetwork(t: Affine, vref: real, r1: real, rf: real): Resistors
    requires R2Denominator(t, vref) != 0.0 && RgDenominator(t, vref) != 0.0
  {
    Resistors(r1, rf, IdealR2(t, vref, r1), IdealRg(t, vref, r1, rf))
  }

  /** (R1 + R2)·D = R1·E for the ideal R2, so R1 + R2 is not zero. */
  lemma IdealSum(t: Affine, vref: real, r1: real)
    requires R2Denominator(t, vref) != 0.0 && RgDenominator(t, vref) != 0.0
    requires r1 != 0.0
    ensures (r1 + IdealR2(t, vref, r1)) * R2Denominator(t, vref) == r1 * RgDenominator(t, vref)
    ensures r1 + IdealR2(t, vref, r1) != 0.0
  {
    var d, e, b := R2Denominator(t, vref), RgDenominator(t, vref), t.b;
    var r2 := IdealR2(t, vref, r1);
    QuotientTimesDivisor(-b * r1, d);
    SumTimesDenominator(r1, r2, d, e, b);
    NonZeroProduct(r1, e);
    NonZeroFactor(r1 + r2, d, r1 * e);
  }

  /** Rp·E = -b·R1 for the ideal network. */
  lemma IdealParallel(t: Affine, vref: real, r1: real, rf: real)
    requires R2Denominator(t, vref) != 0.0 && RgDenominator(t, vref) != 0.0
    requires r1 != 0.0
    ensures r1 + IdealR2(t, vref, r1) != 0.0
    ensures IdealNetwork(t, vref, r1, rf).Rp() * RgDenominator(t, vref) == -t.b * r1
  {
    IdealSum(t, vref, r1);
    var d := R2Denominator(t, vref);
    QuotientTimesDivisor(-t.b * r1, d);
    ParallelFromEquations(IdealNetwork(t, vref, r1, rf), d, RgDenominator(t, vref), t.b);
  }

  /** A network whose R1 and R2 satisfy the offset-divider relations for D and E has Rp·E = -b·R1. */
  lemma ParallelFromEquations(net: Resistors, d: real, e: real, b: real)
    requires net.r1 != 0.0 && net.r1 + net.r2 != 0.0
    requires (net.r1 + net.r2) * d == net.r1 * e
    requires net.r2 * d == -b * net.r1
    ensures net.Rp() * e == -b * net.r1
  {
    var s, rp := net.r1 + net.r2, net.Rp();
    QuotientTimesDivisor(net.r1 * net.r2, s);
    ParallelTimesDenominator(rp, s, net.r1, net.r2, d, e, b);
  }

  /** (Rg + Rp)·E = Vref·Rf for the ideal network, so Rg + Rp is not zero. */
  lemma IdealLoad(t: Affine, vref: real, r1: real, rf: real)
    requires R2Denominator(t, vref) != 0.0 && RgDenominator(t, vref) != 0.0
    requires r1 != 0.0 && rf != 0.0
    ensures IdealNetwork(t, vref, r1, rf).Defined()
    ensures var net := IdealNetwork(t, vref, r1, rf);
      (net.rg + net.Rp()) * RgDenominator(t, vref) == vref * rf
    ensures vref != 0.0
  {
    IdealParallel(t, vref, r1, rf);
    var e, b := RgDenominator(t, vref), t.b;
    var net := IdealNetwork(t, vref, r1, rf);
    var rp, rg := net.Rp(), net.rg;
    QuotientTimesDivisor(b * r1 + vref * rf, e);
    assert rg * e == b * r1 + vref * rf;
    var q := rg + rp;
    assert q * e == vref * rf;
    NonZeroFactor(vref, t.m - 1.0, e);
    NonZeroProduct(vref, rf);
    NonZeroFactor(q, e, vref * rf);
  }

  /** The ideal network's gain is m. */
  lemma IdealGain(t: Affine, vref: real, r1: real, rf: real)
    requires R2Denominator(t, vref) != 0.0 && RgDenominator(t, vref) != 0.0
    requires r1 != 0.0 && rf != 0.0
    ensures IdealNetwork(t, vref, r1, rf).Defined()
    ensures IdealNetwork(t, vref, r1, rf).Gain() == t.m
  {
    IdealLoad(t, vref, r1, rf);
    var net := IdealNetwork(t, vref, r1, rf);
    var q := net.rg + net.Rp();
    var g := rf / q;
    QuotientTimesDivisor(rf, q);
    GainRatio(g, q, rf, RgDenominator(t, vref), vref, t.m - 1.0);
  }

  /** The ideal network's offset is b. */
  lemma IdealOffset(t: Affine, vref: real, r1: real, rf: real)
    requires R2Denominator(t, vref) != 0.0 && RgDenominator(t, vref) != 0.0
    requires r1 != 0.0 && rf != 0.0
    ensures IdealNetwork(t, vref, r1, rf).Defined()
    ensures IdealNetwork(t, vref, r1, rf).Offset(vref) == t.b
  {
    IdealEquations(t, vref, r1, rf);
    OffsetFromEquations(IdealNetwork(t, vref, r1, rf), vref,
                        R2Denominator(t, vref), RgDenominator(t, vref), t.b);
  }

  /** The relations between the ideal network's resistors that the offset proof combines. */
  lemma IdealEquations(t: Affine, vref: real, r1: real, rf: real)
    requires R2Denominator(t, vref) != 0.0 && RgDenominator(t, vref) != 0.0
    requires r1 != 0.0 && rf != 0.0
    ensures var net, d, e := IdealNetwork(t, vref, r1, rf), R2Denominator(t, vref), RgDenominator(t, vref);
      net.Defined() && vref != 0.0 && net.r1 != 0.0 && net.rf != 0.0 && e != 0.0
      && (net.r1 + net.r2) * d == net.r1 * e
      && (net.rg + net.Rp()) * e == vref * net.rf
      && net.r2 * d == -t.b * net.r1
  {
    IdealLoad(t, vref, r1, rf);
    IdealSum(t, vref, r1);
    QuotientTimesDivisor(-t.b * r1, R2Denominator(t, vref));
  }

  /**
   * A defined network whose resistors satisfy the three design relations for
   * denominators D and E has offset b.
   */
  lemma OffsetFromEquations(net: Resistors, vref: real, d: real, e: real, b: real)
    requires net.Defined() && vref != 0.0 && net.r1 != 0.0 && net.rf != 0.0 && e != 0.0
    requires (net.r1 + net.r2) * d == net.r1 * e
    requires (net.rg + net.Rp()) * e == vref * net.rf
    requires net.r2 * d == -b * net.r1
    ensures net.Offset(vref) == b
  {
    var s, q := net.r1 + net.r2, net.rg + net.Rp();
    var num, den := vref * (net.r2 * net.rf), s * q;
    NonZeroProduct(s, q);
    QuotientTimesDivisor(num, den);
    OffsetAsQuotient(net, vref);
    OffsetRatio(net.Offset(vref), num, den, s, q, net.r1, net.r2, net.rf, vref, d, e, b);
  }

  /** The offset is the negated quotient of Vref·R2·Rf by (R1 + R2)·(Rg + Rp). */
  lemma OffsetAsQuotient(net: Resistors, vref: real)
    requires net.Defined()
    ensures net.Offset(vref)
      == -((vref * (net.r2 * net.rf)) / ((net.r1 + net.r2) * (net.rg + net.Rp())))
  {
    NegatedQuotient(vref * (net.r2 * net.rf), (net.r1 + net.r2) * (net.rg + net.Rp()));
  }

  /**
   * With the ideal R2 and Rg (non-zero R1 and Rf, both denominators non-zero) the
   * network evaluates without division by zero, its gain is m and its offset b:
   * the design equations realise the target map exactly.
   */
  lemma IdealRealisesTarget(t: Affine, vref: real, r1: real, rf: real)
    requires R2Denominator(t, vref) != 0.0 && RgDenominator(t, vref) != 0.0
    requires r1 != 0.0 && rf != 0.0
    ensures IdealNetwork(t, vref, r1, rf).Defined()
    ensures IdealNetwork(t, vref, r1, rf).Gain() == t.m
    ensures IdealNetwork(t, vref, r1, rf).Offset(vref) == t.b
  {
    IdealGain(t, vref, r1, rf);
    IdealOffset(t, vref, r1, rf);
  }

  /** (x / q) · q = x. */
  lemma QuotientTimesDivisor(x: real, q: real)
    requires q != 0.0
    ensures (x / q) * q == x
  {
  }

  /** (-x) / q = -(x / q). */
  lemma NegatedQuotient(x: real, q: real)
    requires q != 0.0
    ensures (-x) / q == -(x / q)
  {
  }

  /** A product of non-zero factors is non-zero. */
  lemma NonZeroProduct(x: real, y: real)
    requires x != 0.0 && y != 0.0
    ensures x * y != 0.0
  {
  }

  /** A factor of a non-zero product is non-zero. */
  lemma NonZeroFactor(x: real, y: real, p: real)
    requires x * y == p && p != 0.0
    ensures x != 0.0
  {
  }

  /** A non-zero common factor cancels. */
  lemma Cancel(x: real, y: real, c: real)
    requires c != 0.0 && x * c == y * c
    ensures x == y
  {
  }

  /** (R1 + R2)·D = R1·E when R2·D = -b·R1 and D = E + b. */
  lemma SumTimesDenominator(r1: real, r2: real, d: real, e: real, b: real)
    requires d == e + b
    requires r2 * d == -b * r1
    ensures (r1 + r2) * d == r1 * e
  {
  }

  /** Rp·E = -b·R1 when Rp·(R1 + R2) = R1·R2, (R1 + R2)·D = R1·E and R2·D = -b·R1. */
  lemma ParallelTimesDenominator(rp: real, s: real, r1: real, r2: real, d: real, e: real, b: real)
    requires rp * s == r1 * r2
    requires s * d == r1 * e
    requires r2 * d == -b * r1
    requires r1 != 0.0
    ensures rp * e == -b * r1
  {
    MulBoth(rp * s, r1 * r2, d, d);
    MulBoth(s * d, r1 * e, rp, rp);
    MulBoth(r2 * d, -b * r1, r1, r1);
    assert (rp * e) * r1 == (-b * r1) * r1;
    Cancel(rp * e, -b * r1, r1);
  }

  /** g = k when g·q = Rf, q·E = Vref·Rf and E = k·Vref, with Rf and Vref non-zero. */
  lemma GainRatio(g: real, q: real, rf: real, e: real, vref: real, k: real)
    requires g * q == rf && q * e == vref * rf && e == k * vref
    requires rf != 0.0 && vref != 0.0
    ensures g == k
  {
    MulBoth(g * q, rf, e, e);
    MulBoth(q * e, vref * rf, g, g);
    assert (g * vref) * rf == e * rf;
    Cancel(g * vref, e, rf);
    assert g * vref == k * vref;
    Cancel(g, k, vref);
  }

  /** Products of equals are equal. */
  lemma MulBoth(x: real, y: real, u: real, w: real)
    requires x == y && u == w
    ensures x * u == y * w
  {
  }

  /**
   * The offset quotient equals b: num·D = Vref·Rf·(R2·D) = q·E·(-b·R1) = -b·den·D,
   * so num = -b·den and the quotient is -b.
   */
  lemma OffsetRatio(o: real, num: real, den: real, s: real, q: real, r1: real, r2: real,
                    rf: real, vref: real, d: real, e: real, b: real)
    requires num == vref * (r2 * rf) && den == s * q && den != 0.0
    requires (num / den) * den == num && o == -(num / den)
    requires s * d == r1 * e && q * e == vref * rf && r2 * d == -b * r1
    requires r1 != 0.0 && rf != 0.0 && vref != 0.0 && e != 0.0
    ensures o == b
  {
    var x := num / den;
    NonZeroProduct(r1, e);
    NonZeroFactor(d, s, r1 * e);
    MulBoth(vref * rf, q * e, r2 * d, -b * r1);
    assert num * d == (vref * rf) * (r2 * d);
    MulBoth(s * d, r1 * e, q, q);
    assert den * d == (s * d) * q;
    assert num * d == (-b * den) * d;
    Cancel(num, -b * den, d);
    assert x * den == -b * den;
    Cancel(x, -b, den);
  }
}
