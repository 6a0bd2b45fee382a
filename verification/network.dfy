/**
 * The realised gain/offset network of OpAmp.py lines 82-83: the output waveform
 * of the non-inverting stage with R1/R2 dividing Vref and Rf/Rg setting the gain,
 * and the sum of squared errors against the desired waveform.
 */
module Network {

  /** A concrete resistor quadruple (ohms). */
  datatype Resistors = Resistors(r1: real, rf: real, r2: real, rg: real)
  {
    /** R1 ∥ R2, the source resistance of the offset divider. */
    function Rp(): real
      requires r1 + r2 != 0.0
    {
      (r1 * r2) / (r1 + r2)
    }

    /** No division by zero occurs when the output is evaluated. */
    predicate Defined()
    {
      r1 + r2 != 0.0 && rg + Rp() != 0.0
    }

    /** The gain the network applies to Vin. */
    function Gain(): real
      requires Defined()
    {
      1.0 + rf / (rg + Rp())
    }

    /** The constant the network adds to the output. */
    function Offset(vref: real): real
      requires Defined()
    {
      -(vref * (r2 * rf)) / ((r1 + r2) * (rg + Rp()))
    }
  }

  /** One output sample, with the source's formula. */
  function OutputSample(v: real, net: Resistors, vref: real): real
    requires net.Defined()
  {
    var rp := net.Rp();
    v * (net.rf + net.rg + rp) / (net.rg + rp)
      - vref * (net.r2 * net.rf) / ((net.r1 + net.r2) * (net.rg + rp))
  }

  /** The realised output is affine in the input, with the network's gain and offset. */
  lemma OutputSampleIsAffine(v: real, net: Resistors, vref: real)
    requires net.Defined()
    ensures OutputSample(v, net, vref) == net.Gain() * v + net.Offset(vref)
  {
    var rp := net.Rp();
    var q := net.rg + rp;
    var g, h := net.rf / q, (net.rf + q) / q;
    assert g * q == net.rf;
    assert h * q == net.rf + q;
    var x := h - 1.0 - g;
    assert x * q == 0.0;
    assert x == (x * q) / q;
    assert h == 1.0 + g;
    assert v * (net.rf + net.rg + rp) / q == h * v;
  }

  /** The output waveform `Vout`, computed sample by sample from `Vin`. */
  function Output(vin: seq<real>, net: Resistors, vref: real): (vout: seq<real>)
    requires net.Defined()
    ensures |vout| == |vin|
    ensures forall k :: 0 <= k < |vin| ==> vout[k] == net.Gain() * vin[k] + net.Offset(vref)
  {
    var vout := seq(|vin|, k requires 0 <= k < |vin| => OutputSample(vin[k], net, vref));
    assert forall k :: 0 <= k < |vin| ==> vout[k] == net.Gain() * vin[k] + net.Offset(vref) by {
      forall k | 0 <= k < |vin| ensures vout[k] == net.Gain() * vin[k] + net.Offset(vref) {
        OutputSampleIsAffine(vin[k], net, vref);
      }
    }
    vout
  }

  /**
   * With positive resistors every division is defined, the stage amplifies (gain
   * above 1) and, for a positive reference, the offset is negative.
   */
  lemma PositiveNetwork(net: Resistors, vref: real)
    requires net.r1 > 0.0 && net.rf > 0.0 && net.r2 > 0.0 && net.rg > 0.0
    ensures net.Defined()
    ensures net.Gain() > 1.0
    ensures vref > 0.0 ==> net.Offset(vref) < 0.0
  {
    assert net.r1 * net.r2 > 0.0;
    var rp := net.Rp();
    assert rp > 0.0;
    var q := net.rg + rp;
    assert net.rf / q > 0.0;
    if vref > 0.0 {
      assert vref * (net.r2 * net.rf) > 0.0;
      assert (net.r1 + net.r2) * q > 0.0;
    }
  }

  /** A square is never negative. */
  lemma SquareNonNegative(e: real)
    ensures e * e >= 0.0
  {
    if e < 0.0 {
      var f := -e;
      assert f * f > 0.0;
      assert e * e == f * f;
    }
  }

  /** The squared error of one sample. */
  function Square(e: real): (r: real)
    ensures r >= 0.0
    ensures e == 0.0 ==> r == 0.0
  {
    SquareNonNegative(e);
    e * e
  }

  /** A non-zero error has a positive square. */
  lemma SquarePositive(e: real)
    requires e != 0.0
    ensures Square(e) > 0.0
  {
    DivideBack(e, e);
    assert Square(e) / e == e;
  }

  /** Multiplying by a non-zero q and dividing by it again gives x back. */
  lemma DivideBack(x: real, q: real)
    requires q != 0.0
    ensures (x * q) / q == x
  {
  }

  /**
   * The cost of a candidate: the sum over all samples of the squared difference
   * between the realised and the desired output. It is never negative and it
   * vanishes when the two waveforms coincide (CostZero gives the converse).
   */
  function Cost(a: seq<real>, b: seq<real>): (c: real)
    requires |a| == |b|
    ensures c >= 0.0
    ensures a == b ==> c == 0.0
  {
    if |a| == 0 then 0.0 else Square(a[0] - b[0]) + Cost(a[1..], b[1..])
  }

  /** Two different waveforms of the same length have a positive cost. */
  lemma {:induction false} CostPositive(a: seq<real>, b: seq<real>)
    requires |a| == |b| && a != b
    ensures Cost(a, b) > 0.0
  {
    if a[0] != b[0] {
      SquarePositive(a[0] - b[0]);
    } else {
      assert a[1..] != b[1..] by {
        assert a == [a[0]] + a[1..];
        assert b == [b[0]] + b[1..];
      }
      CostPositive(a[1..], b[1..]);
    }
  }

  /** The cost is zero exactly when the realised output is the desired waveform. */
  lemma CostZero(a: seq<real>, b: seq<real>)
    requires |a| == |b|
    ensures Cost(a, b) == 0.0 <==> a == b
  {
    if a != b {
      CostPositive(a, b);
    }
  }
}
