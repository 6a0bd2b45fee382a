/**
 * The target transfer function Vout = m·Vin + b of the gain/offset stage,
 * derived from the desired input range [Vil, Vih] and output range [Vol, Voh]
 * (OpAmp.py lines 27-28), and the two sampled waveforms of lines 55 and 57.
 */
module Transfer {

  /** The affine map v ↦ m·v + b. */
  datatype Affine = Affine(m: real, b: real)
  {
    function Apply(v: real): real
    {
      m * v + b
    }
  }

  /** Gain and offset that send the input range onto the output range. */
  function Derive(voh: real, vol: real, vih: real, vil: real): (t: Affine)
    requires vih != vil
    ensures t.Apply(vil) == vol
    ensures t.Apply(vih) == voh
  {
    var m := (voh - vol) / (vih - vil);
    assert m * (vih - vil) == voh - vol;
    Affine(m, vol - m * vil)
  }

  /** The affine map through the two end points is unique: Derive is the only answer. */
  lemma DeriveUnique(voh: real, vol: real, vih: real, vil: real, t: Affine)
    requires vih != vil
    requires t.Apply(vil) == vol && t.Apply(vih) == voh
    ensures t == Derive(voh, vol, vih, vil)
  {
    var d := Derive(voh, vol, vih, vil);
    assert t.m * (vih - vil) == voh - vol;
    assert d.m * (vih - vil) == voh - vol;
    assert (t.m - d.m) * (vih - vil) == 0.0;
    assert t.m == d.m;
  }

  /**
   * A sinusoid centred on the middle of [lo, hi] with half the range as amplitude,
   * given its sine samples `s` (the samples of sin(2·π·t)).
   */
  function Wave(s: seq<real>, hi: real, lo: real): (w: seq<real>)
    ensures |w| == |s|
  {
    seq(|s|, k requires 0 <= k < |s| => ((hi - lo) / 2.0) * s[k] + (hi + lo) / 2.0)
  }

  /** A sample of a sine (in [-1, 1]) lands inside the range between lo and hi. */
  lemma WaveWithinRange(s: seq<real>, hi: real, lo: real, k: int)
    requires 0 <= k < |s| && -1.0 <= s[k] <= 1.0
    requires lo <= hi
    ensures lo <= Wave(s, hi, lo)[k] <= hi
  {
    var a, c := (hi - lo) / 2.0, (hi + lo) / 2.0;
    NonNegativeProduct(a, s[k] + 1.0);
    NonNegativeProduct(a, 1.0 - s[k]);
    assert Wave(s, hi, lo)[k] == a * s[k] + c;
    assert a * s[k] + c - lo == a * (s[k] + 1.0);
    assert hi - (a * s[k] + c) == a * (1.0 - s[k]);
  }

  lemma NonNegativeProduct(x: real, y: real)
    requires x >= 0.0 && y >= 0.0
    ensures x * y >= 0.0
  {
  }

  /**
   * The desired output waveform is the target map applied sample by sample to the
   * input waveform, whatever the sine samples are: a perfect network has cost 0.
   */
  lemma DesiredIsTargetOfInput(s: seq<real>, voh: real, vol: real, vih: real, vil: real)
    requires vih != vil
    ensures forall k :: 0 <= k < |s| ==>
      Wave(s, voh, vol)[k] == Derive(voh, vol, vih, vil).Apply(Wave(s, vih, vil)[k])
  {
    var t := Derive(voh, vol, vih, vil);
    forall k | 0 <= k < |s|
      ensures Wave(s, voh, vol)[k] == t.Apply(Wave(s, vih, vil)[k])
    {
      var x, a, c := s[k], (vih - vil) / 2.0, (vih + vil) / 2.0;
      assert t.m * (vih - vil) == voh - vol;
      assert t.m * a == (voh - vol) / 2.0;
      assert c - vil == a;
      calc {
        t.Apply(Wave(s, vih, vil)[k]);
        t.m * (a * x + c) + (vol - t.m * vil);
        (t.m * a) * x + t.m * (c - vil) + vol;
        ((voh - vol) / 2.0) * x + (voh - vol) / 2.0 + vol;
        Wave(s, voh, vol)[k];
      }
    }
  }
}
