/** The simple Kalman filter of `filters/kalman.c`, over exact reals. */
module Kalman {

  datatype Ks = Ks(errM: real, errE: real, pNoise: real, lEst: real, kGain: real)

  function Abs(x: real): real {
    if x < 0.0 then -x else x
  }

  function Start(mError: real, eError: real, pn: real): Ks {
    Ks(mError, eError, pn, 0.0, 0.0)
  }

  /** The Kalman gain. */
  function Gain(k: Ks): real
    requires k.errE + k.errM != 0.0
  {
    k.errE / (k.errE + k.errM)
  }

  function Estimate(est: real, gain: real, z: real): real {
    est + gain * (z - est)
  }

  /** The new error: what the gain leaves of the old one, plus noise in proportion to how far the estimate moved. */
  function NewError(err: real, gain: real, moved: real, pn: real): real {
    (1.0 - gain) * err + moved * pn
  }

  /** The filter after one measurement. */
  function Update(k: Ks, z: real): Ks
    requires k.errE + k.errM != 0.0
  {
    var est := Estimate(k.lEst, Gain(k), z);
    Ks(k.errM, NewError(k.errE, Gain(k), Abs(k.lEst - est), k.pNoise), k.pNoise, est, Gain(k))
  }

  /** A filter that can take any number of measurements. */
  predicate Sound(k: Ks) {
    k.errM > 0.0 && k.errE >= 0.0 && k.pNoise >= 0.0
  }

  class KsFilter {
    var errM: real
    var errE: real
    var pNoise: real
    var lEst: real
    var kGain: real

    function View(): Ks
      reads this
    {
      Ks(errM, errE, pNoise, lEst, kGain)
    }

    /** `ksf_init`. */
    constructor (mError: real, eError: real, pn: real)
      ensures View() == Start(mError, eError, pn)
    {
      errM, errE, pNoise := mError, eError, pn;
      lEst, kGain := 0.0, 0.0;
    }

    /** `ksf_update_est`. */
    method UpdateEst(m: real) returns (est: real)
      requires errE + errM != 0.0
      modifies this
      ensures View() == Update(old(View()), m) && est == lEst
      ensures errM == old(errM) && pNoise == old(pNoise) && kGain * (old(errE) + errM) == old(errE)
      ensures (lEst - old(lEst)) * (old(errE) + errM) == old(errE) * (m - old(lEst))
      ensures (errE - pNoise * Abs(lEst - old(lEst))) * (old(errE) + errM) == old(errE) * errM
    {
      UpdateLaws(View(), m);
      hide Gain, Estimate, NewError;
      kGain := errE / (errE + errM);
      est := lEst + kGain * (m - lEst);
      errE := (1.0 - kGain) * errE + Abs(lEst - est) * pNoise;
      lEst := est;
    }

    /** A whole series of measurements, one after the other, and the estimates returned. */
    method UpdateAll(zs: seq<real>) returns (estimates: seq<real>)
      requires Sound(View())
      modifies this
      ensures View() == Run(old(View()), zs)
      ensures |estimates| == |zs|
      ensures forall i :: 0 <= i < |zs| ==> estimates[i] == Run(old(View()), zs[..i + 1]).lEst
    {
      hide Update, Run;
      estimates := [];
      RunNothing(View(), zs[..0]);
      for i := 0 to |zs|
        invariant View() == Run(old(View()), zs[..i])
        invariant |estimates| == i
        invariant forall j :: 0 <= j < i ==> estimates[j] == Run(old(View()), zs[..j + 1]).lEst
      {
        assert zs[..i + 1][..i] == zs[..i];
        RunMore(old(View()), zs[..i + 1]);
        var est := UpdateEst(zs[i]);
        estimates := estimates + [est];
      }
      assert zs[..|zs|] == zs;
    }
  }

  // ---------------------------------------------------------------- one update in product form

  /** How far an update moves the estimate, and what error it leaves: the noise in proportion to the move on top. */
  lemma UpdateLaws(k: Ks, z: real)
    requires k.errE + k.errM != 0.0
    ensures
      var k' := Update(k, z);
      var s := k.errE + k.errM;
      && k'.kGain * s == k.errE
      && (k'.lEst - k.lEst) * s == k.errE * (z - k.lEst)
      && (k'.errE - k.pNoise * Abs(k'.lEst - k.lEst)) * s == k.errE * k.errM
  {
    var g, s := Gain(k), k.errE + k.errM;
    var move := g * (z - k.lEst);
    assert g * s == k.errE;
    hide Gain;
    assert move * s == (g * s) * (z - k.lEst);
    assert (1.0 - g) * s == k.errM;
    assert ((1.0 - g) * k.errE) * s == ((1.0 - g) * s) * k.errE;
    assert Abs(move) == Abs(k.lEst - (k.lEst + move));
    assert k.pNoise * Abs(move) == Abs(move) * k.pNoise;
  }

  // ---------------------------------------------------------------- bounds over any run

  /** A weighted mean stays between the bounds of its parts. */
  lemma Between(g: real, x: real, y: real, lo: real, hi: real)
    requires 0.0 <= g <= 1.0 && lo <= x <= hi && lo <= y <= hi
    ensures lo <= x + g * (y - x) <= hi
    ensures lo <= (1.0 - g) * x + g * y <= hi
  {
    NonNegative(g, y - lo);
    NonNegative(1.0 - g, x - lo);
    NonNegative(g, hi - y);
    NonNegative(1.0 - g, hi - x);
    var mean := (1.0 - g) * x + g * y;
    assert g * (y - lo) + (1.0 - g) * (x - lo) == mean - lo;
    assert g * (hi - y) + (1.0 - g) * (hi - x) == hi - mean;
    assert x + g * (y - x) == mean;
  }

  lemma NonNegative(x: real, y: real)
    requires x >= 0.0 && y >= 0.0
    ensures x * y >= 0.0
  {}

  lemma ProductOrder(x: real, y: real, c: real)
    requires 0.0 <= x <= y && c >= 0.0
    ensures 0.0 <= x * c <= y * c
  {
    NonNegative(x, c);
    NonNegative(y - x, c);
    assert (y - x) * c == y * c - x * c;
  }

  lemma GainRange(k: Ks)
    requires Sound(k)
    ensures 0.0 <= Gain(k) < 1.0
    ensures Gain(k) * (k.errE + k.errM) == k.errE
  {
    var g, s := Gain(k), k.errE + k.errM;
    Divided(g, k.errE, s);
    SignOfProduct(g, s);
    SignOfProduct(1.0 - g, s);
    assert (1.0 - g) * s == k.errM;
  }

  lemma SignOfProduct(x: real, s: real)
    requires s > 0.0
    ensures x * s >= 0.0 <==> x >= 0.0
    ensures x * s > 0.0 <==> x > 0.0
  {
    if x > 0.0 { assert x * s > 0.0; }
    if x < 0.0 { assert x * s < 0.0; }
  }

  lemma Divided(x: real, y: real, d: real)
    requires d > 0.0
    ensures x == y / d <==> x * d == y
  {
    assert y / d * d == y;
    if x * d == y {
      SignOfProduct(x - y / d, d);
      SignOfProduct(y / d - x, d);
    }
  }

  function Larger(x: real, y: real): real {
    if x >= y then x else y
  }

  /** The estimate moves by the gain times its distance from the measurement. */
  lemma Move(est: real, g: real, z: real)
    requires 0.0 <= g
    ensures Abs(est - Estimate(est, g, z)) == g * Abs(z - est)
  {}

  lemma ErrorMean(g: real, e: real, d: real, w: real, pn: real)
    requires 0.0 <= g < 1.0 && e >= 0.0 && 0.0 <= d <= w && pn >= 0.0
    ensures 0.0 <= NewError(e, g, g * d, pn) <= Larger(e, w * pn)
  {
    var x := d * pn;
    ProductOrder(d, w, pn);
    assert (g * d) * pn == g * x;
    Between(g, e, x, 0.0, Larger(e, w * pn));
  }

  lemma ErrorStep(g: real, e: real, est: real, z: real, pn: real, a: real, b: real)
    requires 0.0 <= g < 1.0 && e >= 0.0 && pn >= 0.0 && a <= est <= b && a <= z <= b
    ensures 0.0 <= NewError(e, g, Abs(est - Estimate(est, g, z)), pn) <= Larger(e, (b - a) * pn)
  {
    Move(est, g, z);
    hide NewError, Estimate;
    ErrorMean(g, e, Abs(z - est), b - a, pn);
  }

  /** One step: gain in [0, 1), estimate inside the measuring range, error never above the larger of its two sources. */
  lemma StepBounded(k: Ks, z: real, a: real, b: real)
    requires Sound(k) && a <= z <= b && a <= k.lEst <= b
    ensures
      var k' := Update(k, z);
      && Sound(k') && 0.0 <= k'.kGain < 1.0 && a <= k'.lEst <= b
      && k'.errM == k.errM && k'.pNoise == k.pNoise
      && k'.errE <= Larger(k.errE, (b - a) * k.pNoise)
  {
    GainRange(k);
    Between(Gain(k), k.lEst, z, a, b);
    assert a <= Estimate(k.lEst, Gain(k), z) <= b;
    hide Gain, Abs, Larger, Estimate, NewError;
    ErrorStep(Gain(k), k.errE, k.lEst, z, k.pNoise, a, b);
  }

  predicate Within(zs: seq<real>, a: real, b: real) {
    forall i :: 0 <= i < |zs| ==> a <= zs[i] <= b
  }

  /** The filter after a whole series of measurements. */
  function Run(k: Ks, zs: seq<real>): (r: Ks)
    requires Sound(k)
    ensures Sound(r) && r.errM == k.errM && r.pNoise == k.pNoise
  {
    if zs == [] then k
    else
      var before := Run(k, zs[..|zs| - 1]);
      var z := zs[|zs| - 1];
      StepBounded(before, z, if z < before.lEst then z else before.lEst, if z < before.lEst then before.lEst else z);
      Update(before, z)
  }

  /**
   * Over every run from `ksf_init` with measurements in a range that contains the initial estimate 0, the estimate
   * never leaves the range and the error never exceeds its initial value or the range times the noise factor.
   */
  lemma {:induction false} RunBounded(m: real, e0: real, pn: real, zs: seq<real>, a: real, b: real)
    requires m > 0.0 && e0 >= 0.0 && pn >= 0.0
    requires a <= 0.0 <= b && Within(zs, a, b)
    ensures
      var k := Run(Start(m, e0, pn), zs);
      && 0.0 <= k.kGain < 1.0
      && a <= k.lEst <= b
      && 0.0 <= k.errE <= Larger(e0, (b - a) * pn)
    decreases |zs|
  {
    hide Update, Larger, Run;
    if zs == [] {
      RunNothing(Start(m, e0, pn), zs);
      LargerMeans(e0, (b - a) * pn);
    } else {
      var n := |zs| - 1;
      var before := Run(Start(m, e0, pn), zs[..n]);
      RunBounded(m, e0, pn, zs[..n], a, b);
      RunMore(Start(m, e0, pn), zs);
      StepBounded(before, zs[n], a, b);
      assert (b - a) * before.pNoise == (b - a) * pn;
      assert Run(Start(m, e0, pn), zs).errE <= Larger(before.errE, (b - a) * pn);
      LargerTwice(e0, before.errE, (b - a) * pn);
    }
  }

  lemma RunNothing(k: Ks, zs: seq<real>)
    requires Sound(k) && zs == []
    ensures Run(k, zs) == k
  {}

  lemma RunMore(k: Ks, zs: seq<real>)
    requires Sound(k) && zs != []
    ensures Run(k, zs) == Update(Run(k, zs[..|zs| - 1]), zs[|zs| - 1])
  {
    hide Update;
  }

  lemma LargerMeans(x: real, w: real)
    ensures x <= Larger(x, w) && w <= Larger(x, w)
  {}

  lemma LargerTwice(x: real, y: real, w: real)
    requires y <= Larger(x, w)
    ensures Larger(y, w) <= Larger(x, w)
  {}

  // ---------------------------------------------------------------- the noiseless filter is the batch estimate

  function Sum(zs: seq<real>): real {
    if zs == [] then 0.0 else Sum(zs[..|zs| - 1]) + zs[|zs| - 1]
  }

  /** One noiseless step in product form: `d` is the denominator m + n * e0 before the step. */
  lemma NoiselessGain(k: Ks, e0: real, d: real)
    requires Sound(k) && e0 >= 0.0 && d > 0.0 && k.errE * d == e0 * k.errM
    ensures Gain(k) * (d + e0) == e0
  {
    var g, s := Gain(k), k.errE + k.errM;
    GainRange(k);
    hide Gain;
    assert k.errE * (d + e0) == k.errE * d + k.errE * e0 == e0 * s;
    assert (g * (d + e0)) * s == (g * s) * (d + e0);
    var x := g * (d + e0) - e0;
    assert x * s == 0.0;
    SignOfProduct(x, s);
    SignOfProduct(-x, s);
  }

  lemma BatchStep(k: Ks, z: real, e0: real, d: real, sum: real)
    requires Sound(k) && k.pNoise == 0.0 && e0 >= 0.0 && d > 0.0
    requires k.errE * d == e0 * k.errM && k.lEst * d == e0 * sum
    ensures
      var k' := Update(k, z);
      k'.errE * (d + e0) == e0 * k.errM && k'.lEst * (d + e0) == e0 * (sum + z)
  {
    NoiselessGain(k, e0, d);
    NoiselessUpdate(k, z);
    hide Update, Gain;
    var g := Gain(k);
    Weighted(k.errE, 0.0, g, d, e0);
    Weighted(k.lEst, z, g, d, e0);
  }

  lemma NoiselessUpdate(k: Ks, z: real)
    requires Sound(k) && k.pNoise == 0.0
    ensures Update(k, z).errE == (1.0 - Gain(k)) * k.errE + Gain(k) * 0.0
    ensures Update(k, z).lEst == (1.0 - Gain(k)) * k.lEst + Gain(k) * z
  {
    hide Gain, Abs;
  }

  lemma Weighted(x: real, y: real, g: real, d: real, e0: real)
    requires g * (d + e0) == e0
    ensures ((1.0 - g) * x + g * y) * (d + e0) == x * d + e0 * y
  {
    var w := d + e0;
    assert (1.0 - g) * w == d;
    assert ((1.0 - g) * x + g * y) * w == ((1.0 - g) * w) * x + (g * w) * y;
  }

  /** m + n * e0, one measurement at a time. */
  function Denominator(m: real, e0: real, n: nat): real {
    if n == 0 then m else Denominator(m, e0, n - 1) + e0
  }

  lemma {:induction false} DenominatorIs(m: real, e0: real, n: nat)
    requires m > 0.0 && e0 >= 0.0
    ensures Denominator(m, e0, n) == m + n as real * e0 && Denominator(m, e0, n) > 0.0
  {
    if n > 0 {
      DenominatorIs(m, e0, n - 1);
      var r := (n - 1) as real;
      assert n as real == r + 1.0;
      assert (r + 1.0) * e0 == r * e0 + e0;
    }
  }

  lemma {:induction false} NoiselessProducts(m: real, e0: real, zs: seq<real>)
    requires m > 0.0 && e0 >= 0.0
    ensures
      var k := Run(Start(m, e0, 0.0), zs);
      var d := Denominator(m, e0, |zs|);
      k.lEst * d == e0 * Sum(zs) && k.errE * d == e0 * m
    decreases |zs|
  {
    hide Update, Run;
    if zs == [] {
      RunNothing(Start(m, e0, 0.0), zs);
    } else {
      var n := |zs| - 1;
      RunMore(Start(m, e0, 0.0), zs);
      NoiselessProducts(m, e0, zs[..n]);
      DenominatorIs(m, e0, n);
      BatchStep(Run(Start(m, e0, 0.0), zs[..n]), zs[n], e0, Denominator(m, e0, n), Sum(zs[..n]));
    }
  }

  /**
   * Without process noise the filter is the batch estimate: after n measurements the estimate is
   * e0 * sum / (m + n * e0) and the error e0 * m / (m + n * e0).
   */
  lemma NoiselessIsBatch(m: real, e0: real, zs: seq<real>)
    requires m > 0.0 && e0 >= 0.0
    ensures
      var k := Run(Start(m, e0, 0.0), zs);
      var d := m + |zs| as real * e0;
      d > 0.0 && k.lEst == e0 * Sum(zs) / d && k.errE == e0 * m / d
  {
    hide Update, Run, Sum, Denominator;
    var k := Run(Start(m, e0, 0.0), zs);
    NoiselessProducts(m, e0, zs);
    DenominatorIs(m, e0, |zs|);
    var d, x, y := Denominator(m, e0, |zs|), e0 * Sum(zs), e0 * m;
    BatchOfProducts(k, x, y, d);
    assert d == m + |zs| as real * e0;
  }

  lemma BatchOfProducts(k: Ks, x: real, y: real, d: real)
    requires d > 0.0 && k.lEst * d == x && k.errE * d == y
    ensures k.lEst == x / d && k.errE == y / d
  {
    Divided(k.lEst, x, d);
    Divided(k.errE, y, d);
  }

  // ---------------------------------------------------------------- what noise does to the error

  predicate AllZero(zs: seq<real>) {
    forall i :: 0 <= i < |zs| ==> zs[i] == 0.0
  }

  lemma Cancel(x: real, y: real, s: real)
    requires s > 0.0
    ensures x * s >= y * s <==> x >= y
    ensures x * s > y * s <==> x > y
  {
    SignOfProduct(x - y, s);
    assert (x - y) * s == x * s - y * s;
  }

  /** The part of the new error that is not noise stays above the batch error if the old error was. */
  lemma ErrorAboveBatch(e: real, x: real, m: real, e0: real, d: real)
    requires m > 0.0 && e >= 0.0 && e0 >= 0.0 && x * (e + m) == e * m && e * d >= e0 * m
    ensures x * (d + e0) >= e0 * m
    ensures e * d > e0 * m ==> x * (d + e0) > e0 * m
    ensures e * d == e0 * m ==> x * (d + e0) == e0 * m
  {
    var s, w := e + m, d + e0;
    assert (x * w) * s == (x * s) * w == (e * m) * w;
    assert (e * m) * w == (e * d) * m + (e * e0) * m;
    assert (e0 * m) * s == (e0 * m) * m + (e * e0) * m;
    Cancel(e * d, e0 * m, m);
    Cancel(e0 * m, e * d, m);
    Cancel(x * w, e0 * m, s);
    Cancel(e0 * m, x * w, s);
  }

  /** An update moves the estimate exactly when there is some error and the measurement is not the estimate. */
  lemma MovesIff(k: Ks, z: real)
    requires Sound(k)
    ensures Update(k, z).lEst == k.lEst <==> k.errE == 0.0 || z == k.lEst
  {
    UpdateLaws(k, z);
    hide Update;
    var move, s, x, y := Update(k, z).lEst - k.lEst, k.errE + k.errM, k.errE, z - k.lEst;
    assert move * s == x * y;
    SignOfProduct(move, s);
    SignOfProduct(-move, s);
    if x > 0.0 {
      SignOfProduct(y, x);
      SignOfProduct(-y, x);
    }
  }

  lemma NoiseStep(k: Ks, z: real, e0: real, d: real)
    requires Sound(k) && e0 >= 0.0 && d > 0.0 && k.errE * d >= e0 * k.errM
    ensures
      var k' := Update(k, z);
      var raised := k.pNoise > 0.0 && k'.lEst != k.lEst;
      && k'.errE * (d + e0) >= e0 * k.errM
      && (k.errE * d > e0 * k.errM || raised ==> k'.errE * (d + e0) > e0 * k.errM)
      && (k.errE * d == e0 * k.errM && !raised ==> k'.errE * (d + e0) == e0 * k.errM)
  {
    UpdateLaws(k, z);
    hide Update;
    var k', w := Update(k, z), d + e0;
    var noise := k.pNoise * Abs(k'.lEst - k.lEst);
    var x := k'.errE - noise;
    ErrorAboveBatch(k.errE, x, k.errM, e0, d);
    assert k'.errE * w == x * w + noise * w;
    NonNegative(k.pNoise, Abs(k'.lEst - k.lEst));
    if k.pNoise > 0.0 {
      SignOfProduct(Abs(k'.lEst - k.lEst), k.pNoise);
      assert noise == Abs(k'.lEst - k.lEst) * k.pNoise;
    } else {
      assert noise == 0.0;
    }
    SignOfProduct(noise, w);
  }

  /**
   * Over every run the error is at least that of the noiseless filter, e0 * m / (m + n * e0), and equal to it if and
   * only if there is no noise, no initial error, or every measurement was 0, the initial estimate.
   */
  lemma {:induction false} NoiseRaisesErrorIff(m: real, e0: real, pn: real, zs: seq<real>)
    requires m > 0.0 && e0 >= 0.0 && pn >= 0.0
    ensures
      var k := Run(Start(m, e0, pn), zs);
      var d := Denominator(m, e0, |zs|);
      && k.errE * d >= e0 * m
      && (k.errE * d == e0 * m <==> pn == 0.0 || e0 == 0.0 || AllZero(zs))
      && (AllZero(zs) ==> k.lEst == 0.0)
      && (e0 == 0.0 ==> k.errE == 0.0) && (e0 > 0.0 ==> k.errE > 0.0)
    decreases |zs|
  {
    hide Update, Run;
    if zs == [] {
      RunNothing(Start(m, e0, pn), zs);
    } else {
      var n := |zs| - 1;
      var before, z, d := Run(Start(m, e0, pn), zs[..n]), zs[n], Denominator(m, e0, n);
      NoiseRaisesErrorIff(m, e0, pn, zs[..n]);
      RunMore(Start(m, e0, pn), zs);
      DenominatorIs(m, e0, n);
      DenominatorIs(m, e0, n + 1);
      NoiseStep(before, z, e0, d);
      MovesIff(before, z);
      ErrorSign(Run(Start(m, e0, pn), zs), Denominator(m, e0, n + 1), e0, m);
      if e0 == 0.0 { NoErrorStays(before, z); }
      assert AllZero(zs) <==> AllZero(zs[..n]) && z == 0.0;
    }
  }

  lemma ErrorSign(k: Ks, d: real, e0: real, m: real)
    requires d > 0.0 && m > 0.0 && k.errE * d >= e0 * m
    ensures e0 > 0.0 ==> k.errE > 0.0
  {
    SignOfProduct(e0, m);
    SignOfProduct(k.errE, d);
  }

  lemma NoErrorStays(k: Ks, z: real)
    requires Sound(k) && k.errE == 0.0
    ensures Update(k, z).errE == 0.0
  {}
}
