/**
 Model of the frame geometry in scripts/indicator-acceptance-probe.py:
 `FrameContract.thickness_px`/`bands`, `_scale_dip`, and the two opacity checks
 on the observed bands. Python's `//` floors; with a positive divisor that is
 Dafny's `/`.
 */
module Bands {
  import opened Common

  datatype FrameBand = FrameBand(index: nat, outer: int, inner: int, alpha: int)

  datatype FrameContract = FrameContract(thicknessDip: int, gradientSteps: nat, alphaMax: int) {
    function ThicknessPx(dpi: int): int {
      ScaleDip(thicknessDip, dpi)
    }

    function Bands(dpi: int): seq<FrameBand> {
      var thickness := ThicknessPx(dpi);
      seq(gradientSteps, (i: int) requires 0 <= i < gradientSteps =>
        FrameBand(i, Inset(thickness, gradientSteps, i), Inset(thickness, gradientSteps, i + 1),
                  Quadratic(alphaMax, gradientSteps, i)))
    }
  }

  /** The i-th of `steps + 1` cuts through a frame of the given thickness. */
  function Inset(thickness: int, steps: nat, i: int): int
    requires steps > 0
  {
    thickness * i / steps
  }

  function ScaleDip(value: int, dpi: int): int {
    (value * dpi + 48) / 96
  }

  function Quadratic(alpha: int, steps: nat, i: int): int
    requires 0 <= i < steps
  {
    alpha * (steps - i) * (steps - i) / (steps * steps)
  }

  // ---------- arithmetic ----------

  /** Floor division by a positive number, characterised without division. */
  lemma FloorIs(a: int, d: int, q: int)
    requires d > 0
    ensures q == a / d <==> q * d <= a < q * d + d
  {
    var f := a / d;
    assert f * d <= a < f * d + d;
    if q * d <= a < q * d + d {
      if q < f { MulMono(q + 1, f, d); }
      if q > f { MulMono(f + 1, q, d); }
    }
  }

  lemma MulMono(a: int, b: int, c: int)
    requires a <= b && 0 <= c
    ensures a * c <= b * c
  {}

  lemma FloorMono(a: int, b: int, d: int)
    requires d > 0 && a <= b
    ensures a / d <= b / d
  {
    FloorIs(a, d, a / d);
    FloorIs(b, d, b / d);
    if a / d > b / d { MulMono(b / d + 1, a / d, d); }
  }

  // ---------- scaling and partition ----------

  /** DIP scaling is rounding to the nearest pixel, halves upwards, and nothing else is. */
  lemma ScaleDipRoundsHalfUp(value: int, dpi: int, px: int)
    ensures px == ScaleDip(value, dpi) <==> -48 < 96 * px - value * dpi <= 48
  {
    FloorIs(value * dpi + 48, 96, px);
  }

  /** The bands tile the frame from 0 to its thickness without gap or overlap. */
  lemma BandsTile(contract: FrameContract, dpi: int)
    requires contract.gradientSteps > 0
    ensures var bands := contract.Bands(dpi);
      && |bands| == contract.gradientSteps
      && bands[0].outer == 0
      && bands[|bands| - 1].inner == contract.ThicknessPx(dpi)
      && forall i :: 0 < i < |bands| ==> bands[i - 1].inner == bands[i].outer
  {
    var n, t := contract.gradientSteps, contract.ThicknessPx(dpi);
    FloorIs(t * 0, n, 0);
    FloorIs(t * n, n, t);
  }

  /** Every band has the floor or the ceiling of the mean width. */
  lemma BandWidths(contract: FrameContract, dpi: int, i: nat)
    requires i < contract.gradientSteps
    ensures var band, mean := contract.Bands(dpi)[i], contract.ThicknessPx(dpi) / contract.gradientSteps;
      mean <= band.inner - band.outer <= mean + 1
  {
    var n, t := contract.gradientSteps, contract.ThicknessPx(dpi);
    assert t * (i + 1) == t * i + t;
    FloorOfSum(t * i, t, n);
  }

  /** The floors of two quotients add up to the floor of their sum, or to one less. */
  lemma FloorOfSum(x: int, y: int, d: int)
    requires d > 0
    ensures y / d <= (x + y) / d - x / d <= y / d + 1
  {
    var a, q, b := x / d, y / d, (x + y) / d;
    FloorIs(x, d, a);
    FloorIs(y, d, q);
    FloorIs(x + y, d, b);
    assert (a + q) * d == a * d + q * d && (b + 1) * d == b * d + d && (a + q + 2) * d == a * d + q * d + 2 * d;
    Cancel(a + q, b + 1, d);
    Cancel(b, a + q + 2, d);
  }

  /** Multiples of a positive number are ordered like their factors. */
  lemma Cancel(a: int, b: int, d: int)
    requires d > 0
    ensures a * d < b * d <==> a < b
  {
    if a < b { MulMono(a + 1, b, d); } else { MulMono(b, a, d); }
  }

  /**
     The opacities of the contract: the full one outside, never growing inwards, and each
     the rounded-down share that falls with the square of the distance from inside.
   */
  lemma BandAlphas(contract: FrameContract, dpi: int, i: nat)
    requires contract.alphaMax >= 0 && i < contract.gradientSteps
    ensures var bands, n := contract.Bands(dpi), contract.gradientSteps;
      && bands[i].index == i && bands[0].alpha == contract.alphaMax
      && 0 <= bands[i].alpha <= contract.alphaMax
      && (i > 0 ==> bands[i].alpha <= bands[i - 1].alpha)
      && bands[i].alpha * (n * n) <= contract.alphaMax * (n - i) * (n - i) < (bands[i].alpha + 1) * (n * n)
  {
    var n, alpha := contract.gradientSteps, contract.alphaMax;
    var d := n * n;
    assert d > 0 by { MulMono(1, n, n); }
    assert alpha * (n - 0) * (n - 0) == alpha * d;
    FloorIs(alpha * d, d, alpha);
    var x := alpha * (n - i) * (n - i);
    FloorIs(x, d, x / d);
    assert (x / d + 1) * d == x / d * d + d;
    AlphasFall(alpha, n, i);
  }

  lemma {:induction false} AlphasFall(alpha: nat, steps: nat, i: nat)
    requires i < steps
    ensures 0 <= Quadratic(alpha, steps, i) <= Quadratic(alpha, steps, 0)
    ensures i > 0 ==> Quadratic(alpha, steps, i) <= Quadratic(alpha, steps, i - 1)
  {
    if i > 0 {
      AlphasFall(alpha, steps, i - 1);
      QuadraticFalls(alpha, steps, i);
    }
    var r := steps - i;
    assert alpha * r >= 0 by { MulMono(0, alpha, r); }
    assert alpha * r * r >= 0 by { MulMono(0, alpha * r, r); }
    assert steps * steps > 0 by { MulMono(1, steps, steps); }
    FloorIs(alpha * r * r, steps * steps, Quadratic(alpha, steps, i));
    if Quadratic(alpha, steps, i) < 0 { MulMono(Quadratic(alpha, steps, i) + 1, 0, steps * steps); }
  }

  /** They are the profile that observed opacities are held against. */
  lemma BandsFollowProfile(contract: FrameContract, dpi: int)
    requires contract.alphaMax >= 0 && contract.gradientSteps > 0
    ensures var observed := seq(contract.gradientSteps, (i: int) requires 0 <= i < contract.gradientSteps => Some(contract.Bands(dpi)[i].alpha));
      observed == ExpectedAlphas(observed, contract.gradientSteps) && AlphaMonotonic(observed)
  {
    BandAlphas(contract, dpi, 0);
    var observed := seq(contract.gradientSteps, (i: int) requires 0 <= i < contract.gradientSteps => Some(contract.Bands(dpi)[i].alpha));
    forall i | 0 <= i < contract.gradientSteps ensures observed[i] == ExpectedAlphas(observed, contract.gradientSteps)[i] {}
    ProfileDecidesMonotonicity(observed, contract.gradientSteps);
  }

  lemma InsetMono(thickness: nat, steps: nat, i: int, j: int)
    requires steps > 0 && i <= j
    ensures Inset(thickness, steps, i) <= Inset(thickness, steps, j)
  {
    MulMono(i, j, thickness);
    FloorMono(thickness * i, thickness * j, steps);
  }

  /** Every pixel of the frame lies in exactly one band. */
  lemma PixelInExactlyOneBand(contract: FrameContract, dpi: int, pixel: nat)
    requires contract.gradientSteps > 0 && pixel < contract.ThicknessPx(dpi)
    ensures exists i: nat :: i < contract.gradientSteps && InBand(contract, dpi, i, pixel)
    ensures forall i: nat, j: nat :: i < j < contract.gradientSteps ==>
      !(InBand(contract, dpi, i, pixel) && InBand(contract, dpi, j, pixel))
  {
    var n, t := contract.gradientSteps, contract.ThicknessPx(dpi);
    BandsTile(contract, dpi);
    var k := CutBelow(t, n, pixel, n);
    assert InBand(contract, dpi, k, pixel);
    forall i: nat, j: nat | i < j < n
      ensures !(InBand(contract, dpi, i, pixel) && InBand(contract, dpi, j, pixel))
    {
      InsetMono(t, n, i + 1, j);
    }
  }

  /** Between the first cut and cut `top` there are neighbouring cuts around the pixel. */
  lemma {:induction false} CutBelow(thickness: int, steps: nat, pixel: nat, top: nat) returns (k: nat)
    requires steps > 0 && pixel < Inset(thickness, steps, top)
    ensures k < top && Inset(thickness, steps, k) <= pixel < Inset(thickness, steps, k + 1)
  {
    FloorIs(thickness * 0, steps, 0);
    k := top - 1;
    if pixel < Inset(thickness, steps, k) { k := CutBelow(thickness, steps, pixel, k); }
  }

  predicate InBand(contract: FrameContract, dpi: int, i: nat, pixel: int)
    requires i < contract.gradientSteps
  {
    contract.Bands(dpi)[i].outer <= pixel < contract.Bands(dpi)[i].inner
  }

  // ---------- the two opacity checks ----------

  /** `alpha_monotonic`: there are bands, all opacities are integers, none grows inwards. */
  predicate AlphaMonotonic(observed: seq<Option<int>>) {
    && observed != []
    && (forall i :: 0 <= i < |observed| ==> observed[i].Some?)
    && (forall i :: 0 < i < |observed| ==> observed[i - 1].value >= observed[i].value)
  }

  /** `expected_alphas`: the quadratic profile below the observed outer opacity. */
  function ExpectedAlphas(observed: seq<Option<int>>, steps: nat): seq<Option<int>> {
    if observed == [] || observed[0].None? then []
    else seq(steps, (i: int) requires 0 <= i < steps => Some(Quadratic(observed[0].value, steps, i)))
  }

  /**
     When the observed opacities match the quadratic profile, the separate
     monotonicity check fails exactly for an empty family of bands and for an
     outer opacity below -1 spread over two or more bands.
   */
  lemma ProfileDecidesMonotonicity(observed: seq<Option<int>>, steps: nat)
    requires observed == ExpectedAlphas(observed, steps)
    ensures AlphaMonotonic(observed) <==> observed != [] && (steps <= 1 || observed[0].value >= -1)
  {
    if observed != [] {
      var outer := observed[0].value;
      if outer >= -1 {
        forall i | 0 < i < steps ensures Quadratic(outer, steps, i - 1) >= Quadratic(outer, steps, i) {
          QuadraticFalls(outer, steps, i);
        }
      } else if steps > 1 {
        QuadraticRises(outer, steps);
        MonotoneEnds(observed, steps - 1);
      }
    }
  }

  /** Two failing cases: an outer opacity of -4 over two bands grows inwards, and no bands at all match the profile. */
  lemma ProfileMayRise()
    ensures ExpectedAlphas([Some(-4), Some(-1)], 2) == [Some(-4), Some(-1)] && !AlphaMonotonic([Some(-4), Some(-1)])
    ensures ExpectedAlphas([], 2) == [] && !AlphaMonotonic([])
  {
    assert Quadratic(-4, 2, 0) == -4 && Quadratic(-4, 2, 1) == -1;
    var observed: seq<Option<int>> := [Some(-4), Some(-1)];
    assert !(observed[1 - 1].value >= observed[1].value);
  }

  lemma Squares(steps: nat, i: int)
    requires 0 < i < steps
    ensures 0 < (steps - i) * (steps - i) <= (steps - i + 1) * (steps - i + 1) <= steps * steps
  {
    var r := steps - i;
    assert (r + 1) * (r + 1) == r * r + 2 * r + 1;
    MulMono(r + 1, steps, r + 1);
    MulMono(r + 1, steps, steps);
  }

  lemma QuadraticFalls(outer: int, steps: nat, i: int)
    requires 0 < i < steps && outer >= -1
    ensures Quadratic(outer, steps, i - 1) >= Quadratic(outer, steps, i)
  {
    Squares(steps, i);
    var d, near, far := steps * steps, (steps - i + 1) * (steps - i + 1), (steps - i) * (steps - i);
    assert outer * (steps - i + 1) * (steps - i + 1) == outer * near;
    assert outer * (steps - i) * (steps - i) == outer * far;
    if outer >= 0 {
      MulMono(far, near, outer);
      FloorMono(outer * far, outer * near, d);
    } else {
      FloorIs(-near, d, -1);
      FloorIs(-far, d, -1);
    }
  }

  /** A strongly negative outer opacity is smaller than the innermost one. */
  lemma QuadraticRises(outer: int, steps: nat)
    requires steps > 1 && outer < -1
    ensures Quadratic(outer, steps, steps - 1) > Quadratic(outer, steps, 0)
  {
    var d := steps * steps;
    MulMono(2, steps, 2);
    MulMono(2, steps, steps);
    assert d >= 4;
    assert outer * (steps - 0) * (steps - 0) == outer * d;
    FloorIs(outer * d, d, outer);
    var q := outer / d;
    FloorIs(outer, d, q);
    assert (q + 1) * d == q * d + d;
    MulMono(4, d, -(outer + 1));
    assert (outer + 1) * d < outer;
    if q <= outer { MulMono(q + 1, outer + 1, d); }
  }

  lemma {:induction false} MonotoneEnds(observed: seq<Option<int>>, k: nat)
    requires k < |observed|
    ensures AlphaMonotonic(observed) ==> observed[0].value >= observed[k].value
  {
    if k > 0 { MonotoneEnds(observed, k - 1); }
  }
}
