/** The memory-growth slope of the extension-host profile: an ordinary least-squares fit,
    over reals. */
module LeastSquares {
  import opened Options

  datatype Sample = Sample(atMs: real, value: real)

  function Sum(s: seq<Sample>, f: Sample -> real): real {
    if s == [] then 0.0 else f(s[0]) + Sum(s[1..], f)
  }

  function MeanX(s: seq<Sample>): real
    requires s != []
  {
    Sum(s, (p: Sample) => p.atMs) / (|s| as real)
  }

  function MeanY(s: seq<Sample>): real
    requires s != []
  {
    Sum(s, (p: Sample) => p.value) / (|s| as real)
  }

  /** Vertical distance of a sample from a line. */
  function Distance(slope: real, intercept: real): Sample -> real {
    (p: Sample) => p.value - (intercept + slope * p.atMs)
  }

  function Product(f: Sample -> real, g: Sample -> real): Sample -> real {
    (p: Sample) => f(p) * g(p)
  }

  function SquaredDistance(slope: real, intercept: real): Sample -> real {
    Product(Distance(slope, intercept), Distance(slope, intercept))
  }

  /** How far a line is from the samples. */
  function Residuals(s: seq<Sample>, slope: real, intercept: real): real {
    Sum(s, SquaredDistance(slope, intercept))
  }

  function OffX(mx: real): Sample -> real {
    (p: Sample) => p.atMs - mx
  }

  function OffY(my: real): Sample -> real {
    (p: Sample) => p.value - my
  }

  function Numerator(s: seq<Sample>): real
    requires s != []
  {
    Sum(s, Product(OffX(MeanX(s)), OffY(MeanY(s))))
  }

  function Denominator(s: seq<Sample>): real
    requires s != []
  {
    Sum(s, Product(OffX(MeanX(s)), OffX(MeanX(s))))
  }

  ghost predicate AllTimesEqual(s: seq<Sample>) {
    forall i, j :: 0 <= i < |s| && 0 <= j < |s| ==> s[i].atMs == s[j].atMs
  }

  /** Some line of this slope misses the samples by no more than any other line does. */
  ghost predicate IsBestSlope(s: seq<Sample>, slope: real) {
    exists intercept :: IsBestLine(s, slope, intercept)
  }

  ghost predicate IsBestLine(s: seq<Sample>, slope: real, intercept: real) {
    forall otherSlope, otherIntercept ::
      Residuals(s, slope, intercept) <= Residuals(s, otherSlope, otherIntercept)
  }

  // ----- sums -----

  /** Sums are linear in what is summed. */
  lemma {:induction false} SumCombines(s: seq<Sample>, f: Sample -> real, a: real, g: Sample -> real, b: real, h: Sample -> real)
    requires forall p :: f(p) == a * g(p) + b * h(p)
    ensures Sum(s, f) == a * Sum(s, g) + b * Sum(s, h)
  {
    if s != [] {
      SumCombines(s[1..], f, a, g, b, h);
      Distribute(a, g(s[0]), Sum(s[1..], g));
      Distribute(b, h(s[0]), Sum(s[1..], h));
    }
  }

  lemma Distribute(a: real, x: real, y: real)
    ensures a * (x + y) == a * x + a * y
  {
  }

  lemma {:induction false} SumOff(s: seq<Sample>, f: Sample -> real, g: Sample -> real, m: real)
    requires forall p :: f(p) == g(p) - m
    ensures Sum(s, f) == Sum(s, g) - (|s| as real) * m
  {
    if s != [] {
      SumOff(s[1..], f, g, m);
      assert (|s| as real) * m == (|s[1..]| as real) * m + m;
    }
  }

  lemma {:induction false} SumSnoc(s: seq<Sample>, i: nat, f: Sample -> real)
    requires i < |s|
    ensures Sum(s[..i + 1], f) == Sum(s[..i], f) + f(s[i])
  {
    if i == 0 {
      assert s[..1][1..] == [];
    } else {
      SumSnoc(s[1..], i - 1, f);
      assert s[..i + 1][1..] == s[1..][..i] && s[..i][1..] == s[1..][..i - 1];
    }
  }

  lemma {:induction false} SumOfNonNegatives(s: seq<Sample>, f: Sample -> real)
    requires forall p :: f(p) >= 0.0
    ensures Sum(s, f) >= 0.0
    ensures Sum(s, f) == 0.0 <==> forall i :: 0 <= i < |s| ==> f(s[i]) == 0.0
  {
    if s != [] {
      SumOfNonNegatives(s[1..], f);
      assert forall i :: 1 <= i < |s| ==> s[i] == s[1..][i - 1];
    }
  }

  lemma PositiveProduct(a: real, b: real, y: real)
    requires a > 0.0 && b > 0.0 && y == a * b
    ensures y > 0.0
  {
  }

  lemma NegativeProduct(a: real, b: real, y: real)
    requires a < 0.0 && b < 0.0 && y == a * b
    ensures y > 0.0
  {
    assert y == (-a) * (-b);
    PositiveProduct(-a, -b, y);
  }

  /** A square is never negative and vanishes only at zero. */
  lemma SquareSign(x: real, y: real)
    requires y == x * x
    ensures y >= 0.0
    ensures y == 0.0 <==> x == 0.0
  {
    if x > 0.0 {
      PositiveProduct(x, x, y);
    } else if x < 0.0 {
      NegativeProduct(x, x, y);
    }
  }

  lemma MeansCentre(s: seq<Sample>)
    requires s != []
    ensures Sum(s, OffX(MeanX(s))) == 0.0 && Sum(s, OffY(MeanY(s))) == 0.0
  {
    SumOff(s, OffX(MeanX(s)), (p: Sample) => p.atMs, MeanX(s));
    SumOff(s, OffY(MeanY(s)), (p: Sample) => p.value, MeanY(s));
  }

  // ----- the fit against any other line -----

  /** How far another line passes above the fitted one. */
  function Gap(slope: real, intercept: real, fit: real, base: real): Sample -> real {
    (p: Sample) => (intercept + slope * p.atMs) - (base + fit * p.atMs)
  }

  lemma DistanceShape(p: Sample, mx: real, my: real, fit: real, base: real)
    requires base == my - fit * mx
    ensures Distance(fit, base)(p) == 1.0 * OffY(my)(p) + -fit * OffX(mx)(p)
  {
    assert -fit * (p.atMs - mx) == fit * mx - fit * p.atMs;
  }

  lemma WeightedDistance(p: Sample, mx: real, my: real, fit: real, base: real)
    requires base == my - fit * mx
    ensures
      var e, dx, dy := Distance(fit, base), OffX(mx), OffY(my);
      Product(e, dx)(p) == 1.0 * Product(dx, dy)(p) + -fit * Product(dx, dx)(p)
  {
    DistanceShape(p, mx, my, fit, base);
    var x, y := OffX(mx)(p), OffY(my)(p);
    var t := -fit * x;
    assert (y + t) * x == y * x + t * x;
    assert t * x == -fit * (x * x);
  }

  /** First normal equation: the fitted line's distances sum to zero. */
  lemma DistancesCancel(s: seq<Sample>, fit: real, base: real)
    requires s != [] && base == MeanY(s) - fit * MeanX(s)
    ensures Sum(s, Distance(fit, base)) == 0.0
  {
    var mx, my := MeanX(s), MeanY(s);
    forall p
      ensures Distance(fit, base)(p) == 1.0 * OffY(my)(p) + -fit * OffX(mx)(p)
    {
      DistanceShape(p, mx, my, fit, base);
    }
    MeansCentre(s);
    SumCombines(s, Distance(fit, base), 1.0, OffY(my), -fit, OffX(mx));
  }

  lemma WeightedDistances(mx: real, my: real, fit: real, base: real)
    requires base == my - fit * mx
    ensures
      var e, dx, dy := Distance(fit, base), OffX(mx), OffY(my);
      forall p :: Product(e, dx)(p) == 1.0 * Product(dx, dy)(p) + -fit * Product(dx, dx)(p)
  {
    forall p
      ensures
        var e, dx, dy := Distance(fit, base), OffX(mx), OffY(my);
        Product(e, dx)(p) == 1.0 * Product(dx, dy)(p) + -fit * Product(dx, dx)(p)
    {
      WeightedDistance(p, mx, my, fit, base);
    }
  }

  /** Second normal equation: they cancel when weighted by time, too. */
  lemma WeightedDistancesCancel(s: seq<Sample>, fit: real, base: real)
    requires s != [] && base == MeanY(s) - fit * MeanX(s)
    requires Numerator(s) == fit * Denominator(s)
    ensures Sum(s, Product(Distance(fit, base), OffX(MeanX(s)))) == 0.0
  {
    var mx, my := MeanX(s), MeanY(s);
    var e, dx, dy := Distance(fit, base), OffX(mx), OffY(my);
    WeightedDistances(mx, my, fit, base);
    SumCombines(s, Product(e, dx), 1.0, Product(dx, dy), -fit, Product(dx, dx));
    CancelsOut(Sum(s, Product(e, dx)), Numerator(s), fit, Denominator(s));
  }

  lemma CancelsOut(sum: real, numerator: real, fit: real, denominator: real)
    requires numerator == fit * denominator && sum == 1.0 * numerator + -fit * denominator
    ensures sum == 0.0
  {
  }

  lemma SplitGap(p: Sample, mx: real, slope: real, intercept: real, fit: real, base: real, e: Sample -> real, g: real, h: real)
    requires g == slope - fit && h == intercept - base + g * mx
    ensures Product(e, Gap(slope, intercept, fit, base))(p) == h * e(p) + g * Product(e, OffX(mx))(p)
  {
    var x, d := p.atMs, p.atMs - mx;
    assert slope * x - fit * x == g * x;
    assert g * d == g * x - g * mx;
    var gap := Gap(slope, intercept, fit, base)(p);
    assert gap == h + g * d;
    SplitProduct(e(p), h, g, d);
  }

  lemma SplitGaps(mx: real, slope: real, intercept: real, fit: real, base: real, e: Sample -> real, g: real, h: real)
    requires g == slope - fit && h == intercept - base + g * mx
    ensures
      var gap, dx := Gap(slope, intercept, fit, base), OffX(mx);
      forall p :: Product(e, gap)(p) == h * e(p) + g * Product(e, dx)(p)
  {
    forall p
      ensures
        var gap, dx := Gap(slope, intercept, fit, base), OffX(mx);
        Product(e, gap)(p) == h * e(p) + g * Product(e, dx)(p)
    {
      SplitGap(p, mx, slope, intercept, fit, base, e, g, h);
    }
  }

  lemma SplitProduct(e: real, h: real, g: real, d: real)
    ensures e * (h + g * d) == h * e + g * (e * d)
  {
    var t := g * d;
    assert e * (h + t) == e * h + e * t;
    assert e * (g * d) == g * (e * d);
  }

  /** The fitted line's distances are orthogonal to every gap. */
  lemma GapsAreOrthogonal(s: seq<Sample>, fit: real, base: real, slope: real, intercept: real)
    requires s != [] && base == MeanY(s) - fit * MeanX(s)
    requires Numerator(s) == fit * Denominator(s)
    ensures Sum(s, Product(Distance(fit, base), Gap(slope, intercept, fit, base))) == 0.0
  {
    var mx, g := MeanX(s), slope - fit;
    var h := intercept - base + g * mx;
    var e, dx, gap := Distance(fit, base), OffX(mx), Gap(slope, intercept, fit, base);
    SplitGaps(mx, slope, intercept, fit, base, e, g, h);
    SumCombines(s, Product(e, gap), h, e, g, Product(e, dx));
    DistancesCancel(s, fit, base);
    WeightedDistancesCancel(s, fit, base);
  }

  lemma DistanceFromOther(p: Sample, slope: real, intercept: real, fit: real, base: real)
    ensures
      var gap, e := Gap(slope, intercept, fit, base), Distance(fit, base);
      SquaredDistance(slope, intercept)(p)
      == SquaredDistance(fit, base)(p) + Product(gap, gap)(p) + -2.0 * Product(e, gap)(p)
  {
    var gap, e := Gap(slope, intercept, fit, base)(p), Distance(fit, base)(p);
    assert Distance(slope, intercept)(p) == e - gap;
    assert (e - gap) * (e - gap) == e * e + gap * gap + -2.0 * (e * gap);
  }

  lemma {:induction false} SumSplits(s: seq<Sample>, f: Sample -> real, g: Sample -> real, h: Sample -> real, k: Sample -> real)
    requires forall p :: f(p) == g(p) + h(p) + -2.0 * k(p)
    ensures Sum(s, f) == Sum(s, g) + Sum(s, h) + -2.0 * Sum(s, k)
  {
    if s != [] {
      SumSplits(s[1..], f, g, h, k);
    }
  }

  /** Any line misses the samples by what the fitted line misses them by, plus the squared gaps. */
  lemma ResidualsAgainstFit(s: seq<Sample>, fit: real, base: real, slope: real, intercept: real, gap: Sample -> real)
    requires s != [] && base == MeanY(s) - fit * MeanX(s) && gap == Gap(slope, intercept, fit, base)
    requires Numerator(s) == fit * Denominator(s)
    ensures Residuals(s, slope, intercept) == Residuals(s, fit, base) + Sum(s, Product(gap, gap))
  {
    var e := Distance(fit, base);
    forall p
      ensures SquaredDistance(slope, intercept)(p)
              == SquaredDistance(fit, base)(p) + Product(gap, gap)(p) + -2.0 * Product(e, gap)(p)
    {
      DistanceFromOther(p, slope, intercept, fit, base);
    }
    SumSplits(s, SquaredDistance(slope, intercept), SquaredDistance(fit, base), Product(gap, gap), Product(e, gap));
    GapsAreOrthogonal(s, fit, base, slope, intercept);
  }

  lemma SquaresSum(s: seq<Sample>, f: Sample -> real)
    ensures Sum(s, Product(f, f)) >= 0.0
    ensures Sum(s, Product(f, f)) == 0.0 <==> forall i :: 0 <= i < |s| ==> f(s[i]) == 0.0
  {
    forall p
      ensures Product(f, f)(p) >= 0.0 && (Product(f, f)(p) == 0.0 <==> f(p) == 0.0)
    {
      SquareSign(f(p), Product(f, f)(p));
    }
    SumOfNonNegatives(s, Product(f, f));
  }

  /** The denominator vanishes exactly when all samples were taken at the same time. */
  lemma DenominatorVanishes(s: seq<Sample>)
    requires s != []
    ensures Denominator(s) >= 0.0
    ensures Denominator(s) == 0.0 <==> AllTimesEqual(s)
  {
    SquaresSum(s, OffX(MeanX(s)));
    if AllTimesEqual(s) {
      var off := OffX(s[0].atMs);
      SquaresSum(s, off);
      SumOff(s, off, (p: Sample) => p.atMs, s[0].atMs);
      AllZero(s, off);
      var n := |s| as real;
      assert (n * s[0].atMs) / n == s[0].atMs;
    }
  }

  lemma {:induction false} AllZero(s: seq<Sample>, f: Sample -> real)
    requires forall i :: 0 <= i < |s| ==> f(s[i]) == 0.0
    ensures Sum(s, f) == 0.0
  {
    if s != [] {
      AllZero(s[1..], f);
    }
  }

  /** Two lines that meet at two different times have the same slope. */
  lemma TwoZeroGaps(p: Sample, q: Sample, slope: real, intercept: real, fit: real, base: real)
    requires p.atMs != q.atMs
    requires Gap(slope, intercept, fit, base)(p) == 0.0 && Gap(slope, intercept, fit, base)(q) == 0.0
    ensures slope == fit
  {
    var g, t := slope - fit, p.atMs - q.atMs;
    assert slope * p.atMs - fit * p.atMs == g * p.atMs && slope * q.atMs - fit * q.atMs == g * q.atMs;
    assert g * t == g * p.atMs - g * q.atMs == 0.0;
    assert (g * t) / t == g;
  }

  /** The fitted line misses the samples by no more than any other, and a line that does as
      well runs through the same points. */
  lemma FitAgainstLine(s: seq<Sample>, fit: real, base: real, slope: real, intercept: real)
    requires s != [] && base == MeanY(s) - fit * MeanX(s)
    requires Numerator(s) == fit * Denominator(s)
    ensures Residuals(s, fit, base) <= Residuals(s, slope, intercept)
    ensures Residuals(s, fit, base) == Residuals(s, slope, intercept) ==>
              forall i :: 0 <= i < |s| ==> Gap(slope, intercept, fit, base)(s[i]) == 0.0
  {
    var gap := Gap(slope, intercept, fit, base);
    ResidualsAgainstFit(s, fit, base, slope, intercept, gap);
    SquaresSum(s, gap);
  }

  /** Main result about the fit: it is the one slope no line beats. */
  lemma FitIsTheBestSlope(s: seq<Sample>, fit: real, slope: real)
    requires s != [] && !AllTimesEqual(s) && Numerator(s) == fit * Denominator(s)
    ensures IsBestSlope(s, slope) <==> slope == fit
  {
    var base := MeanY(s) - fit * MeanX(s);
    forall otherSlope, otherIntercept
      ensures Residuals(s, fit, base) <= Residuals(s, otherSlope, otherIntercept)
    {
      FitAgainstLine(s, fit, base, otherSlope, otherIntercept);
    }
    assert IsBestLine(s, fit, base);
    if IsBestSlope(s, slope) {
      var c :| IsBestLine(s, slope, c);
      assert Residuals(s, slope, c) <= Residuals(s, fit, base);
      FitAgainstLine(s, fit, base, slope, c);
      var i, j :| 0 <= i < |s| && 0 <= j < |s| && s[i].atMs != s[j].atMs;
      TwoZeroGaps(s[i], s[j], slope, c, fit, base);
    }
  }

  lemma QuotientIsTheBestSlope(s: seq<Sample>)
    requires s != [] && Denominator(s) != 0.0
    ensures forall m :: IsBestSlope(s, m) <==> m == Numerator(s) / Denominator(s)
  {
    DenominatorVanishes(s);
    forall m
      ensures IsBestSlope(s, m) <==> m == Numerator(s) / Denominator(s)
    {
      FitIsTheBestSlope(s, Numerator(s) / Denominator(s), m);
    }
  }

  /** `linearSlopeBytesPerMinute`. A slope comes back exactly when there are three samples that
      are not all simultaneous, and per millisecond it is the one best slope. */
  method LinearSlopeBytesPerMinute(samples: seq<Sample>) returns (slope: Option<real>)
    ensures slope == None <==> |samples| < 3 || AllTimesEqual(samples)
    ensures slope.Some? ==> forall m :: IsBestSlope(samples, m) <==> m * 60_000.0 == slope.value
  {
    if |samples| < 3 {
      return None;
    }
    var meanX := MeanX(samples);
    var meanY := MeanY(samples);
    var numerator := 0.0;
    var denominator := 0.0;
    var cross, spread := Product(OffX(meanX), OffY(meanY)), Product(OffX(meanX), OffX(meanX));
    for i := 0 to |samples|
      invariant numerator == Sum(samples[..i], cross)
      invariant denominator == Sum(samples[..i], spread)
    {
      SumSnoc(samples, i, cross);
      SumSnoc(samples, i, spread);
      numerator := numerator + cross(samples[i]);
      denominator := denominator + spread(samples[i]);
    }
    assert samples[..|samples|] == samples;
    assert numerator == Numerator(samples) && denominator == Denominator(samples);
    DenominatorVanishes(samples);
    if denominator == 0.0 {
      return None;
    }
    slope := Some((numerator / denominator) * 60_000.0);
    QuotientIsTheBestSlope(samples);
  }
}
