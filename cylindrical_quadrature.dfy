/**
 * The integer and structural bookkeeping of the cylindrical product
 * quadrature: validation of the polar and azimuthal quadratures it is built
 * from, zero-weight endpoint padding of each azimuthal quadrature, the
 * p-major / q-minor order of the product directions, the per-polar-level
 * direction index map, the default curvilinear factors, and the table of
 * harmonic indices (l, m).
 *
 * Weights and abscissae are exact reals. An abscissa stands for the first
 * coordinate of its quadrature point (a cosine); a product direction keeps
 * the azimuthal and polar cosines its angles are the arc cosines of.
 */
module CylindricalQuadratures {
  import opened Common

  /** A one-dimensional quadrature: weights and abscissae, index by index. */
  datatype GaussQuadrature = GaussQuadrature(weights: seq<real>, abscissae: seq<real>)

  /** Each weight has its abscissa. */
  predicate WellFormed(g: GaussQuadrature) {
    |g.weights| == |g.abscissae|
  }

  predicate AllWellFormed(qs: seq<GaussQuadrature>) {
    forall p :: 0 <= p < |qs| ==> WellFormed(qs[p])
  }

  /** The reasons `Initialize` throws. */
  datatype InitError =
    | AzimuthalCountMismatch        // number of azimuthal quadratures differs from the number of polar points
    | InvalidPolarSize              // empty polar quadrature
    | InvalidAzimuthalSize          // some azimuthal quadrature is empty
    | PolarWeightsSumToZero
    | AzimuthalWeightsSumToZero
    | AbscissaeNotAscending

  /** Left-to-right sum, as `std::accumulate` from 0. */
  function Sum(s: seq<real>): real {
    if |s| == 0 then 0.0 else Sum(s[..|s| - 1]) + s[|s| - 1]
  }

  /** `std::is_sorted` with `<`: no element is smaller than the one before it. */
  predicate Ascending(a: seq<real>) {
    forall i :: 0 < i < |a| ==> !(a[i] < a[i - 1])
  }

  /** Ascending order allows ties, and forbids any descent. */
  lemma AscendingMeansNonDecreasing(a: seq<real>)
    ensures Ascending(a) <==> forall i, j :: 0 <= i <= j < |a| ==> a[i] <= a[j]
  {
    if Ascending(a) {
      forall i, j | 0 <= i <= j < |a|
        ensures a[i] <= a[j]
      {
        var k := i;
        while k < j
          invariant i <= k <= j && a[i] <= a[k]
        {
          k := k + 1;
        }
      }
    }
  }

  /** The first error the checks of one azimuthal quadrature raise: weights summing to zero, then order. */
  function AzimuthalError(q: GaussQuadrature): Option<InitError> {
    if Sum(q.weights) == 0.0 then Some(AzimuthalWeightsSumToZero)
    else if !Ascending(q.abscissae) then Some(AbscissaeNotAscending)
    else None
  }

  /** The error of the first azimuthal quadrature whose checks fail, if any. */
  function FirstAzimuthalError(qs: seq<GaussQuadrature>): (e: Option<InitError>)
    ensures e.None? <==> forall p :: 0 <= p < |qs| ==> AzimuthalError(qs[p]).None?
    ensures e.Some? ==> exists p :: 0 <= p < |qs| && e == AzimuthalError(qs[p]) &&
                                    forall p' :: 0 <= p' < p ==> AzimuthalError(qs[p']).None?
  {
    if |qs| == 0 then None
    else if AzimuthalError(qs[0]).Some? then
      AzimuthalError(qs[0])
    else
      var e := FirstAzimuthalError(qs[1..]);
      assert forall p :: 1 <= p < |qs| ==> qs[p] == qs[1..][p - 1];
      if e.Some? then
        var p :| 0 <= p < |qs[1..]| && e == AzimuthalError(qs[1..][p]) &&
                 forall p' :: 0 <= p' < p ==> AzimuthalError(qs[1..][p']).None?;
        assert e == AzimuthalError(qs[p + 1]);
        e
      else e
  }

  /**
   * What `Initialize` throws, checked in the order it checks: the count of
   * azimuthal quadratures, an empty polar quadrature, any empty azimuthal
   * quadrature, polar weights summing to zero, then each azimuthal
   * quadrature in turn.
   */
  function InitializeError(polar: GaussQuadrature, azimu: seq<GaussQuadrature>): Option<InitError> {
    if |polar.weights| != |azimu| then Some(AzimuthalCountMismatch)
    else if |polar.weights| == 0 then Some(InvalidPolarSize)
    else if exists p :: 0 <= p < |azimu| && |azimu[p].weights| == 0 then Some(InvalidAzimuthalSize)
    else if Sum(polar.weights) == 0.0 then Some(PolarWeightsSumToZero)
    else FirstAzimuthalError(azimu)
  }

  /** `std::numeric_limits<double>::epsilon()`, the tolerance of the checks below. */
  const EPS: real := 0.0000000000000002220446049250313080847263336181640625

  /** `M_PI` as the C library writes it. */
  const PI: real := 3.14159265358979323846

  function Abs(x: real): real {
    if x < 0.0 then -x else x
  }

  /** Every weight multiplied by `fac`. */
  function Scaled(s: seq<real>, fac: real): (r: seq<real>)
    ensures |r| == |s| && forall i :: 0 <= i < |s| ==> r[i] == s[i] * fac
  {
    seq(|s|, i requires 0 <= i < |s| => s[i] * fac)
  }

  /** Scaling the weights scales their sum. */
  lemma {:induction false} SumScaled(s: seq<real>, fac: real)
    ensures Sum(Scaled(s, fac)) == Sum(s) * fac
  {
    if |s| > 0 {
      var n := |s| - 1;
      var t := Scaled(s, fac);
      var u := Scaled(s[..n], fac);
      forall i | 0 <= i < n
        ensures t[..n][i] == u[i]
      {
        assert t[i] == s[i] * fac && u[i] == s[..n][i] * fac;
      }
      assert t[..n] == u;
      SumScaled(s[..n], fac);
      var a := Sum(s[..n]);
      calc {
        Sum(t);
        Sum(t[..n]) + t[n];
        a * fac + s[n] * fac;
        (a + s[n]) * fac;
      }
    }
  }

  /**
   * The weights rescaled to sum to `total`, unless the factor that takes
   * them there is within EPS of 1, in which case they are kept as they are.
   */
  function Normalized(q: GaussQuadrature, total: real): (r: GaussQuadrature)
    requires Sum(q.weights) != 0.0
    ensures |r.weights| == |q.weights| && r.abscissae == q.abscissae
  {
    var fac := total / Sum(q.weights);
    if Abs(fac - 1.0) > EPS then GaussQuadrature(Scaled(q.weights, fac), q.abscissae) else q
  }

  /**
   * Normalised weights sum to `total`, or were left alone because they
   * already summed to it up to the tolerance; zero weights stay the only
   * zero weights.
   */
  lemma NormalizedWeights(q: GaussQuadrature, total: real)
    requires Sum(q.weights) != 0.0 && total != 0.0
    ensures var r := Normalized(q, total);
      && (Sum(r.weights) == total || (r == q && Abs(total / Sum(q.weights) - 1.0) <= EPS))
      && forall i :: 0 <= i < |q.weights| ==> (r.weights[i] == 0.0 <==> q.weights[i] == 0.0)
  {
    var fac := total / Sum(q.weights);
    if Abs(fac - 1.0) > EPS {
      SumScaled(q.weights, fac);
      assert fac != 0.0;
    }
  }

  /** Whether the first point has weight and lies away from -1: then a point (0, -1) is inserted before it. */
  predicate NeedsFrontPoint(q: GaussQuadrature)
    requires WellFormed(q) && |q.weights| > 0
  {
    Abs(q.weights[0]) > EPS && Abs(q.abscissae[0] - -1.0) > EPS
  }

  /** Whether the last point has weight and lies away from +1: then a point (0, +1) is appended. */
  predicate NeedsBackPoint(q: GaussQuadrature)
    requires WellFormed(q) && |q.weights| > 0
  {
    Abs(q.weights[|q.weights| - 1]) > EPS && Abs(q.abscissae[|q.abscissae| - 1] - 1.0) > EPS
  }

  function PadFront(q: GaussQuadrature): (r: GaussQuadrature)
    requires WellFormed(q) && |q.weights| > 0
    ensures WellFormed(r) && |r.weights| > 0
  {
    if NeedsFrontPoint(q) then GaussQuadrature([0.0] + q.weights, [-1.0] + q.abscissae) else q
  }

  function PadBack(q: GaussQuadrature): (r: GaussQuadrature)
    requires WellFormed(q) && |q.weights| > 0
    ensures WellFormed(r) && |r.weights| > 0
  {
    if NeedsBackPoint(q) then GaussQuadrature(q.weights + [0.0], q.abscissae + [1.0]) else q
  }

  /** An azimuthal quadrature with its endpoint padding. */
  function Pad(q: GaussQuadrature): GaussQuadrature
    requires WellFormed(q) && |q.weights| > 0
  {
    PadBack(PadFront(q))
  }

  /**
   * Padding keeps the quadrature's own points, in order and contiguous; it
   * adds (0, -1) in front exactly when the first point has weight and is
   * not at -1, and (0, +1) behind exactly when the last point has weight
   * and is not at +1 (both up to EPS); so it grows by at most two points.
   */
  lemma PadShape(q: GaussQuadrature)
    requires WellFormed(q) && |q.weights| > 0
    ensures var n := |q.weights|;
      var front := Abs(q.weights[0]) > EPS && Abs(q.abscissae[0] + 1.0) > EPS;
      var back := Abs(q.weights[n - 1]) > EPS && Abs(q.abscissae[n - 1] - 1.0) > EPS;
      var lo := if front then 1 else 0;
      var r := Pad(q);
      && WellFormed(r)
      && |r.weights| == n + lo + (if back then 1 else 0)
      && r.weights[lo..lo + n] == q.weights && r.abscissae[lo..lo + n] == q.abscissae
      && (front ==> r.weights[0] == 0.0 && r.abscissae[0] == -1.0)
      && (back ==> r.weights[|r.weights| - 1] == 0.0 && r.abscissae[|r.abscissae| - 1] == 1.0)
  {
    var f := PadFront(q);
    var n := |q.weights|;
    var front := NeedsFrontPoint(q);
    var lo := if front then 1 else 0;
    assert f.weights[lo..] == q.weights && f.abscissae[lo..] == q.abscissae;
    assert f.weights[|f.weights| - 1] == q.weights[n - 1];
    assert f.abscissae[|f.abscissae| - 1] == q.abscissae[n - 1];
    var r := PadBack(f);
    assert r.weights[..|f.weights|] == f.weights && r.abscissae[..|f.abscissae|] == f.abscissae;
    assert r.weights[lo..lo + n] == f.weights[lo..];
    assert r.abscissae[lo..lo + n] == f.abscissae[lo..];
  }

  /** An azimuthal quadrature as the product uses it: rescaled to sum to pi, then padded. */
  function Prepared(q: GaussQuadrature): (r: GaussQuadrature)
    requires WellFormed(q) && |q.weights| > 0 && Sum(q.weights) != 0.0
    ensures WellFormed(r) && |r.weights| > 0
  {
    Pad(Normalized(q, PI))
  }

  /** Azimuthal quadratures that passed the size and weight-sum checks. */
  predicate Preparable(azimu: seq<GaussQuadrature>) {
    AllWellFormed(azimu) && forall p :: 0 <= p < |azimu| ==> |azimu[p].weights| > 0 && Sum(azimu[p].weights) != 0.0
  }

  /** Every azimuthal quadrature prepared. */
  function PreparedAll(azimu: seq<GaussQuadrature>): (r: seq<GaussQuadrature>)
    requires Preparable(azimu)
    ensures |r| == |azimu| && AllWellFormed(r)
    ensures forall p :: 0 <= p < |r| ==> r[p] == Prepared(azimu[p]) && |r[p].weights| > 0
  {
    seq(|azimu|, p requires 0 <= p < |azimu| => Prepared(azimu[p]))
  }

  /** The single-azimuthal-quadrature form: the same azimuthal quadrature for each of `np` polar points. */
  function Replicate(q: GaussQuadrature, np: nat): (r: seq<GaussQuadrature>)
    ensures |r| == np && forall p :: 0 <= p < np ==> r[p] == q
  {
    seq(np, _ => q)
  }

  // ---------------------------------------------------------------------------
  // Product directions and the direction map

  /** A product direction: weight, and the cosines of its azimuthal angle phi and polar angle theta. */
  datatype Direction = Direction(weight: real, cosPhi: real, cosTheta: real)

  /** `QuadraturePointPhiTheta(acos(cosPhi), acos(cosTheta))`, kept as the two cosines. */
  datatype PhiTheta = PhiTheta(cosPhi: real, cosTheta: real)

  /** Direction q of polar level p: weight w_p * w_pq, azimuthal cosine x_pq, polar cosine x_p. */
  function DirectionAt(polar: GaussQuadrature, p: nat, az: GaussQuadrature, q: nat): Direction
    requires WellFormed(polar) && p < |polar.weights| && WellFormed(az) && q < |az.weights|
  {
    Direction(polar.weights[p] * az.weights[q], az.abscissae[q], polar.abscissae[p])
  }

  /** The first `q` directions of polar level p. */
  function LevelPrefix(polar: GaussQuadrature, p: nat, az: GaussQuadrature, q: nat): (r: seq<Direction>)
    requires WellFormed(polar) && p < |polar.weights| && WellFormed(az) && q <= |az.weights|
    ensures |r| == q
  {
    if q == 0 then [] else LevelPrefix(polar, p, az, q - 1) + [DirectionAt(polar, p, az, q - 1)]
  }

  predicate ProductInputs(polar: GaussQuadrature, azimu: seq<GaussQuadrature>) {
    WellFormed(polar) && |polar.weights| == |azimu| && AllWellFormed(azimu)
  }

  /** The directions of the first `np` polar levels, level by level. */
  function ProductDirections(polar: GaussQuadrature, azimu: seq<GaussQuadrature>, np: nat): seq<Direction>
    requires ProductInputs(polar, azimu) && np <= |azimu|
  {
    if np == 0 then []
    else ProductDirections(polar, azimu, np - 1) + LevelPrefix(polar, np - 1, azimu[np - 1], |azimu[np - 1].weights|)
  }

  /** Number of directions of each polar level. */
  function LevelSizes(azimu: seq<GaussQuadrature>): (sizes: seq<nat>)
    ensures |sizes| == |azimu| && forall p :: 0 <= p < |azimu| ==> sizes[p] == |azimu[p].weights|
  {
    seq(|azimu|, p requires 0 <= p < |azimu| => |azimu[p].weights|)
  }

  /** Index of the first direction of level p: the sizes of the levels before it, summed. */
  function Offset(sizes: seq<nat>, p: nat): nat
    requires p <= |sizes|
  {
    if p == 0 then 0 else Offset(sizes, p - 1) + sizes[p - 1]
  }

  lemma {:induction false} OffsetMonotone(sizes: seq<nat>, p: nat, p': nat)
    requires p <= p' <= |sizes|
    ensures Offset(sizes, p) <= Offset(sizes, p')
  {
    if p < p' {
      OffsetMonotone(sizes, p, p' - 1);
    }
  }

  lemma {:induction false} LevelPrefixAt(polar: GaussQuadrature, p: nat, az: GaussQuadrature, n: nat, q: nat)
    requires WellFormed(polar) && p < |polar.weights| && WellFormed(az) && q < n <= |az.weights|
    ensures LevelPrefix(polar, p, az, n)[q] == DirectionAt(polar, p, az, q)
  {
    if q < n - 1 {
      LevelPrefixAt(polar, p, az, n - 1, q);
    }
  }

  /** The product has one direction per (polar point, azimuthal point) pair: the level sizes summed. */
  lemma {:induction false} ProductDirectionCount(polar: GaussQuadrature, azimu: seq<GaussQuadrature>, np: nat)
    requires ProductInputs(polar, azimu) && np <= |azimu|
    ensures |ProductDirections(polar, azimu, np)| == Offset(LevelSizes(azimu), np)
  {
    if np > 0 {
      ProductDirectionCount(polar, azimu, np - 1);
    }
  }

  /**
   * The product is p-major and q-minor: direction q of level p sits at
   * Offset(p) + q and has weight w_p * w_pq, azimuthal cosine x_pq and polar
   * cosine x_p.
   */
  lemma {:induction false} ProductDirectionOrder(polar: GaussQuadrature, azimu: seq<GaussQuadrature>, np: nat,
                                                 p: nat, q: nat)
    requires ProductInputs(polar, azimu) && p < np <= |azimu| && q < |azimu[p].weights|
    ensures Offset(LevelSizes(azimu), p) + q < |ProductDirections(polar, azimu, np)|
    ensures ProductDirections(polar, azimu, np)[Offset(LevelSizes(azimu), p) + q] == DirectionAt(polar, p, azimu[p], q)
  {
    var prev := ProductDirections(polar, azimu, np - 1);
    var level := LevelPrefix(polar, np - 1, azimu[np - 1], |azimu[np - 1].weights|);
    var k := Offset(LevelSizes(azimu), p) + q;
    assert ProductDirections(polar, azimu, np) == prev + level;
    ProductDirectionCount(polar, azimu, np - 1);
    if p == np - 1 {
      LevelPrefixAt(polar, p, azimu[p], |azimu[p].weights|, q);
      assert (prev + level)[k] == level[q];
    } else {
      ProductDirectionOrder(polar, azimu, np - 1, p, q);
      assert (prev + level)[k] == prev[k];
    }
  }

  /** `weights_` of a list of directions. */
  function WeightsOf(ds: seq<Direction>): (w: seq<real>)
    ensures |w| == |ds|
  {
    if |ds| == 0 then [] else WeightsOf(ds[..|ds| - 1]) + [ds[|ds| - 1].weight]
  }

  /** `abscissae_` of a list of directions. */
  function AbscissaeOf(ds: seq<Direction>): (a: seq<PhiTheta>)
    ensures |a| == |ds|
  {
    if |ds| == 0 then [] else AbscissaeOf(ds[..|ds| - 1]) + [PhiTheta(ds[|ds| - 1].cosPhi, ds[|ds| - 1].cosTheta)]
  }

  lemma ProjectionsSnoc(ds: seq<Direction>, d: Direction)
    ensures WeightsOf(ds + [d]) == WeightsOf(ds) + [d.weight]
    ensures AbscissaeOf(ds + [d]) == AbscissaeOf(ds) + [PhiTheta(d.cosPhi, d.cosTheta)]
  {
    assert (ds + [d])[..|ds|] == ds;
  }

  /** The direction indices of one polar level: `size` consecutive indices from `first`. */
  function IndexRange(first: nat, size: nat): (r: seq<nat>)
    ensures |r| == size
  {
    if size == 0 then [] else IndexRange(first, size - 1) + [first + size - 1]
  }

  lemma {:induction false} IndexRangeAt(first: nat, size: nat, q: nat)
    requires q < size
    ensures IndexRange(first, size)[q] == first + q
  {
    if q < size - 1 {
      IndexRangeAt(first, size - 1, q);
    }
  }

  /** `map_directions_` after the first `np` levels: level p maps to its range of direction indices. */
  function DirectionMap(sizes: seq<nat>, np: nat): map<nat, seq<nat>>
    requires np <= |sizes|
  {
    if np == 0 then map[]
    else DirectionMap(sizes, np - 1)[np - 1 := IndexRange(Offset(sizes, np - 1), sizes[np - 1])]
  }

  lemma {:induction false} DirectionMapAt(sizes: seq<nat>, np: nat, p: nat)
    requires np <= |sizes|
    ensures p in DirectionMap(sizes, np) <==> p < np
    ensures p < np ==> DirectionMap(sizes, np)[p] == IndexRange(Offset(sizes, p), sizes[p])
  {
    if np > 0 && p != np - 1 {
      DirectionMapAt(sizes, np - 1, p);
    }
  }

  /** The map's keys are the levels 0 .. np-1, and level p holds [Offset(p), Offset(p + 1)). */
  lemma DirectionMapContents(sizes: seq<nat>, np: nat)
    requires np <= |sizes|
    ensures forall p: nat :: p in DirectionMap(sizes, np) <==> p < np
    ensures forall p :: 0 <= p < np ==> DirectionMap(sizes, np)[p] == IndexRange(Offset(sizes, p), sizes[p])
  {
    forall p: nat
      ensures p in DirectionMap(sizes, np) <==> p < np
      ensures p < np ==> DirectionMap(sizes, np)[p] == IndexRange(Offset(sizes, p), sizes[p])
    {
      DirectionMapAt(sizes, np, p);
    }
  }

  /** The levels' ranges of a direction map, concatenated in level order. */
  function ConcatenatedLevels(m: map<nat, seq<nat>>, np: nat): seq<nat>
    requires forall p :: 0 <= p < np ==> p in m
  {
    if np == 0 then [] else ConcatenatedLevels(m, np - 1) + m[np - 1]
  }

  lemma {:induction false} IndexRangeSplit(first: nat, a: nat, b: nat)
    ensures IndexRange(first, a) + IndexRange(first + a, b) == IndexRange(first, a + b)
  {
    if b > 0 {
      IndexRangeSplit(first, a, b - 1);
      assert IndexRange(first, a) + IndexRange(first + a, b) ==
             (IndexRange(first, a) + IndexRange(first + a, b - 1)) + [first + a + b - 1];
    }
  }

  /** Concatenating the levels' ranges in level order gives 0, 1, ..., N-1 for N directions. */
  lemma {:induction false} ConcatenatedRanges(m: map<nat, seq<nat>>, sizes: seq<nat>, np: nat)
    requires np <= |sizes|
    requires forall p :: 0 <= p < np ==> p in m
    requires forall p {:trigger m[p]} :: 0 <= p < np ==> m[p] == IndexRange(Offset(sizes, p), sizes[p])
    ensures ConcatenatedLevels(m, np) == IndexRange(0, Offset(sizes, np))
  {
    if np > 0 {
      var before := Offset(sizes, np - 1);
      ConcatenatedRanges(m, sizes, np - 1);
      IndexRangeSplit(0, before, sizes[np - 1]);
      calc {
        ConcatenatedLevels(m, np);
        ConcatenatedLevels(m, np - 1) + m[np - 1];
        IndexRange(0, before) + IndexRange(before, sizes[np - 1]);
        IndexRange(0, before + sizes[np - 1]);
      }
    }
  }

  lemma DirectionMapCoversAll(sizes: seq<nat>, np: nat)
    requires np <= |sizes|
    ensures forall p :: 0 <= p < np ==> p in DirectionMap(sizes, np)
    ensures ConcatenatedLevels(DirectionMap(sizes, np), np) == IndexRange(0, Offset(sizes, np))
  {
    DirectionMapContents(sizes, np);
    ConcatenatedRanges(DirectionMap(sizes, np), sizes, np);
  }

  // ---------------------------------------------------------------------------
  // Curvilinear factors

  /** `std::vector::resize(n, value)`: truncate, or pad with `value`. */
  function Resize(s: seq<real>, n: nat, value: real): (r: seq<real>)
    ensures |r| == n
    ensures forall k :: 0 <= k < n ==> r[k] == if k < |s| then s[k] else value
  {
    if n <= |s| then s[..n] else s + seq(n - |s|, _ => value)
  }

  /** Where the loop over the interior directions q = 1, 2, ... of a level of `size` directions stops. */
  function InteriorEnd(size: nat): nat {
    if size >= 2 then size - 1 else 1
  }

  /**
   * Factors of one level (first direction `first`) once the interior loop
   * has set directions 1 .. q-1 to `value(p, q')`.
   */
  function LevelFactors(fac: seq<real>, p: nat, first: nat, size: nat, value: (nat, nat) -> real, q: nat): (r: seq<real>)
    requires first + size <= |fac| && 1 <= q <= InteriorEnd(size)
    ensures |r| == |fac|
  {
    if q == 1 then fac
    else LevelFactors(fac, p, first, size, value, q - 1)[first + q - 1 := value(p, q - 1)]
  }

  lemma {:induction false} LevelFactorsAt(fac: seq<real>, p: nat, first: nat, size: nat, value: (nat, nat) -> real,
                                          q: nat, k: nat)
    requires first + size <= |fac| && 1 <= q <= InteriorEnd(size) && k < |fac|
    ensures LevelFactors(fac, p, first, size, value, q)[k] ==
              if first + 1 <= k < first + q then value(p, k - first) else fac[k]
  {
    if q > 1 {
      LevelFactorsAt(fac, p, first, size, value, q - 1, k);
    }
  }

  /** Factors after the interior directions of every level below `np` are set, level by level. */
  function FactorsAfter(init: seq<real>, sizes: seq<nat>, value: (nat, nat) -> real, np: nat): (r: seq<real>)
    requires np <= |sizes| && Offset(sizes, |sizes|) <= |init|
    ensures |r| == |init|
  {
    if np == 0 then init
    else
      OffsetMonotone(sizes, np, |sizes|);
      LevelFactors(FactorsAfter(init, sizes, value, np - 1), np - 1, Offset(sizes, np - 1), sizes[np - 1], value,
                   InteriorEnd(sizes[np - 1]))
  }

  /** Directions at or beyond the levels already processed keep their initial factor. */
  lemma {:induction false} FactorsAfterBeyond(init: seq<real>, sizes: seq<nat>, value: (nat, nat) -> real, np: nat,
                                              k: nat)
    requires np <= |sizes| && Offset(sizes, |sizes|) <= |init| && Offset(sizes, np) <= k < |init|
    ensures FactorsAfter(init, sizes, value, np)[k] == init[k]
  {
    if np > 0 {
      OffsetMonotone(sizes, np, |sizes|);
      var first := Offset(sizes, np - 1);
      LevelFactorsAt(FactorsAfter(init, sizes, value, np - 1), np - 1, first, sizes[np - 1], value,
                     InteriorEnd(sizes[np - 1]), k);
      FactorsAfterBeyond(init, sizes, value, np - 1, k);
    }
  }

  /**
   * Direction q of level p gets `value(p, q)` when it is interior
   * (1 <= q < size - 1); the first and last directions of a level keep
   * their initial factor.
   */
  lemma {:induction false} FactorsAfterAt(init: seq<real>, sizes: seq<nat>, value: (nat, nat) -> real, np: nat,
                                          p: nat, q: nat)
    requires np <= |sizes| && Offset(sizes, |sizes|) <= |init| && p < np && q < sizes[p]
    ensures Offset(sizes, p) + q < |init|
    ensures FactorsAfter(init, sizes, value, np)[Offset(sizes, p) + q] ==
              if 1 <= q < sizes[p] - 1 then value(p, q) else init[Offset(sizes, p) + q]
  {
    OffsetMonotone(sizes, p + 1, |sizes|);
    OffsetMonotone(sizes, np, |sizes|);
    var k := Offset(sizes, p) + q;
    var prev := FactorsAfter(init, sizes, value, np - 1);
    LevelFactorsAt(prev, np - 1, Offset(sizes, np - 1), sizes[np - 1], value, InteriorEnd(sizes[np - 1]), k);
    if p == np - 1 {
      FactorsAfterBeyond(init, sizes, value, np - 1, k);
    } else {
      OffsetMonotone(sizes, p + 1, np - 1);
      FactorsAfterAt(init, sizes, value, np - 1, p, q);
    }
  }

  lemma {:induction false} DirectionMapSize(sizes: seq<nat>, np: nat)
    requires np <= |sizes|
    ensures |DirectionMap(sizes, np)| == np
  {
    if np > 0 {
      DirectionMapSize(sizes, np - 1);
      DirectionMapAt(sizes, np - 1, np - 1);
    }
  }

  // ---------------------------------------------------------------------------
  // Harmonic indices

  /** A spherical-harmonic index pair (l, m). */
  datatype HarmonicIndices = HarmonicIndices(ell: nat, m: int)

  /** In one dimension only pairs with l + m even are kept; in two, all pairs. */
  predicate Kept(x: HarmonicIndices, evenOnly: bool) {
    !evenOnly || (x.ell + x.m) % 2 == 0
  }

  /** The kept pairs (l, 0), ..., (l, m-1) of row l, in order of m. */
  function RowPrefix(l: nat, m: nat, evenOnly: bool): seq<HarmonicIndices> {
    if m == 0 then []
    else RowPrefix(l, m - 1, evenOnly) + (if Kept(HarmonicIndices(l, m - 1), evenOnly) then [HarmonicIndices(l, m - 1)] else [])
  }

  /** The kept pairs of rows 0 .. n-1, row by row, each row holding m = 0 .. l. */
  function HarmonicRows(n: nat, evenOnly: bool): seq<HarmonicIndices> {
    if n == 0 then [] else HarmonicRows(n - 1, evenOnly) + RowPrefix(n - 1, n, evenOnly)
  }

  /** The harmonic table for scattering order L. */
  function HarmonicTable(scatteringOrder: nat, evenOnly: bool): seq<HarmonicIndices> {
    HarmonicRows(scatteringOrder + 1, evenOnly)
  }

  /** In row l, in order: the entries of RowPrefix are kept pairs (l, m') with m' < m. */
  lemma {:induction false} RowPrefixSound(l: nat, m: nat, evenOnly: bool, i: nat)
    requires i < |RowPrefix(l, m, evenOnly)|
    ensures var x := RowPrefix(l, m, evenOnly)[i]; x.ell == l && 0 <= x.m < m && Kept(x, evenOnly)
  {
    var prev := RowPrefix(l, m - 1, evenOnly);
    if i < |prev| {
      RowPrefixSound(l, m - 1, evenOnly, i);
    }
  }

  lemma {:induction false} RowPrefixComplete(l: nat, m: nat, evenOnly: bool, x: HarmonicIndices)
    requires x.ell == l && 0 <= x.m < m && Kept(x, evenOnly)
    ensures x in RowPrefix(l, m, evenOnly)
  {
    var prev := RowPrefix(l, m - 1, evenOnly);
    if x.m < m - 1 {
      RowPrefixComplete(l, m - 1, evenOnly, x);
      assert x in prev;
    } else {
      assert x == HarmonicIndices(l, m - 1);
    }
  }

  lemma RowPrefixMembers(l: nat, m: nat, evenOnly: bool, x: HarmonicIndices)
    ensures x in RowPrefix(l, m, evenOnly) <==> x.ell == l && 0 <= x.m < m && Kept(x, evenOnly)
  {
    if x in RowPrefix(l, m, evenOnly) {
      var i :| 0 <= i < |RowPrefix(l, m, evenOnly)| && RowPrefix(l, m, evenOnly)[i] == x;
      RowPrefixSound(l, m, evenOnly, i);
    }
    if x.ell == l && 0 <= x.m < m && Kept(x, evenOnly) {
      RowPrefixComplete(l, m, evenOnly, x);
    }
  }

  lemma {:induction false} HarmonicRowsSound(n: nat, evenOnly: bool, i: nat)
    requires i < |HarmonicRows(n, evenOnly)|
    ensures var x := HarmonicRows(n, evenOnly)[i]; x.ell < n && 0 <= x.m <= x.ell && Kept(x, evenOnly)
  {
    var rows := HarmonicRows(n - 1, evenOnly);
    var row := RowPrefix(n - 1, n, evenOnly);
    if i < |rows| {
      HarmonicRowsSound(n - 1, evenOnly, i);
      assert HarmonicRows(n, evenOnly)[i] == rows[i];
    } else {
      RowPrefixSound(n - 1, n, evenOnly, i - |rows|);
      assert HarmonicRows(n, evenOnly)[i] == row[i - |rows|];
    }
  }

  lemma {:induction false} HarmonicRowsComplete(n: nat, evenOnly: bool, x: HarmonicIndices)
    requires x.ell < n && 0 <= x.m <= x.ell && Kept(x, evenOnly)
    ensures x in HarmonicRows(n, evenOnly)
  {
    var rows := HarmonicRows(n - 1, evenOnly);
    var row := RowPrefix(n - 1, n, evenOnly);
    if x.ell < n - 1 {
      HarmonicRowsComplete(n - 1, evenOnly, x);
      assert x in rows;
    } else {
      RowPrefixComplete(n - 1, n, evenOnly, x);
      assert x in row;
    }
    assert HarmonicRows(n, evenOnly) == rows + row;
  }

  lemma HarmonicRowsMembers(n: nat, evenOnly: bool, x: HarmonicIndices)
    ensures x in HarmonicRows(n, evenOnly) <==> x.ell < n && 0 <= x.m <= x.ell && Kept(x, evenOnly)
  {
    if x in HarmonicRows(n, evenOnly) {
      var i :| 0 <= i < |HarmonicRows(n, evenOnly)| && HarmonicRows(n, evenOnly)[i] == x;
      HarmonicRowsSound(n, evenOnly, i);
    }
    if x.ell < n && 0 <= x.m <= x.ell && Kept(x, evenOnly) {
      HarmonicRowsComplete(n, evenOnly, x);
    }
  }

  /**
   * The table for scattering order L holds exactly the pairs 0 <= m <= l <= L,
   * restricted in one dimension to those with l + m even.
   */
  lemma HarmonicTableMembers(scatteringOrder: nat, evenOnly: bool, x: HarmonicIndices)
    ensures x in HarmonicTable(scatteringOrder, evenOnly) <==>
              0 <= x.m <= x.ell <= scatteringOrder && (evenOnly ==> (x.ell + x.m) % 2 == 0)
  {
    HarmonicRowsMembers(scatteringOrder + 1, evenOnly, x);
  }

  lemma {:induction false} FullRowSize(l: nat, m: nat)
    ensures |RowPrefix(l, m, false)| == m
  {
    if m > 0 {
      FullRowSize(l, m - 1);
    }
  }

  lemma {:induction false} FullRowsSize(n: nat)
    ensures 2 * |HarmonicRows(n, false)| == n * (n + 1)
  {
    if n > 0 {
      FullRowsSize(n - 1);
      FullRowSize(n - 1, n);
    }
  }

  /** In two dimensions the table holds (L + 1)(L + 2) / 2 pairs. */
  lemma HarmonicTableSize(scatteringOrder: nat)
    ensures |HarmonicTable(scatteringOrder, false)| == (scatteringOrder + 1) * (scatteringOrder + 2) / 2
  {
    FullRowsSize(scatteringOrder + 1);
  }

  /** (l, m) strictly before (l', m') in row-major order. */
  predicate Precedes(a: HarmonicIndices, b: HarmonicIndices) {
    a.ell < b.ell || (a.ell == b.ell && a.m < b.m)
  }

  /** A sequence whose neighbours are in order is in order throughout. */
  lemma ChainedPrecedes(s: seq<HarmonicIndices>)
    requires forall i :: 0 < i < |s| ==> Precedes(s[i - 1], s[i])
    ensures forall i, j :: 0 <= i < j < |s| ==> Precedes(s[i], s[j])
  {
    forall i, j | 0 <= i < j < |s|
      ensures Precedes(s[i], s[j])
    {
      var k := i + 1;
      while k < j
        invariant i < k <= j && Precedes(s[i], s[k])
      {
        k := k + 1;
      }
    }
  }

  lemma {:induction false} RowPrefixOrdered(l: nat, m: nat, evenOnly: bool)
    ensures forall i :: 0 < i < |RowPrefix(l, m, evenOnly)| ==>
              Precedes(RowPrefix(l, m, evenOnly)[i - 1], RowPrefix(l, m, evenOnly)[i])
  {
    if m > 0 {
      RowPrefixOrdered(l, m - 1, evenOnly);
      var prev := RowPrefix(l, m - 1, evenOnly);
      if Kept(HarmonicIndices(l, m - 1), evenOnly) && |prev| > 0 {
        RowPrefixMembers(l, m - 1, evenOnly, prev[|prev| - 1]);
      }
    }
  }

  lemma {:induction false} HarmonicRowsOrdered(n: nat, evenOnly: bool)
    ensures forall i :: 0 < i < |HarmonicRows(n, evenOnly)| ==>
              Precedes(HarmonicRows(n, evenOnly)[i - 1], HarmonicRows(n, evenOnly)[i])
  {
    if n > 0 {
      HarmonicRowsOrdered(n - 1, evenOnly);
      RowPrefixOrdered(n - 1, n, evenOnly);
      var prev := HarmonicRows(n - 1, evenOnly);
      var row := RowPrefix(n - 1, n, evenOnly);
      if |prev| > 0 && |row| > 0 {
        HarmonicRowsMembers(n - 1, evenOnly, prev[|prev| - 1]);
        RowPrefixMembers(n - 1, n, evenOnly, row[0]);
      }
      forall i | 0 < i < |prev + row|
        ensures Precedes((prev + row)[i - 1], (prev + row)[i])
      {
        if i < |prev| {
          assert (prev + row)[i - 1] == prev[i - 1] && (prev + row)[i] == prev[i];
        } else if i == |prev| {
          assert (prev + row)[i - 1] == prev[|prev| - 1] && (prev + row)[i] == row[0];
        } else {
          assert (prev + row)[i - 1] == row[i - 1 - |prev|] && (prev + row)[i] == row[i - |prev|];
        }
      }
    }
  }

  /** The table is in strictly increasing row-major order of (l, m), so it has no repeats. */
  lemma HarmonicTableOrdered(scatteringOrder: nat, evenOnly: bool)
    ensures var t := HarmonicTable(scatteringOrder, evenOnly);
      forall i, j :: 0 <= i < j < |t| ==> Precedes(t[i], t[j])
  {
    HarmonicRowsOrdered(scatteringOrder + 1, evenOnly);
    ChainedPrecedes(HarmonicTable(scatteringOrder, evenOnly));
  }

  /**
   * After a first `Initialize` (factors empty before), the first and last
   * direction of every level keep the resize defaults: 1 for the diamond
   * difference, 0 for the streaming operator, whatever the interior values.
   */
  lemma FirstInitializeEndpointFactors(sizes: seq<nat>, diamondDifference: (nat, nat) -> real,
                                       streaming: (nat, nat) -> real, p: nat)
    requires p < |sizes| && sizes[p] >= 1
    ensures var n := Offset(sizes, |sizes|);
      var dd := FactorsAfter(Resize([], n, 1.0), sizes, diamondDifference, |sizes|);
      var so := FactorsAfter(Resize([], n, 0.0), sizes, streaming, |sizes|);
      && Offset(sizes, p) + sizes[p] - 1 < n
      && dd[Offset(sizes, p)] == 1.0 && dd[Offset(sizes, p) + sizes[p] - 1] == 1.0
      && so[Offset(sizes, p)] == 0.0 && so[Offset(sizes, p) + sizes[p] - 1] == 0.0
  {
    var n := Offset(sizes, |sizes|);
    FactorsAfterAt(Resize([], n, 1.0), sizes, diamondDifference, |sizes|, p, 0);
    FactorsAfterAt(Resize([], n, 1.0), sizes, diamondDifference, |sizes|, p, sizes[p] - 1);
    FactorsAfterAt(Resize([], n, 0.0), sizes, streaming, |sizes|, p, 0);
    FactorsAfterAt(Resize([], n, 0.0), sizes, streaming, |sizes|, p, sizes[p] - 1);
  }

  /**
   * With one azimuthal quadrature replicated for every polar point the
   * count check cannot fail; the error is the polar one or that one
   * quadrature's.
   */
  lemma ReplicatedInitializeError(polar: GaussQuadrature, q: GaussQuadrature)
    ensures var e := InitializeError(polar, Replicate(q, |polar.weights|));
      e == if |polar.weights| == 0 then Some(InvalidPolarSize)
           else if |q.weights| == 0 then Some(InvalidAzimuthalSize)
           else if Sum(polar.weights) == 0.0 then Some(PolarWeightsSumToZero)
           else AzimuthalError(q)
  {
    var azimu := Replicate(q, |polar.weights|);
    if |polar.weights| > 0 {
      assert azimu[0] == q;
      var e := FirstAzimuthalError(azimu);
      if e.Some? {
        var p :| 0 <= p < |azimu| && e == AzimuthalError(azimu[p]);
      }
    }
  }

  /** The reason `MakeHarmonicIndices` throws. */
  datatype HarmonicError = InvalidDimension

  // ---------------------------------------------------------------------------
  // The quadrature object

  class CylindricalQuadrature {
    var weights: seq<real>
    var abscissae: seq<PhiTheta>
    var mapDirections: map<nat, seq<nat>>
    var facDiamondDifference: seq<real>
    var facStreamingOperator: seq<real>
    var mToEllEmMap: seq<HarmonicIndices>

    /** A quadrature with no directions yet, as the curvilinear base leaves it. */
    constructor ()
      ensures weights == [] && abscissae == [] && mapDirections == map[]
      ensures facDiamondDifference == [] && facStreamingOperator == [] && mToEllEmMap == []
    {
      weights := [];
      abscissae := [];
      mapDirections := map[];
      facDiamondDifference := [];
      facStreamingOperator := [];
      mToEllEmMap := [];
    }

    /**
     * Validates the polar quadrature and one azimuthal quadrature per polar
     * point, pads each azimuthal quadrature, and builds the product
     * directions, the direction map and the curvilinear factors. The
     * interior factors are given by `diamondDifference` and `streaming`
     * (level p, direction q within it). On an error nothing changes.
     */
    method Initialize(polar: GaussQuadrature, azimu: seq<GaussQuadrature>,
                      diamondDifference: (nat, nat) -> real, streaming: (nat, nat) -> real)
      returns (r: Outcome<InitError>)
      requires WellFormed(polar) && AllWellFormed(azimu)
      modifies this
      ensures r.Pass? <==> InitializeError(polar, azimu).None?
      ensures r.Fail? ==> r.error == InitializeError(polar, azimu).value && unchanged(this)
      ensures r.Pass? ==>
        var padded := PreparedAll(azimu);
        var sizes := LevelSizes(padded);
        var n := Offset(sizes, |sizes|);
        && weights == WeightsOf(ProductDirections(Normalized(polar, 2.0), padded, |padded|))
        && abscissae == AbscissaeOf(ProductDirections(Normalized(polar, 2.0), padded, |padded|))
        && mapDirections == DirectionMap(sizes, |sizes|)
        && facDiamondDifference == FactorsAfter(Resize(old(facDiamondDifference), n, 1.0), sizes, diamondDifference, |sizes|)
        && facStreamingOperator == FactorsAfter(Resize(old(facStreamingOperator), n, 0.0), sizes, streaming, |sizes|)
        && mToEllEmMap == old(mToEllEmMap)
    {
      if |polar.weights| != |azimu| {
        return Fail(AzimuthalCountMismatch);
      }
      if |polar.weights| == 0 {
        return Fail(InvalidPolarSize);
      }
      var anyEmpty := AnyEmpty(azimu);
      if anyEmpty {
        return Fail(InvalidAzimuthalSize);
      }
      if Sum(polar.weights) == 0.0 {
        return Fail(PolarWeightsSumToZero);
      }
      var err, padded := CheckAndPad(azimu);
      if err.Some? {
        return Fail(err.value);
      }
      var polarN := Normalized(polar, 2.0);
      BuildProduct(polarN, padded);
      BuildDirectionMap(padded);
      var sizes := LevelSizes(padded);
      ProductDirectionCount(polarN, padded, |padded|);
      InitializeParameters(sizes, diamondDifference, streaming);
      r := Pass;
    }

    /** The single-azimuthal-quadrature construction: `azimu` is used for every polar point. */
    method InitializeReplicated(polar: GaussQuadrature, azimu: GaussQuadrature,
                                diamondDifference: (nat, nat) -> real, streaming: (nat, nat) -> real)
      returns (r: Outcome<InitError>)
      requires WellFormed(polar) && WellFormed(azimu)
      modifies this
      ensures var quads := Replicate(azimu, |polar.weights|);
        && (r.Pass? <==> InitializeError(polar, quads).None?)
        && (r.Fail? ==> r.error == InitializeError(polar, quads).value && unchanged(this))
        && (r.Pass? ==>
              var padded := PreparedAll(quads);
              var sizes := LevelSizes(padded);
              var n := Offset(sizes, |sizes|);
              && weights == WeightsOf(ProductDirections(Normalized(polar, 2.0), padded, |padded|))
              && abscissae == AbscissaeOf(ProductDirections(Normalized(polar, 2.0), padded, |padded|))
              && mapDirections == DirectionMap(sizes, |sizes|)
              && facDiamondDifference == FactorsAfter(Resize(old(facDiamondDifference), n, 1.0), sizes, diamondDifference, |sizes|)
              && facStreamingOperator == FactorsAfter(Resize(old(facStreamingOperator), n, 0.0), sizes, streaming, |sizes|)
              && mToEllEmMap == old(mToEllEmMap))
    {
      var quads := Replicate(azimu, |polar.weights|);
      r := Initialize(polar, quads, diamondDifference, streaming);
    }

    /** The product loop: p-major, q-minor. */
    method BuildProduct(polar: GaussQuadrature, azimu: seq<GaussQuadrature>)
      requires ProductInputs(polar, azimu)
      modifies this
      ensures weights == WeightsOf(ProductDirections(polar, azimu, |azimu|))
      ensures abscissae == AbscissaeOf(ProductDirections(polar, azimu, |azimu|))
      ensures mapDirections == old(mapDirections) && mToEllEmMap == old(mToEllEmMap)
      ensures facDiamondDifference == old(facDiamondDifference) && facStreamingOperator == old(facStreamingOperator)
    {
      weights := [];
      abscissae := [];
      for p := 0 to |azimu|
        invariant weights == WeightsOf(ProductDirections(polar, azimu, p))
        invariant abscissae == AbscissaeOf(ProductDirections(polar, azimu, p))
        invariant mapDirections == old(mapDirections) && mToEllEmMap == old(mToEllEmMap)
        invariant facDiamondDifference == old(facDiamondDifference) && facStreamingOperator == old(facStreamingOperator)
      {
        AppendLevel(polar, azimu, p);
      }
    }

    /** The directions of polar level p, appended in order of q. */
    method AppendLevel(polar: GaussQuadrature, azimu: seq<GaussQuadrature>, p: nat)
      requires ProductInputs(polar, azimu) && p < |azimu|
      requires weights == WeightsOf(ProductDirections(polar, azimu, p))
      requires abscissae == AbscissaeOf(ProductDirections(polar, azimu, p))
      modifies this
      ensures weights == WeightsOf(ProductDirections(polar, azimu, p + 1))
      ensures abscissae == AbscissaeOf(ProductDirections(polar, azimu, p + 1))
      ensures mapDirections == old(mapDirections) && mToEllEmMap == old(mToEllEmMap)
      ensures facDiamondDifference == old(facDiamondDifference) && facStreamingOperator == old(facStreamingOperator)
    {
      var before := ProductDirections(polar, azimu, p);
      var az := azimu[p];
      assert before + LevelPrefix(polar, p, az, 0) == before;
      for q := 0 to |az.weights|
        invariant weights == WeightsOf(before + LevelPrefix(polar, p, az, q))
        invariant abscissae == AbscissaeOf(before + LevelPrefix(polar, p, az, q))
        invariant mapDirections == old(mapDirections) && mToEllEmMap == old(mToEllEmMap)
        invariant facDiamondDifference == old(facDiamondDifference) && facStreamingOperator == old(facStreamingOperator)
      {
        var d := Direction(polar.weights[p] * az.weights[q], az.abscissae[q], polar.abscissae[p]);
        assert d == DirectionAt(polar, p, az, q);
        ProjectionsSnoc(before + LevelPrefix(polar, p, az, q), d);
        assert before + LevelPrefix(polar, p, az, q + 1) == (before + LevelPrefix(polar, p, az, q)) + [d];
        weights := weights + [d.weight];
        abscissae := abscissae + [PhiTheta(d.cosPhi, d.cosTheta)];
      }
    }

    /** `map_directions_`: level p gets the indices ind0, ..., ind0 + n_p - 1, ind0 running over the levels. */
    method BuildDirectionMap(azimu: seq<GaussQuadrature>)
      modifies this
      ensures mapDirections == DirectionMap(LevelSizes(azimu), |azimu|)
      ensures weights == old(weights) && abscissae == old(abscissae) && mToEllEmMap == old(mToEllEmMap)
      ensures facDiamondDifference == old(facDiamondDifference) && facStreamingOperator == old(facStreamingOperator)
    {
      var sizes := LevelSizes(azimu);
      var ind0: nat := 0;
      mapDirections := map[];
      for p := 0 to |azimu|
        invariant ind0 == Offset(sizes, p)
        invariant mapDirections == DirectionMap(sizes, p)
        invariant weights == old(weights) && abscissae == old(abscissae) && mToEllEmMap == old(mToEllEmMap)
        invariant facDiamondDifference == old(facDiamondDifference) && facStreamingOperator == old(facStreamingOperator)
      {
        var vecDirections: seq<nat> := [];
        for q := 0 to |azimu[p].weights|
          invariant vecDirections == IndexRange(ind0, q)
        {
          vecDirections := vecDirections + [ind0 + q];
        }
        mapDirections := mapDirections[p := vecDirections];
        ind0 := ind0 + |azimu[p].weights|;
      }
    }

    /**
     * Resizes the factors to one per direction (new entries 1 and 0), then
     * sets the interior directions 1 .. n_p - 2 of each level p. `sizes`
     * are the level sizes the direction map was built from.
     */
    method InitializeParameters(ghost sizes: seq<nat>, diamondDifference: (nat, nat) -> real,
                                streaming: (nat, nat) -> real)
      requires mapDirections == DirectionMap(sizes, |sizes|) && |weights| == Offset(sizes, |sizes|)
      requires forall p :: 0 <= p < |sizes| ==> sizes[p] >= 1
      modifies this
      ensures weights == old(weights) && abscissae == old(abscissae)
      ensures facDiamondDifference ==
                FactorsAfter(Resize(old(facDiamondDifference), |weights|, 1.0), sizes, diamondDifference, |sizes|)
      ensures facStreamingOperator ==
                FactorsAfter(Resize(old(facStreamingOperator), |weights|, 0.0), sizes, streaming, |sizes|)
      ensures mapDirections == old(mapDirections) && mToEllEmMap == old(mToEllEmMap)
    {
      var initDiamond := Resize(facDiamondDifference, |weights|, 1.0);
      var initStreaming := Resize(facStreamingOperator, |weights|, 0.0);
      facDiamondDifference := initDiamond;
      facStreamingOperator := initStreaming;
      DirectionMapSize(sizes, |sizes|);
      for p := 0 to |mapDirections|
        invariant facDiamondDifference == FactorsAfter(initDiamond, sizes, diamondDifference, p)
        invariant facStreamingOperator == FactorsAfter(initStreaming, sizes, streaming, p)
        invariant weights == old(weights) && abscissae == old(abscissae)
        invariant mapDirections == old(mapDirections) && mToEllEmMap == old(mToEllEmMap)
      {
        DirectionMapAt(sizes, |sizes|, p);
        OffsetMonotone(sizes, p + 1, |sizes|);
        SetInteriorFactors(sizes, p, diamondDifference, streaming, initDiamond, initStreaming);
      }
    }

    /** The interior loop of one level p of `InitializeParameters`. */
    method SetInteriorFactors(ghost sizes: seq<nat>, p: nat, diamondDifference: (nat, nat) -> real,
                              streaming: (nat, nat) -> real, ghost initDiamond: seq<real>,
                              ghost initStreaming: seq<real>)
      requires p < |sizes| && sizes[p] >= 1 && Offset(sizes, |sizes|) <= |initDiamond| == |initStreaming|
      requires Offset(sizes, p + 1) <= Offset(sizes, |sizes|)
      requires p in mapDirections && mapDirections[p] == IndexRange(Offset(sizes, p), sizes[p])
      requires facDiamondDifference == FactorsAfter(initDiamond, sizes, diamondDifference, p)
      requires facStreamingOperator == FactorsAfter(initStreaming, sizes, streaming, p)
      modifies this
      ensures facDiamondDifference == FactorsAfter(initDiamond, sizes, diamondDifference, p + 1)
      ensures facStreamingOperator == FactorsAfter(initStreaming, sizes, streaming, p + 1)
      ensures weights == old(weights) && abscissae == old(abscissae)
      ensures mapDirections == old(mapDirections) && mToEllEmMap == old(mToEllEmMap)
    {
      var level := mapDirections[p];
      var first := Offset(sizes, p);
      ghost var startDiamond := facDiamondDifference;
      ghost var startStreaming := facStreamingOperator;
      var q := 1;
      while q < |level| - 1
        invariant 1 <= q <= InteriorEnd(sizes[p])
        invariant facDiamondDifference == LevelFactors(startDiamond, p, first, sizes[p], diamondDifference, q)
        invariant facStreamingOperator == LevelFactors(startStreaming, p, first, sizes[p], streaming, q)
        invariant weights == old(weights) && abscissae == old(abscissae)
        invariant mapDirections == old(mapDirections) && mToEllEmMap == old(mToEllEmMap)
      {
        IndexRangeAt(first, sizes[p], q);
        var k := level[q];
        facDiamondDifference := facDiamondDifference[k := diamondDifference(p, q)];
        facStreamingOperator := facStreamingOperator[k := streaming(p, q)];
        q := q + 1;
      }
    }

    /**
     * Fills the harmonic table once: pairs with l + m even in one
     * dimension, all pairs in two, an error for any other dimension. A
     * table that is already filled is left as it is.
     */
    method MakeHarmonicIndices(scatteringOrder: nat, dimension: int) returns (r: Outcome<HarmonicError>)
      modifies this
      ensures old(mToEllEmMap) != [] ==> r == Pass && mToEllEmMap == old(mToEllEmMap)
      ensures old(mToEllEmMap) == [] && dimension == 1 ==>
                r == Pass && mToEllEmMap == HarmonicTable(scatteringOrder, true)
      ensures old(mToEllEmMap) == [] && dimension == 2 ==>
                r == Pass && mToEllEmMap == HarmonicTable(scatteringOrder, false)
      ensures old(mToEllEmMap) == [] && dimension != 1 && dimension != 2 ==>
                r == Fail(InvalidDimension) && mToEllEmMap == []
      ensures weights == old(weights) && abscissae == old(abscissae) && mapDirections == old(mapDirections)
      ensures facDiamondDifference == old(facDiamondDifference) && facStreamingOperator == old(facStreamingOperator)
    {
      r := Pass;
      if |mToEllEmMap| == 0 {
        if dimension == 1 {
          AppendHarmonicRows(scatteringOrder, true);
        } else if dimension == 2 {
          AppendHarmonicRows(scatteringOrder, false);
        } else {
          r := Fail(InvalidDimension);
        }
      }
    }

    /** The loops over l = 0 .. L and m = 0 .. l, keeping the pairs `Kept` selects. */
    method AppendHarmonicRows(scatteringOrder: nat, evenOnly: bool)
      requires mToEllEmMap == []
      modifies this
      ensures mToEllEmMap == HarmonicTable(scatteringOrder, evenOnly)
      ensures weights == old(weights) && abscissae == old(abscissae) && mapDirections == old(mapDirections)
      ensures facDiamondDifference == old(facDiamondDifference) && facStreamingOperator == old(facStreamingOperator)
    {
      for l := 0 to scatteringOrder + 1
        invariant mToEllEmMap == HarmonicRows(l, evenOnly)
        invariant weights == old(weights) && abscissae == old(abscissae) && mapDirections == old(mapDirections)
        invariant facDiamondDifference == old(facDiamondDifference) && facStreamingOperator == old(facStreamingOperator)
      {
        ghost var before := mToEllEmMap;
        for m := 0 to l + 1
          invariant mToEllEmMap == before + RowPrefix(l, m, evenOnly)
          invariant weights == old(weights) && abscissae == old(abscissae) && mapDirections == old(mapDirections)
          invariant facDiamondDifference == old(facDiamondDifference) && facStreamingOperator == old(facStreamingOperator)
        {
          if !evenOnly || (l + m) % 2 == 0 {
            mToEllEmMap := mToEllEmMap + [HarmonicIndices(l, m)];
          }
        }
      }
    }
  }

  /** Whether some azimuthal quadrature is empty (the loop over all of them). */
  method AnyEmpty(azimu: seq<GaussQuadrature>) returns (b: bool)
    ensures b <==> exists p :: 0 <= p < |azimu| && |azimu[p].weights| == 0
  {
    for p := 0 to |azimu|
      invariant forall p' :: 0 <= p' < p ==> |azimu[p'].weights| != 0
    {
      if |azimu[p].weights| == 0 {
        return true;
      }
    }
    b := false;
  }

  /**
   * The loop over the azimuthal quadratures: each is checked (weights
   * summing to zero, then order), rescaled and padded before the next is looked at;
   * the first failing check is the error.
   */
  method CheckAndPad(azimu: seq<GaussQuadrature>) returns (err: Option<InitError>, padded: seq<GaussQuadrature>)
    requires AllWellFormed(azimu) && forall p :: 0 <= p < |azimu| ==> |azimu[p].weights| > 0
    ensures err == FirstAzimuthalError(azimu)
    ensures err.None? ==> padded == PreparedAll(azimu)
  {
    padded := azimu;
    for p := 0 to |azimu|
      invariant |padded| == |azimu|
      invariant forall p' :: 0 <= p' < p ==> AzimuthalError(azimu[p']).None? && padded[p'] == Prepared(azimu[p'])
      invariant forall p' :: p <= p' < |azimu| ==> padded[p'] == azimu[p']
    {
      var e := AzimuthalError(padded[p]);
      if e.Some? {
        return e, padded;
      }
      padded := padded[p := Prepared(padded[p])];
    }
    err := None;
  }
}
