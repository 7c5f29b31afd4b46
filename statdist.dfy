/**
 * Bhattacharyya distance and Kullback-Leibler divergence between two
 * axis-aligned multivariate uniform distributions.
 *
 * float64 is modelled by `real` (so min, max, subtraction and comparison are
 * exact), the infinities by `ExtReal`, `math.Log` by the parameter `log`, and a
 * uniform distribution by its bounds together with its entropy, which the
 * distribution computes itself.
 */
module StatDist {
  import opened ExtendedReal
  import opened Bounds

  /** A uniform distribution as these distances see it. */
  datatype Uniform = Uniform(bounds: seq<Bound>, entropy: real)

  /** The result of a distance call: a value, or the badSizeMismatch panic. */
  datatype Result<T> = Ok(value: T) | BadSizeMismatch

  // ---------------------------------------------------------------------------
  // Log-volume of the overlap
  // ---------------------------------------------------------------------------

  /** Sum, in axis order, of log(width of the overlap) over the first `n` axes. */
  function SumLogWidths(b1: seq<Bound>, b2: seq<Bound>, log: real -> real, n: nat): real
    requires n <= |b1| <= |b2|
  {
    if n == 0 then 0.0
    else SumLogWidths(b1, b2, log, n - 1) + log(Width(b1[n - 1], b2[n - 1]))
  }

  /** Sum, in axis order, of log(axis length) over the first `n` axes: the log-volume of a box. */
  function LogVolume(bs: seq<Bound>, log: real -> real, n: nat): real
    requires n <= |bs|
  {
    if n == 0 then 0.0
    else LogVolume(bs, log, n - 1) + log(Length(bs[n - 1]))
  }

  /**
   * The log of the volume of the box where both distributions have positive
   * density: minus infinity when some axis is disjoint, otherwise the sum of
   * the logs of the overlap widths.
   */
  function LogVolOverlap(b1: seq<Bound>, b2: seq<Bound>, log: real -> real): (v: ExtReal)
    requires |b1| <= |b2|
    ensures v != PosInf
    ensures ValidBounds(b1) && ValidBounds(b2) ==>
              (v == NegInf <==> exists i :: 0 <= i < |b1| && Width(b1[i], b2[i]) <= 0.0)
  {
    if AnyDisjoint(b1, b2) then NegInf else Fin(SumLogWidths(b1, b2, log, |b1|))
  }

  /**
   * unifLogVolOverlap: walks the axes of `b1` in order, pairing each with the
   * same axis of `b2`, returns minus infinity at the first disjoint axis and
   * otherwise accumulates log(width).
   */
  method UnifLogVolOverlap(b1: seq<Bound>, b2: seq<Bound>, log: real -> real) returns (v: ExtReal)
    requires |b1| <= |b2|
    ensures v == LogVolOverlap(b1, b2, log)
    ensures v != PosInf
    ensures v == NegInf <==> exists i :: 0 <= i < |b1| && (b1[i].Max <= b2[i].Min || b2[i].Max <= b1[i].Min)
    ensures v != NegInf ==> v == Fin(SumLogWidths(b1, b2, log, |b1|))
  {
    var logVolOverlap := 0.0;
    for dim := 0 to |b1|
      invariant forall i :: 0 <= i < dim ==> !Disjoint(b1[i], b2[i])
      invariant logVolOverlap == SumLogWidths(b1, b2, log, dim)
    {
      var v1, v2 := b1[dim], b2[dim];
      if v1.Max <= v2.Min || v2.Max <= v1.Min {
        assert Disjoint(b1[dim], b2[dim]);
        return NegInf;
      }
      var vol := MinOf(v1.Max, v2.Max) - MaxOf(v1.Min, v2.Min);
      logVolOverlap := logVolOverlap + log(vol);
    }
    return Fin(logVolOverlap);
  }

  lemma {:induction false} SumLogWidthsSymmetric(b1: seq<Bound>, b2: seq<Bound>, log: real -> real, n: nat)
    requires n <= |b1| == |b2|
    ensures SumLogWidths(b1, b2, log, n) == SumLogWidths(b2, b1, log, n)
  {
    if n > 0 {
      SumLogWidthsSymmetric(b1, b2, log, n - 1);
      OverlapSymmetric(b1[n - 1], b2[n - 1]);
    }
  }

  /** The overlap log-volume does not depend on the order of the two boxes. */
  lemma LogVolOverlapSymmetric(b1: seq<Bound>, b2: seq<Bound>, log: real -> real)
    requires |b1| == |b2|
    ensures LogVolOverlap(b1, b2, log) == LogVolOverlap(b2, b1, log)
  {
    SumLogWidthsSymmetric(b1, b2, log, |b1|);
    forall i | 0 <= i < |b1| ensures Disjoint(b1[i], b2[i]) == Disjoint(b2[i], b1[i]) {
      OverlapSymmetric(b1[i], b2[i]);
    }
  }

  /**
   * For valid boxes overlapping on the first `n` axes, the overlap's log-volume
   * is at most the mean of the two boxes' log-volumes, when `log` increases.
   */
  lemma {:induction false} OverlapLogVolumeBound(b1: seq<Bound>, b2: seq<Bound>, log: real -> real, n: nat)
    requires n <= |b1| == |b2|
    requires ValidBounds(b1) && ValidBounds(b2) && Increasing(log)
    requires forall i :: 0 <= i < n ==> !Disjoint(b1[i], b2[i])
    ensures 2.0 * SumLogWidths(b1, b2, log, n) <= LogVolume(b1, log, n) + LogVolume(b2, log, n)
  {
    if n > 0 {
      OverlapLogVolumeBound(b1, b2, log, n - 1);
      var v1, v2 := b1[n - 1], b2[n - 1];
      assert Valid(v1) && Valid(v2) && !Disjoint(v1, v2);
      var w := Width(v1, v2);
      assert log(w) <= log(Length(v1)) && log(w) <= log(Length(v2));
    }
  }

  /** When `bl` lies inside `br`, each overlap width is `bl`'s own axis length. */
  lemma {:induction false} NestedSumLogWidths(bl: seq<Bound>, br: seq<Bound>, log: real -> real, n: nat)
    requires n <= |bl| == |br|
    requires Contained(bl, br)
    ensures SumLogWidths(bl, br, log, n) == LogVolume(bl, log, n)
  {
    if n > 0 {
      NestedSumLogWidths(bl, br, log, n - 1);
      assert AxisContained(bl[n - 1], br[n - 1]);
      assert Overlap(bl[n - 1], br[n - 1]) == bl[n - 1];
    }
  }

  /** A valid box inside another has a log-volume at most the outer box's, when `log` increases. */
  lemma {:induction false} NestedLogVolumeBound(bl: seq<Bound>, br: seq<Bound>, log: real -> real, n: nat)
    requires n <= |bl| == |br|
    requires ValidBounds(bl) && Contained(bl, br) && Increasing(log)
    ensures LogVolume(bl, log, n) <= LogVolume(br, log, n)
  {
    if n > 0 {
      NestedLogVolumeBound(bl, br, log, n - 1);
      assert Valid(bl[n - 1]) && AxisContained(bl[n - 1], br[n - 1]);
      assert log(Length(bl[n - 1])) <= log(Length(br[n - 1]));
    }
  }

  /** `log` is non-decreasing on the positive reals, as math.Log is. */
  ghost predicate Increasing(log: real -> real) {
    forall x: real, y: real :: 0.0 < x <= y ==> log(x) <= log(y)
  }

  /**
   * The distribution's entropy is the log of its box's volume: the negative
   * log of its constant density.
   */
  predicate EntropyIsLogVolume(u: Uniform, log: real -> real) {
    u.entropy == LogVolume(u.bounds, log, |u.bounds|)
  }

  // ---------------------------------------------------------------------------
  // Bhattacharyya.DistUniform
  // ---------------------------------------------------------------------------

  /**
   * Bhattacharyya.DistUniform: minus the overlap log-volume plus half the sum
   * of the entropies. Mismatched dimensions are the badSizeMismatch panic; the
   * distance is plus infinity exactly when some axis is disjoint, and is never
   * minus infinity.
   */
  function BhattacharyyaDistUniform(l: Uniform, r: Uniform, log: real -> real): (d: Result<ExtReal>)
    ensures d == BadSizeMismatch <==> |l.bounds| != |r.bounds|
    ensures d.Ok? ==> d.value != NegInf
    ensures d.Ok? ==> (d.value == PosInf <==> AnyDisjoint(l.bounds, r.bounds))
    ensures d.Ok? && !AnyDisjoint(l.bounds, r.bounds) ==>
              d.value == Fin(-SumLogWidths(l.bounds, r.bounds, log, |l.bounds|) + 0.5 * (l.entropy + r.entropy))
  {
    if |l.bounds| != |r.bounds| then BadSizeMismatch
    else Ok(AddReal(Neg(LogVolOverlap(l.bounds, r.bounds, log)), 0.5 * (l.entropy + r.entropy)))
  }

  /** The Bhattacharyya distance is exactly symmetric, including the panic. */
  lemma BhattacharyyaSymmetric(l: Uniform, r: Uniform, log: real -> real)
    ensures BhattacharyyaDistUniform(l, r, log) == BhattacharyyaDistUniform(r, l, log)
  {
    if |l.bounds| == |r.bounds| {
      LogVolOverlapSymmetric(l.bounds, r.bounds, log);
    }
  }

  /**
   * When the entropies are the log-volumes of the boxes and `log` increases,
   * the Bhattacharyya distance is plus infinity or a finite value >= 0.
   */
  lemma BhattacharyyaNonNegative(l: Uniform, r: Uniform, log: real -> real)
    requires |l.bounds| == |r.bounds| && ValidBounds(l.bounds) && ValidBounds(r.bounds)
    requires Increasing(log) && EntropyIsLogVolume(l, log) && EntropyIsLogVolume(r, log)
    ensures var d := BhattacharyyaDistUniform(l, r, log);
            d == Ok(PosInf) || (d.Ok? && d.value.Fin? && d.value.val >= 0.0)
  {
    if !AnyDisjoint(l.bounds, r.bounds) {
      OverlapLogVolumeBound(l.bounds, r.bounds, log, |l.bounds|);
    }
  }

  // ---------------------------------------------------------------------------
  // KullbackLeibler.DistUniform
  // ---------------------------------------------------------------------------

  /**
   * The divergence from `l` to `r`: plus infinity unless `l`'s box lies inside
   * `r`'s on every axis, and otherwise the entropy of `r` minus that of `l`.
   */
  function KullbackLeiblerUniform(l: Uniform, r: Uniform): (d: Result<ExtReal>)
    ensures d == BadSizeMismatch <==> |l.bounds| != |r.bounds|
    ensures d != Ok(NegInf)
    ensures d.Ok? && d.value.Fin? ==>
              forall i :: 0 <= i < |l.bounds| ==> Overlap(l.bounds[i], r.bounds[i]) == l.bounds[i]
  {
    if |l.bounds| != |r.bounds| then BadSizeMismatch
    else if Contained(l.bounds, r.bounds) then Ok(Fin(r.entropy - l.entropy))
    else Ok(PosInf)
  }

  /**
   * KullbackLeibler.DistUniform: checks the axes in order, clearing
   * `contained` and stopping at the first axis of `l` that sticks out of `r`.
   */
  method KullbackLeiblerDistUniform(l: Uniform, r: Uniform) returns (d: Result<ExtReal>)
    ensures d == KullbackLeiblerUniform(l, r)
    ensures d == BadSizeMismatch <==> |l.bounds| != |r.bounds|
    ensures d == Ok(PosInf) <==>
              |l.bounds| == |r.bounds| &&
              exists i :: 0 <= i < |l.bounds| &&
                (r.bounds[i].Min > l.bounds[i].Min || r.bounds[i].Max < l.bounds[i].Max)
    ensures d.Ok? && d != Ok(PosInf) ==> d == Ok(Fin(r.entropy - l.entropy))
  {
    var bl, br := l.bounds, r.bounds;
    if |bl| != |br| {
      return BadSizeMismatch;
    }
    var contained := true;
    var i := 0;
    while i < |bl|
      invariant 0 <= i <= |bl|
      invariant forall j :: 0 <= j < i ==> AxisContained(bl[j], br[j])
    {
      if br[i].Min > bl[i].Min || br[i].Max < bl[i].Max {
        contained := false;
        break;
      }
      i := i + 1;
    }
    if !contained {
      assert !AxisContained(bl[i], br[i]);
      return Ok(PosInf);
    }
    var logPx := -l.entropy;
    var logQx := -r.entropy;
    return Ok(Fin(logPx - logQx));
  }

  /** The divergence of a distribution from itself is 0. */
  lemma KullbackLeiblerSelf(u: Uniform)
    ensures KullbackLeiblerUniform(u, u) == Ok(Fin(0.0))
  {
  }

  /**
   * For a valid `l`, the divergence is plus infinity exactly when some point
   * of `l`'s support lies outside `r`'s support.
   */
  lemma KullbackLeiblerInfiniteIffNotSubset(l: Uniform, r: Uniform)
    requires |l.bounds| == |r.bounds| && ValidBounds(l.bounds)
    ensures KullbackLeiblerUniform(l, r) == Ok(PosInf) <==>
              exists x :: InBox(x, l.bounds) && !InBox(x, r.bounds)
  {
    ContainedIffBoxSubset(l.bounds, r.bounds);
  }

  /**
   * When the entropies are the log-volumes of the boxes and `log` increases,
   * the divergence is plus infinity or a finite value >= 0.
   */
  lemma KullbackLeiblerNonNegative(l: Uniform, r: Uniform, log: real -> real)
    requires |l.bounds| == |r.bounds| && ValidBounds(l.bounds)
    requires Increasing(log) && EntropyIsLogVolume(l, log) && EntropyIsLogVolume(r, log)
    ensures var d := KullbackLeiblerUniform(l, r);
            d == Ok(PosInf) || (d.Ok? && d.value.Fin? && d.value.val >= 0.0)
  {
    if Contained(l.bounds, r.bounds) {
      NestedLogVolumeBound(l.bounds, r.bounds, log, |l.bounds|);
    }
  }

  /**
   * The divergence is finite in both directions only between distributions
   * with the same support, and then the two values cancel.
   */
  lemma KullbackLeiblerFiniteBothWays(l: Uniform, r: Uniform)
    requires KullbackLeiblerUniform(l, r).Ok? && KullbackLeiblerUniform(l, r).value.Fin?
    requires KullbackLeiblerUniform(r, l).Ok? && KullbackLeiblerUniform(r, l).value.Fin?
    ensures l.bounds == r.bounds
    ensures KullbackLeiblerUniform(l, r).value.val + KullbackLeiblerUniform(r, l).value.val == 0.0
  {
  }

  /**
   * The divergence is not symmetric: when `l` lies strictly inside `r`
   * it is finite from `l` to `r` and plus infinity from `r` to `l`.
   */
  lemma KullbackLeiblerAsymmetric(l: Uniform, r: Uniform)
    requires |l.bounds| == |r.bounds|
    requires Contained(l.bounds, r.bounds) && l.bounds != r.bounds
    ensures KullbackLeiblerUniform(l, r) == Ok(Fin(r.entropy - l.entropy))
    ensures KullbackLeiblerUniform(r, l) == Ok(PosInf)
  {
  }

  /**
   * When `l`'s box lies inside `r`'s and `l`'s entropy is its log-volume, the
   * overlap is `l`'s box, both distances are finite, and the Bhattacharyya
   * distance is half the Kullback-Leibler divergence.
   */
  lemma BhattacharyyaHalfOfNestedKL(l: Uniform, r: Uniform, log: real -> real)
    requires |l.bounds| == |r.bounds| && ValidBounds(l.bounds) && Contained(l.bounds, r.bounds)
    requires EntropyIsLogVolume(l, log)
    ensures KullbackLeiblerUniform(l, r) == Ok(Fin(r.entropy - l.entropy))
    ensures BhattacharyyaDistUniform(l, r, log) == Ok(Fin(0.5 * (r.entropy - l.entropy)))
  {
    ContainedOverlaps(l.bounds, r.bounds);
    NestedSumLogWidths(l.bounds, r.bounds, log, |l.bounds|);
  }

  /** The Bhattacharyya distance of a distribution from itself is 0. */
  lemma BhattacharyyaSelf(u: Uniform, log: real -> real)
    requires ValidBounds(u.bounds) && EntropyIsLogVolume(u, log)
    ensures BhattacharyyaDistUniform(u, u, log) == Ok(Fin(0.0))
  {
    BhattacharyyaHalfOfNestedKL(u, u, log);
  }

  // ---------------------------------------------------------------------------
  // The test cases' boxes
  // ---------------------------------------------------------------------------

  /** The Bhattacharyya test pair overlaps in a 4 by 13 box. */
  lemma BhattacharyyaTestCaseOverlap(log: real -> real)
    ensures LogVolOverlap([Bound(-3.0, 2.0), Bound(-5.0, 8.0)],
                          [Bound(-4.0, 1.0), Bound(-7.0, 10.0)], log) == Fin(log(4.0) + log(13.0))
  {
    var b1, b2 := [Bound(-3.0, 2.0), Bound(-5.0, 8.0)], [Bound(-4.0, 1.0), Bound(-7.0, 10.0)];
    assert !Disjoint(b1[0], b2[0]) && !Disjoint(b1[1], b2[1]);
    assert Width(b1[0], b2[0]) == 4.0 && Width(b1[1], b2[1]) == 13.0;
    assert !AnyDisjoint(b1, b2);
    assert SumLogWidths(b1, b2, log, 1) == log(4.0);
  }

  /**
   * In the Kullback-Leibler test pair the first box sticks out of the second
   * on axis 0 (-5 < -4), so the divergence is plus infinity.
   */
  lemma KullbackLeiblerTestCaseInfinite(ea: real, eb: real)
    ensures KullbackLeiblerUniform(Uniform([Bound(-5.0, 2.0), Bound(-7.0, 12.0)], ea),
                                   Uniform([Bound(-4.0, 1.0), Bound(-7.0, 10.0)], eb)) == Ok(PosInf)
  {
    var bl, br := [Bound(-5.0, 2.0), Bound(-7.0, 12.0)], [Bound(-4.0, 1.0), Bound(-7.0, 10.0)];
    assert !AxisContained(bl[0], br[0]);
  }
}
