/**
 * Axis bounds of a multivariate uniform distribution and the per-axis
 * interval geometry that both uniform-pair distances are built from.
 */
module Bounds {

  /** One axis of a uniform distribution's support: the interval [Min, Max]. */
  datatype Bound = Bound(Min: real, Max: real)

  /** The invariant the Uniform constructor establishes for every axis. */
  predicate Valid(b: Bound) {
    b.Min < b.Max
  }

  predicate ValidBounds(bs: seq<Bound>) {
    forall i :: 0 <= i < |bs| ==> Valid(bs[i])
  }

  function Length(b: Bound): real {
    b.Max - b.Min
  }

  predicate Contains(b: Bound, x: real) {
    b.Min <= x <= b.Max
  }

  /** `x` lies strictly inside the interval, where a uniform density is positive. */
  predicate Interior(b: Bound, x: real) {
    b.Min < x < b.Max
  }

  /** math.Min and math.Max on finite values. */
  function MinOf(a: real, b: real): (m: real)
    ensures m <= a && m <= b && (m == a || m == b)
  {
    if a <= b then a else b
  }

  function MaxOf(a: real, b: real): (m: real)
    ensures m >= a && m >= b && (m == a || m == b)
  {
    if a >= b then a else b
  }

  /**
   * The test unifLogVolOverlap uses to give up on an axis. For valid axes it
   * holds exactly when no point lies strictly inside both, so intervals that
   * only touch (one's Max equal to the other's Min) count as disjoint.
   */
  function Disjoint(v1: Bound, v2: Bound): (d: bool)
    ensures Valid(v1) && Valid(v2) ==>
              (d <==> forall x :: !(Interior(v1, x) && Interior(v2, x)))
  {
    var m := (MaxOf(v1.Min, v2.Min) + MinOf(v1.Max, v2.Max)) / 2.0;
    var d := v1.Max <= v2.Min || v2.Max <= v1.Min;
    assert Valid(v1) && Valid(v2) && !d ==> Interior(v1, m) && Interior(v2, m);
    d
  }

  /**
   * The overlap of two axes, [max of the Mins, min of the Maxes]: the part of
   * the axis where both distributions have positive density. It lies inside
   * both inputs, each end is an end of one of them, and for valid inputs it is
   * a proper interval exactly when the axes are not disjoint.
   */
  function Overlap(v1: Bound, v2: Bound): (o: Bound)
    ensures v1.Min <= o.Min && v2.Min <= o.Min && o.Max <= v1.Max && o.Max <= v2.Max
    ensures (o.Min == v1.Min || o.Min == v2.Min) && (o.Max == v1.Max || o.Max == v2.Max)
    ensures Valid(v1) && Valid(v2) ==> (Valid(o) <==> !Disjoint(v1, v2))
  {
    Bound(MaxOf(v1.Min, v2.Min), MinOf(v1.Max, v2.Max))
  }

  /**
   * The overlap width of one axis. When the axes are not disjoint it is
   * strictly positive and at most the length of either axis; when they are
   * disjoint it is not positive.
   */
  function Width(v1: Bound, v2: Bound): (w: real)
    ensures Valid(v1) && Valid(v2) && !Disjoint(v1, v2) ==>
              0.0 < w && w <= Length(v1) && w <= Length(v2)
    ensures Disjoint(v1, v2) ==> w <= 0.0
  {
    Length(Overlap(v1, v2))
  }

  lemma OverlapIsIntersection(v1: Bound, v2: Bound, x: real)
    ensures Contains(Overlap(v1, v2), x) <==> Contains(v1, x) && Contains(v2, x)
  {
  }

  lemma OverlapSymmetric(v1: Bound, v2: Bound)
    ensures Overlap(v1, v2) == Overlap(v2, v1)
    ensures Width(v1, v2) == Width(v2, v1)
    ensures Disjoint(v1, v2) == Disjoint(v2, v1)
  {
  }

  /** Some axis of the two boxes is disjoint (only the first |b1| axes are looked at). */
  predicate AnyDisjoint(b1: seq<Bound>, b2: seq<Bound>)
    requires |b1| <= |b2|
  {
    exists i :: 0 <= i < |b1| && Disjoint(b1[i], b2[i])
  }

  /**
   * The per-axis test of KullbackLeibler.DistUniform. For a valid `inner` it
   * holds exactly when every point of `inner` is a point of `outer`.
   */
  function AxisContained(inner: Bound, outer: Bound): (c: bool)
    ensures Valid(inner) ==> (c <==> forall x :: Contains(inner, x) ==> Contains(outer, x))
  {
    var c := !(outer.Min > inner.Min || outer.Max < inner.Max);
    assert Valid(inner) && outer.Min > inner.Min ==> Contains(inner, inner.Min) && !Contains(outer, inner.Min);
    assert Valid(inner) && outer.Max < inner.Max ==> Contains(inner, inner.Max) && !Contains(outer, inner.Max);
    c
  }

  predicate Contained(bl: seq<Bound>, br: seq<Bound>)
    requires |bl| <= |br|
  {
    forall i :: 0 <= i < |bl| ==> AxisContained(bl[i], br[i])
  }

  /** The point `x` lies in the closed box `bs`. */
  predicate InBox(x: seq<real>, bs: seq<Bound>) {
    |x| == |bs| && forall i :: 0 <= i < |bs| ==> Contains(bs[i], x[i])
  }

  /** The corner of a box made of every axis's Min. */
  function Corner(bs: seq<Bound>): (x: seq<real>)
    ensures |x| == |bs|
    ensures forall j :: 0 <= j < |bs| ==> x[j] == bs[j].Min
  {
    seq(|bs|, j requires 0 <= j < |bs| => bs[j].Min)
  }

  /**
   * The axis-by-axis containment test is the same as containment of the boxes
   * as point sets: every point of `bl`'s box is in `br`'s box.
   */
  lemma ContainedIffBoxSubset(bl: seq<Bound>, br: seq<Bound>)
    requires |bl| == |br| && ValidBounds(bl)
    ensures Contained(bl, br) <==> (forall x :: InBox(x, bl) ==> InBox(x, br))
  {
    if !Contained(bl, br) {
      var i :| 0 <= i < |bl| && !AxisContained(bl[i], br[i]);
      var x := Corner(bl)[i := if br[i].Min > bl[i].Min then bl[i].Min else bl[i].Max];
      assert Valid(bl[i]);
      forall j | 0 <= j < |bl| ensures Contains(bl[j], x[j]) {
        assert Valid(bl[j]);
      }
      assert InBox(x, bl);
      assert !Contains(br[i], x[i]);
    }
  }

  /** Boxes contained in each other are the same box. */
  lemma ContainedAntisymmetric(b1: seq<Bound>, b2: seq<Bound>)
    requires |b1| == |b2|
    requires Contained(b1, b2) && Contained(b2, b1)
    ensures b1 == b2
  {
  }

  /**
   * A valid box inside another overlaps it on every axis, and the overlap of
   * each axis is the inner axis itself.
   */
  lemma ContainedOverlaps(bl: seq<Bound>, br: seq<Bound>)
    requires |bl| == |br| && ValidBounds(bl) && Contained(bl, br)
    ensures !AnyDisjoint(bl, br)
    ensures forall i :: 0 <= i < |bl| ==> Overlap(bl[i], br[i]) == bl[i]
  {
  }
}
