# Uniform-pair distances of gonum/stat `distmv`, in Dafny

This project models the part of `distmv/statdist.go` that compares two
axis-aligned multivariate uniform distributions:

- `unifLogVolOverlap` walks the axes of two boxes in order. It returns minus
  infinity at the first axis where the intervals are disjoint, where merely
  touching counts as disjoint. Otherwise it sums the logs of the per-axis
  overlap widths.
- `Bhattacharyya.DistUniform` is minus that log-volume plus half the sum of the
  two entropies.
- `KullbackLeibler.DistUniform` checks, axis by axis, that `l`'s box lies inside
  `r`'s box. It returns plus infinity if not, and the entropy difference
  otherwise.

Modelling choices:

- float64 is modelled as `real`. Min, max, subtraction and comparison are then
  exact, and the result type `ExtReal` (`NegInf | Fin | PosInf`) carries the
  two infinities that the code returns.
- `math.Log` is a parameter `log: real -> real` of every member that uses it.
  Some lemmas assume only that it does not decrease on the positive reals
  (`Increasing`).
- A distribution is `Uniform(bounds, entropy)`. The bounds are the
  distribution's `Bound` list. The entropy is the value its `Entropy` method
  returns; that method is computed outside this code, so it is an input here.
  Four lemmas assume that the entropy is the log of the box's volume
  (`EntropyIsLogVolume`). The comment at `distmv/statdist.go:68-70` relies on
  this, since for a uniform distribution it is minus the log of the density.
- The `badSizeMismatch` panic of both methods is the `BadSizeMismatch` result.
- `unifLogVolOverlap` indexes `b2` by the axes of `b1`, so it requires
  `|b1| <= |b2|`. Its only caller, `Bhattacharyya.DistUniform`, checks that the
  lengths are equal at `distmv/statdist.go:63` before calling it.
- The `Bhattacharyya` and `KullbackLeibler` types are empty structs, so their
  methods are plain module-level members. The two loops are methods: the
  `for … range` loop with its early return, and the loop that clears a flag
  and breaks. Each is proved equal to a specification function
  (`LogVolOverlap`, `KullbackLeiblerUniform`), and lemmas state the properties of
  those functions.

The Kullback-Leibler test pair in `distmv/statdist_test.go:140-141` is not
nested: `-5 < -4` on axis 0. So `DistUniform` returns plus infinity for it,
and `KullbackLeiblerTestCaseInfinite` shows this. The sampling estimate that
the comparison at `distmv/statdist_test.go:149` uses is then also plus
infinity, assuming `Uniform.LogProb` returns minus infinity outside the
support (that code is not part of this model). Read as text, the comparison
accepts a result of plus infinity or NaN, since `Inf - Inf` is NaN and
`NaN > tol` is false. It rejects every finite result, so it never compares
two finite numbers.

## Model

| member | source | states |
|---|---|---|
| `Bounds.MinOf` | distmv/statdist.go:88 | `math.Min` over the reals: the result is at most both arguments and is one of them |
| `Bounds.MaxOf` | distmv/statdist.go:88 | `math.Max` over the reals: the result is at least both arguments and is one of them |
| `Bounds.Overlap` | distmv/statdist.go:78-88 | the overlap `[max(Mins), min(Maxs)]` lies inside both axes, and each of its ends is an end of one input; for valid axes it is a proper interval exactly when the axes are not disjoint in the sense of line 85 |
| `Bounds.Width` | distmv/statdist.go:85-88 | the overlap width is strictly positive and at most either axis's length when the valid axes are not disjoint, and is not positive when they are disjoint |
| `Bounds.OverlapIsIntersection` | distmv/statdist.go:78-79 | a point is in the overlap iff it is in both axes, so the overlap is where both densities are positive |
| `Bounds.OverlapSymmetric` | distmv/statdist.go:85-88 | the disjointness test, the overlap and its width do not depend on the order of the two axes |
| `Bounds.Disjoint` | distmv/statdist.go:84-85 | for valid axes, the test of line 85 holds exactly when no point lies strictly inside both intervals, so touching intervals are disjoint |
| `Bounds.AxisContained` | distmv/statdist.go:146 | for a valid inner axis, the negation of the test of line 146 holds exactly when every point of the inner interval is in the outer one |
| `Bounds.ContainedIffBoxSubset` | distmv/statdist.go:142-150 | for a valid `l`, the per-axis test of line 146 holds on every axis iff every point of `l`'s box is in `r`'s box |
| `Bounds.ContainedAntisymmetric` | distmv/statdist.go:144-150 | two boxes that each pass the containment test against the other are equal |
| `Bounds.ContainedOverlaps` | distmv/statdist.go:85-88 | a valid box inside another is disjoint from it on no axis, and each axis's overlap is the inner axis |
| `ExtendedReal.Neg` | distmv/statdist.go:75 | float negation of the overlap log-volume: finite values are negated, and minus infinity becomes plus infinity and the reverse |
| `ExtendedReal.AddReal` | distmv/statdist.go:75 | adding the finite half-entropy sum: finite values are shifted by it, and an infinity is kept as it is |
| `StatDist.LogVolOverlap` | distmv/statdist.go:78-92 | the definition the loop is proved equal to: never plus infinity, and for valid boxes minus infinity exactly when some axis's overlap width is `<= 0` |
| `StatDist.UnifLogVolOverlap` | distmv/statdist.go:80-92 | returns minus infinity iff some axis has `v1.Max <= v2.Min` or `v2.Max <= v1.Min`; otherwise returns the sum over axes, in order, of log(overlap width); never plus infinity over the reals (see Left out on overflow) |
| `StatDist.SumLogWidthsSymmetric` | distmv/statdist.go:88-89 | the accumulated sum of log widths is the same with the boxes swapped |
| `StatDist.LogVolOverlapSymmetric` | distmv/statdist.go:80-92 | the overlap log-volume is the same with the boxes swapped |
| `StatDist.OverlapLogVolumeBound` | distmv/statdist.go:66-75 | for valid, overlapping boxes and an increasing log, twice the overlap log-volume is at most the sum of the boxes' log-volumes |
| `StatDist.NestedSumLogWidths` | distmv/statdist.go:88-89 | when `l`'s box lies in `r`'s, the sum of log overlap widths is `l`'s own log-volume |
| `StatDist.NestedLogVolumeBound` | distmv/statdist.go:155-163 | for a valid inner box and an increasing log, the inner box's log-volume is at most the outer box's log-volume |
| `StatDist.BhattacharyyaDistUniform` | distmv/statdist.go:62-76 | panics (`BadSizeMismatch`) iff the bound lists differ in length; otherwise plus infinity iff some axis is disjoint, never minus infinity, and when finite equal to `-Σ log(width) + 0.5*(Entropy(l)+Entropy(r))` |
| `StatDist.BhattacharyyaSymmetric` | distmv/statdist_test.go:75-79 | `DistUniform(l, r) == DistUniform(r, l)` exactly, for every pair, panic included |
| `StatDist.BhattacharyyaNonNegative` | distmv/statdist.go:66-75 | with entropies equal to log-volumes and an increasing log, the distance is plus infinity or a finite value `>= 0` |
| `StatDist.KullbackLeiblerUniform` | distmv/statdist.go:135-164 | the definition the loop is proved equal to: `BadSizeMismatch` iff the lengths differ, never minus infinity, and when finite each axis's overlap with `r` is `l`'s own axis |
| `StatDist.KullbackLeiblerDistUniform` | distmv/statdist.go:135-164 | panics iff the lengths differ; plus infinity iff on some axis `br[i].Min > bl[i].Min` or `br[i].Max < bl[i].Max`; otherwise `Entropy(r) - Entropy(l)` |
| `StatDist.KullbackLeiblerSelf` | distmv/statdist.go:144-163 | the divergence of a distribution from itself is 0 |
| `StatDist.KullbackLeiblerInfiniteIffNotSubset` | distmv/statdist.go:142-153 | for a valid `l`, the divergence is plus infinity iff some point of `l`'s support lies outside `r`'s support |
| `StatDist.KullbackLeiblerNonNegative` | distmv/statdist.go:155-163 | with entropies equal to log-volumes and an increasing log, the divergence is plus infinity or a finite value `>= 0` |
| `StatDist.KullbackLeiblerFiniteBothWays` | distmv/statdist.go:97-100 | if the divergence is finite in both directions, the bounds are equal and the two values sum to 0 |
| `StatDist.KullbackLeiblerAsymmetric` | distmv/statdist.go:97-100 | not symmetric: for `l` strictly inside `r` (contained, bounds not equal) the divergence from `l` to `r` is `Entropy(r) - Entropy(l)`, and from `r` to `l` it is plus infinity |
| `StatDist.BhattacharyyaHalfOfNestedKL` | distmv/statdist.go:72-75 | when `l`'s valid box lies in `r`'s and `l`'s entropy is its log-volume, both are finite and the Bhattacharyya distance is half the divergence |
| `StatDist.BhattacharyyaSelf` | distmv/statdist.go:72-75 | the Bhattacharyya distance of a valid distribution from itself is 0 when its entropy is its log-volume |
| `StatDist.BhattacharyyaTestCaseOverlap` | distmv/statdist_test.go:63-64 | the test pair overlaps in a 4 by 13 box: the log-volume is `log(4) + log(13)` |
| `StatDist.KullbackLeiblerTestCaseInfinite` | distmv/statdist_test.go:140-141 | the test pair is not nested, so the divergence is plus infinity whatever the entropies |

## Left out

- `Bhattacharyya.DistNormal` and `KullbackLeibler.DistNormal` (`distmv/statdist.go:37-58`, `108-131`): dense floating-point linear algebra done entirely by the matrix library (Cholesky factorisation, log-determinant, triangular solve, trace, Mahalanobis distance). That library is not part of this model.
- `ExpectedFixed` (`dist/expected.go`): a closure passed to an external fixed-node quadrature routine, with a concurrency hint. It has no logic of its own.
- `distmv/interface.go`: only interface declarations.
- `bhattacharryaSample` and `klSample` (`distmv/statdist_test.go:85-97`, `156-166`): Monte-Carlo estimators over random samples.
- Floating-point rounding and overflow: reals stand for float64, so the order of additions does not matter here. The accumulation still follows the loop's axis order. Overflow is not modelled. In float64, an overlap width above the largest finite value (two boxes spanning about `[-1e308, 1e308]` on one axis) makes `math.Log` return plus infinity. `unifLogVolOverlap` then returns plus infinity, and `Bhattacharyya.DistUniform` then returns minus infinity, or NaN if an entropy also overflows. The model's "never plus infinity" and "never minus infinity" hold only over the reals, and NaN has no value in the model.
- `Uniform.Entropy` and the `Uniform` constructor are not part of this model. Entropies are inputs, and `Min < Max` on every axis (`ValidBounds`) is a hypothesis wherever a property needs it.
- `StatDist.BhattacharyyaDistUniform`: "never minus infinity" holds over the reals only; float64 overflow of an overlap width (see above) is not modelled.
- `StatDist.UnifLogVolOverlap`: "never plus infinity" holds over the reals only, for the same reason. Also, the index-out-of-range panic for a `b2` shorter than `b1` is a precondition, not an error result, because no caller can reach it.
