/**
 * The values a float64 distance can take in the uniform-pair code, read over
 * the reals: a finite number or one of the two infinities that `math.Inf`
 * produces. With real arithmetic nothing overflows and only finite entropies
 * are added to an infinity, so NaN cannot arise and has no constructor.
 */
module ExtendedReal {

  datatype ExtReal = NegInf | Fin(val: real) | PosInf

  /** Unary minus, as float64 negation acts on the infinities. */
  function Neg(x: ExtReal): (y: ExtReal)
    ensures y.Fin? <==> x.Fin?
    ensures x.Fin? ==> y.val == -x.val
    ensures y == PosInf <==> x == NegInf
    ensures y == NegInf <==> x == PosInf
  {
    match x
    case NegInf => PosInf
    case Fin(v) => Fin(-v)
    case PosInf => NegInf
  }

  /** `x + c` for a finite `c`: an infinity absorbs any finite addend. */
  function AddReal(x: ExtReal, c: real): (y: ExtReal)
    ensures y.Fin? <==> x.Fin?
    ensures x.Fin? ==> y.val == x.val + c
    ensures !x.Fin? ==> y == x
  {
    match x
    case Fin(v) => Fin(v + c)
    case _ => x
  }
}
