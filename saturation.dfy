/**
 * The saturating arithmetic of the interpreter's assignment and operator
 * nodes. Each visitor clamps differently, and the differences are kept:
 *  - `+=`, `-=`, `*=`, `/=` and flip force the stored result into [1, 255];
 *  - plain `=` only raises results below 1;
 *  - the binary `+`, `*` and `/` nodes only cap at 255, `-` only raises to 1;
 *  - an integer literal only caps at 255;
 *  - clear stores 1 and fill stores 255.
 * All arithmetic is Java `long` arithmetic and wraps before it is clamped.
 */
module Saturation {
  import opened Wrappers
  import opened JavaLong

  const LOW: int := 1
  const HIGH: int := 255

  /** The two-sided clamp of the compound assignment forms. */
  function Clamp(v: int): (r: int)
    ensures LOW <= r <= HIGH
    ensures LOW <= v <= HIGH ==> r == v
  {
    if v < LOW then LOW else if v > HIGH then HIGH else v
  }

  /** Only the upper bound: binary `+`, `*`, `/` and integer literals. */
  function CapHigh(v: int): (r: int)
    ensures r <= HIGH
    ensures v <= HIGH ==> r == v
  {
    if v > HIGH then HIGH else v
  }

  /** Only the lower bound: binary `-` and plain assignment. */
  function RaiseLow(v: int): (r: int)
    ensures r >= LOW
    ensures v >= LOW ==> r == v
  {
    if v < LOW then LOW else v
  }

  datatype CompoundOp = AddTo | SubFrom | MulBy | DivBy

  /** The raw `long` result of `x op e` before any clamp; `None` is a division by zero. */
  function Apply(op: CompoundOp, x: Long, e: Long): Option<Long>
  {
    match op
    case AddTo => Some(Add(x, e))
    case SubFrom => Some(Sub(x, e))
    case MulBy => Some(Mul(x, e))
    case DivBy => Div(x, e)
  }

  /** The value `x op= e` stores. */
  function CompoundStore(op: CompoundOp, x: Long, e: Long): (r: Option<Long>)
    ensures r.Some? ==> LOW <= r.value <= HIGH
    ensures r.None? <==> op == DivBy && e == 0
  {
    match Apply(op, x, e)
    case None => None
    case Some(t) => Some(Clamp(t))
  }

  /** The value flip stores: `255 - x`, clamped. */
  function FlipStore(x: Long): (r: Long)
    ensures LOW <= r <= HIGH
  {
    Clamp(Sub(HIGH, x))
  }

  /** The value plain assignment stores. */
  function AssignStore(v: Long): (r: Long)
    ensures r >= LOW
  {
    RaiseLow(v)
  }

  /** A binary operator node's value; `None` is a division by zero. */
  function Operator(op: CompoundOp, a: Long, b: Long): (r: Option<Long>)
    ensures r.None? <==> op == DivBy && b == 0
    ensures r.Some? && op != SubFrom ==> r.value <= HIGH
    ensures r.Some? && op == SubFrom ==> r.value >= LOW
  {
    match Apply(op, a, b)
    case None => None
    case Some(t) => Some(if op == SubFrom then RaiseLow(t) else CapHigh(t))
  }

  /** The value an integer literal evaluates to, given the parsed value, and the value its node then caches. */
  function Literal(parsed: Long): (r: Long)
    ensures r <= HIGH
  {
    CapHigh(parsed)
  }

  const CLEARED: Long := 1
  const FILLED: Long := 255

  // ---------------------------------------------------------------------
  // Properties

  /** The clamp is the composition of the two one-sided clamps, in either order. */
  lemma ClampIsBothBounds(v: int)
    ensures Clamp(v) == CapHigh(RaiseLow(v)) == RaiseLow(CapHigh(v))
  {
  }

  /** The clamp sends everything below 1 to 1 and everything above 255 to 255, and is idempotent and monotone. */
  lemma ClampLaws(v: int, w: int)
    ensures v < LOW ==> Clamp(v) == LOW
    ensures v > HIGH ==> Clamp(v) == HIGH
    ensures Clamp(Clamp(v)) == Clamp(v)
    ensures v <= w ==> Clamp(v) <= Clamp(w)
  {
  }

  /** The compound forms clamp the wrapped result, not the operands: from 250, `+= 20` stores 255. */
  lemma CompoundClampsResult(op: CompoundOp, x: Long, e: Long)
    requires Apply(op, x, e).Some?
    ensures CompoundStore(op, x, e) == Some(Clamp(Apply(op, x, e).value))
    ensures CompoundStore(AddTo, 250, 20) == Some(255)
  {
  }

  /** Storing an in-range result again through any compound form with a neutral operand keeps it. */
  lemma CompoundNeutral(x: Long)
    requires LOW <= x <= HIGH
    ensures CompoundStore(AddTo, x, 0) == Some(x)
    ensures CompoundStore(SubFrom, x, 0) == Some(x)
    ensures CompoundStore(MulBy, x, 1) == Some(x)
    ensures CompoundStore(DivBy, x, 1) == Some(x)
  {
    assert Quot(x, 1) == x;
  }

  /** Flip is `255 - x` on [1, 254], so its extreme values are 1 (from 255) and 254 (from 1), and it undoes itself there. */
  lemma FlipLaws(x: Long)
    ensures FlipStore(255) == 1 && FlipStore(1) == 254
    ensures LOW <= x < HIGH ==> FlipStore(x) == HIGH - x && FlipStore(FlipStore(x)) == x
    ensures x >= HIGH ==> FlipStore(x) == LOW
  {
  }

  /** Plain assignment has no upper clamp of its own: 9000 is stored as is, -50 as 1. */
  lemma AssignOnlyRaises()
    ensures AssignStore(9000) == 9000
    ensures AssignStore(-50) == 1
    ensures exists v: Long :: AssignStore(v) > HIGH
  {
    assert AssignStore(9000) > HIGH;
  }

  /** The operator nodes are one-sided: `-` can exceed 255 and `+`, `*`, `/` can go below 1. */
  lemma OperatorsAreOneSided()
    ensures exists a: Long, b: Long :: Operator(SubFrom, a, b).value > HIGH
    ensures exists a: Long, b: Long :: Operator(AddTo, a, b).value < LOW
    ensures exists a: Long, b: Long :: Operator(MulBy, a, b).value < LOW
    ensures exists a: Long, b: Long :: b != 0 && Operator(DivBy, a, b).value < LOW
  {
    assert Operator(SubFrom, 255, -255).value == 510;
    assert Operator(AddTo, -5, 1).value == -4;
    assert Operator(MulBy, -5, 1).value == -5;
    assert Quot(-5, 1) == -5;
    assert Operator(DivBy, -5, 1).value == -5;
  }

  /** A literal above 255 evaluates to 255; below 1 it is returned unchanged; evaluating the cached value again changes nothing. */
  lemma LiteralLaws(v: Long)
    ensures v > HIGH ==> Literal(v) == HIGH
    ensures v <= HIGH ==> Literal(v) == v
    ensures Literal(Literal(v)) == Literal(v)
  {
  }

  /** Wrap-around happens before the clamp: a product past `long` range can come out positive and be capped. */
  lemma WrapBeforeClamp()
    ensures Operator(MulBy, MIN, -1) == Some(MIN)
    ensures CompoundStore(MulBy, MIN, -1) == Some(LOW)
  {
    assert Mul(MIN, -1) == MIN;
  }
}
