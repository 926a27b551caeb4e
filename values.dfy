/**
 * The interpreter's runtime values and the exceptions it can raise. The
 * value classes themselves are not part of this model; Integer, Boolean and
 * String values are taken with their usual meaning (Integer is a Java
 * `long`), and floating-point Rational values are left out.
 */
module Values {
  import opened Wrappers
  import opened JavaLong

  datatype Value = Int(i: Long) | Bool(b: bool) | Str(s: string)

  /** The kinds of exception the model distinguishes. */
  datatype Error =
    | NotBoolean          // an if or for test that is not Boolean (semantic error)
    | FunctionExists      // a function defined twice at one level
    | FunctionUndefined   // a call or invocation of an unknown function
    | VariableUndefined   // a dereference of an unknown name
    | NoReturnValue       // a function without a return value invoked in an expression
    | ClassCast           // a cast to an Integer value that fails
    | TypeMismatch        // a value operation applied to operands it does not support
    | DivideByZero        // Java ArithmeticException
    | NumberFormat        // Long.parseLong rejects a literal token
    | NullPointer         // a Java null reached: an unnamed array slot or a reference without a value
    | ArrayNotFound       // update of an unknown array: reported, then colour[-1] is indexed
    | IndexOutOfBounds    // a light index or row outside the 1000-slot arrays
    | IllegalArgument     // Thread.sleep of a negative duration
    | ArityMismatch       // raised by the invocation machinery for a wrong argument count
    | OutOfFuel           // the model's bound on for-loop iterations was reached

  /** `stringValue()`: the text of a value, as used for array names and RGB records. */
  function StringValue(v: Value): string
  {
    match v
    case Int(i) => ToString(i)
    case Bool(b) => if b then "true" else "false"
    case Str(s) => s
  }

  datatype CmpOp = Eq | Neq | Lt | Lte | Gt | Gte

  /** Comparison of two values: numeric order on Integers, equality on values of one kind. */
  function Compare(op: CmpOp, a: Value, b: Value): (r: Result<Value, Error>)
    ensures r.Ok? ==> r.value.Bool?
    ensures r.Err? ==> r.error == TypeMismatch
    ensures a.Int? && b.Int? ==> r.Ok?
    ensures r.Ok? && op == Eq ==> r.value == Bool(a == b)
    ensures r.Ok? && op == Neq ==> r.value == Bool(a != b)
  {
    match (a, b)
    case (Int(x), Int(y)) =>
      Ok(Bool(match op
        case Eq => x == y
        case Neq => x != y
        case Lt => x < y
        case Lte => x <= y
        case Gt => x > y
        case Gte => x >= y))
    case _ =>
      if (op == Eq || op == Neq) && ((a.Bool? && b.Bool?) || (a.Str? && b.Str?)) then
        Ok(Bool((a == b) == (op == Eq)))
      else Err(TypeMismatch)
  }

  /**
   * The order comparisons are mirror images (`a < b` is `b > a`, `a <= b`
   * is `b >= a`), `!=` is the negation of `==`, and `>=` of `<`: each pair
   * fails together or yields opposite answers.
   */
  lemma CompareDuals(a: Value, b: Value)
    ensures Compare(Lt, a, b) == Compare(Gt, b, a)
    ensures Compare(Lte, a, b) == Compare(Gte, b, a)
    ensures Compare(Eq, a, b).Ok? <==> Compare(Neq, a, b).Ok?
    ensures Compare(Eq, a, b).Ok? ==> Compare(Neq, a, b).value.b == !Compare(Eq, a, b).value.b
    ensures Compare(Lt, a, b).Ok? <==> Compare(Gte, a, b).Ok?
    ensures Compare(Lt, a, b).Ok? ==> Compare(Gte, a, b).value.b == !Compare(Lt, a, b).value.b
  {
  }
}
