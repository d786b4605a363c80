/** The four operations of the calculator on exact real numbers, and the one
    error the calculator can raise (a ValueError on a zero divisor). */
module Arithmetic {

  /** The operator of one calculation, rendered as "+", "-", "*" or "/". */
  datatype Op = Plus | Minus | Times | Over

  /** The exception the calculator raises, with its message. */
  datatype Error = ValueError(message: string)

  const DivideByZeroMessage: string := "Cannot divide by zero"

  datatype Result<T> = Ok(value: T) | Err(error: Error)

  /** The value of `a op b`, or the error raised for a zero divisor.
      Only a division by zero fails; a quotient times its divisor gives back
      the dividend. */
  function Evaluate(op: Op, a: real, b: real): (r: Result<real>)
    ensures r.Err? <==> op == Over && b == 0.0
    ensures r.Err? ==> r.error == ValueError(DivideByZeroMessage)
    ensures r.Ok? && op == Over ==> r.value * b == a
  {
    match op
    case Plus => Ok(a + b)
    case Minus => Ok(a - b)
    case Times => Ok(a * b)
    case Over => if b == 0.0 then Err(ValueError(DivideByZeroMessage)) else Ok(a / b)
  }

  /** Subtraction undoes addition, and division by a non-zero number undoes
      multiplication and is undone by it. */
  lemma Inverses(a: real, b: real)
    ensures Evaluate(Minus, Evaluate(Plus, a, b).value, b) == Ok(a)
    ensures Evaluate(Plus, Evaluate(Minus, a, b).value, b) == Ok(a)
    ensures b != 0.0 ==> Evaluate(Over, Evaluate(Times, a, b).value, b) == Ok(a)
    ensures b != 0.0 ==> Evaluate(Times, Evaluate(Over, a, b).value, b) == Ok(a)
  {
    if b != 0.0 {
      assert (a * b) / b == a;
      assert Evaluate(Over, Evaluate(Times, a, b).value, b).value == a;
      assert (a / b) * b == a;
      assert Evaluate(Times, Evaluate(Over, a, b).value, b).value == a;
    }
  }
}
