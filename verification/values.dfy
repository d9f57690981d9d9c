/**
 * The runtime values of the interpreter.
 *
 * Booleans are a constructor of their own, so the host language's
 * "a boolean is an integer" rule becomes a plain constructor test.
 * Floating-point numbers are modelled by their exact real value.
 */
module Values {

  /** The built-in operators, dispatched by `Operations.Invoke`. */
  datatype Operator = AddOp | SubOp | MulOp | PopOp

  datatype Value =
    | Int(i: int)
    | Float(x: real)
    | Bool(b: bool)
    | Op(op: Operator)

  predicate IsNumber(v: Value) {
    v.Int? || v.Float?
  }

  /** The numeric value of a number, integers promoted to reals. */
  function Numeric(v: Value): real
    requires IsNumber(v)
  {
    if v.Int? then v.i as real else v.x
  }

  /** No operator sits anywhere in `s`: every element is plain data. */
  predicate AllData(s: seq<Value>) {
    forall i :: 0 <= i < |s| ==> !s[i].Op?
  }
}
