/**
 * The built-in operators `add`, `sub`, `mul` and `=`, as transformers of the
 * operand stack (the last element of the sequence is the top of the stack).
 *
 * An operator pops its operands before it checks their types, so a type
 * error leaves the stack without them: the result is an `Outcome`, which
 * carries the stack both on return and on raise.
 */
module Operations {
  import opened Errors
  import opened Values

  datatype ArithKind = Plus | Minus | Times

  function OperatorName(k: ArithKind): string {
    match k
    case Plus => "add"
    case Minus => "sub"
    case Times => "mul"
  }

  function TooFewOperands(name: string): Error {
    TypeMismatch("Not enough operands for operation \"" + name + "\"")
  }

  const OperandTypes: Error := TypeMismatch("Types of operands did not match")

  /**
   * The host-language arithmetic on the two popped operands: `op1` was on
   * top, `op2` beneath it. Two integers give an integer, a float on either
   * side promotes the result to a float, and anything else cannot be
   * combined (the host raises, which is `None` here).
   */
  function Combine(k: ArithKind, op1: Value, op2: Value): (r: Option<Value>)
    ensures r.Some? <==> IsNumber(op1) && IsNumber(op2)
    ensures r.Some? ==> IsNumber(r.value) && (r.value.Int? <==> op1.Int? && op2.Int?)
    ensures r.Some? && k == Plus ==> Numeric(r.value) == Numeric(op1) + Numeric(op2)
    ensures r.Some? && k == Minus ==> Numeric(r.value) == Numeric(op2) - Numeric(op1)
    ensures r.Some? && k == Times ==> Numeric(r.value) == Numeric(op1) * Numeric(op2)
  {
    if !IsNumber(op1) || !IsNumber(op2) then None
    else if op1.Int? && op2.Int? then
      Some(Int(match k
               case Plus => op1.i + op2.i
               case Minus => op2.i - op1.i
               case Times => op1.i * op2.i))
    else
      var a, b := Numeric(op1), Numeric(op2);
      Some(Float(match k
                 case Plus => a + b
                 case Minus => b - a
                 case Times => a * b))
  }

  /** The shared shape of `add`, `sub` and `mul`. */
  function BinaryOper(k: ArithKind, stack: seq<Value>): (r: Outcome<seq<Value>>)
    ensures |stack| < 2 ==> r == Thrown(stack, TooFewOperands(OperatorName(k)))
    ensures r.Normal? <==> |stack| >= 2 && IsNumber(stack[|stack| - 1]) && IsNumber(stack[|stack| - 2])
    ensures r.Normal? ==>
      && |r.state| == |stack| - 1
      && r.state[..|stack| - 2] == stack[..|stack| - 2]
      && Combine(k, stack[|stack| - 1], stack[|stack| - 2]) == Some(r.state[|stack| - 2])
    ensures |stack| >= 2 && r.Thrown? ==> r.state == stack[..|stack| - 2] && r.error == OperandTypes
  {
    if |stack| >= 2 then
      var op1 := stack[|stack| - 1];
      var op2 := stack[|stack| - 2];
      var rest := stack[..|stack| - 2];
      if op1.Bool? || op2.Bool? then
        Thrown(rest, OperandTypes)
      else
        match Combine(k, op1, op2)
        case None => Thrown(rest, OperandTypes)
        case Some(v) => Normal(rest + [v])
    else
      Thrown(stack, TooFewOperands(OperatorName(k)))
  }

  /** `add`: replaces the top two operands by their sum. */
  function AddOper(stack: seq<Value>): (r: Outcome<seq<Value>>)
    ensures |stack| < 2 ==> r == Thrown(stack, TooFewOperands("add"))
    ensures r.Normal? <==> |stack| >= 2 && IsNumber(stack[|stack| - 1]) && IsNumber(stack[|stack| - 2])
    ensures r.Normal? ==>
      && |r.state| == |stack| - 1
      && r.state[..|stack| - 2] == stack[..|stack| - 2]
      && IsNumber(r.state[|stack| - 2])
      && Numeric(r.state[|stack| - 2]) == Numeric(stack[|stack| - 2]) + Numeric(stack[|stack| - 1])
      && (r.state[|stack| - 2].Int? <==> stack[|stack| - 2].Int? && stack[|stack| - 1].Int?)
    ensures |stack| >= 2 && r.Thrown? ==> r.state == stack[..|stack| - 2] && r.error == OperandTypes
  {
    BinaryOper(Plus, stack)
  }

  /** `sub`: replaces the top two operands by second-from-top minus top. */
  function SubOper(stack: seq<Value>): (r: Outcome<seq<Value>>)
    ensures |stack| < 2 ==> r == Thrown(stack, TooFewOperands("sub"))
    ensures r.Normal? <==> |stack| >= 2 && IsNumber(stack[|stack| - 1]) && IsNumber(stack[|stack| - 2])
    ensures r.Normal? ==>
      && |r.state| == |stack| - 1
      && r.state[..|stack| - 2] == stack[..|stack| - 2]
      && IsNumber(r.state[|stack| - 2])
      && Numeric(r.state[|stack| - 2]) == Numeric(stack[|stack| - 2]) - Numeric(stack[|stack| - 1])
      && (r.state[|stack| - 2].Int? <==> stack[|stack| - 2].Int? && stack[|stack| - 1].Int?)
    ensures |stack| >= 2 && r.Thrown? ==> r.state == stack[..|stack| - 2] && r.error == OperandTypes
  {
    BinaryOper(Minus, stack)
  }

  /** `mul`: replaces the top two operands by their product. */
  function MulOper(stack: seq<Value>): (r: Outcome<seq<Value>>)
    ensures |stack| < 2 ==> r == Thrown(stack, TooFewOperands("mul"))
    ensures r.Normal? <==> |stack| >= 2 && IsNumber(stack[|stack| - 1]) && IsNumber(stack[|stack| - 2])
    ensures r.Normal? ==>
      && |r.state| == |stack| - 1
      && r.state[..|stack| - 2] == stack[..|stack| - 2]
      && IsNumber(r.state[|stack| - 2])
      && Numeric(r.state[|stack| - 2]) == Numeric(stack[|stack| - 2]) * Numeric(stack[|stack| - 1])
      && (r.state[|stack| - 2].Int? <==> stack[|stack| - 2].Int? && stack[|stack| - 1].Int?)
    ensures |stack| >= 2 && r.Thrown? ==> r.state == stack[..|stack| - 2] && r.error == OperandTypes
  {
    BinaryOper(Times, stack)
  }

  /** `=`: discards the top operand (its printing is not modelled). */
  function PopOper(stack: seq<Value>): (r: Outcome<seq<Value>>)
    ensures r.Normal? <==> |stack| >= 1
    ensures r.Normal? ==> r.state + [stack[|stack| - 1]] == stack
    ensures r.Thrown? ==> r.state == stack && r.error == TooFewOperands("=")
  {
    if |stack| >= 1 then Normal(stack[..|stack| - 1])
    else Thrown(stack, TooFewOperands("="))
  }

  /** Calling the operator a dictionary entry holds. */
  function Invoke(op: Operator, stack: seq<Value>): (r: Outcome<seq<Value>>)
    ensures |stack| - 2 <= |r.state| <= |stack|
    ensures forall i :: 0 <= i < |stack| - 2 ==> r.state[i] == stack[i]
    ensures AllData(stack) ==> AllData(r.state)
    ensures r.Thrown? ==> r.error.TypeMismatch?
  {
    match op
    case AddOp => AddOper(stack)
    case SubOp => SubOper(stack)
    case MulOp => MulOper(stack)
    case PopOp => PopOper(stack)
  }

  /** Addition and multiplication do not care which operand was on top. */
  lemma CombineSymmetric(k: ArithKind, a: Value, b: Value)
    requires k != Minus
    ensures Combine(k, a, b) == Combine(k, b, a)
  {
  }

  /** Swapping the top two operands changes nothing else that a binary operator looks at. */
  lemma BinaryOperSymmetric(k: ArithKind, s: seq<Value>, a: Value, b: Value)
    requires k != Minus
    ensures BinaryOper(k, s + [a, b]) == BinaryOper(k, s + [b, a])
  {
    CombineSymmetric(k, a, b);
    var s1, s2 := s + [a, b], s + [b, a];
    assert s1[..|s|] == s == s2[..|s|];
    assert s1[|s1| - 1] == b == s2[|s2| - 2];
    assert s1[|s1| - 2] == a == s2[|s2| - 1];
  }

  /** The operands of `add` may be given in either order. */
  lemma AddCommutes(s: seq<Value>, a: Value, b: Value)
    ensures AddOper(s + [a, b]) == AddOper(s + [b, a])
  {
  }

  /** The operands of `mul` may be given in either order. */
  lemma MulCommutes(s: seq<Value>, a: Value, b: Value)
    ensures MulOper(s + [a, b]) == MulOper(s + [b, a])
  {
    BinaryOperSymmetric(Times, s, a, b);
  }

  /** Pushing `b` and adding undoes subtracting `b`. */
  lemma AddUndoesSub(s: seq<Value>, a: int, b: int)
    ensures SubOper(s + [Int(a), Int(b)]) == Normal(s + [Int(a - b)])
    ensures AddOper(SubOper(s + [Int(a), Int(b)]).state + [Int(b)]) == Normal(s + [Int(a)])
  {
    assert (s + [Int(a), Int(b)])[..|s|] == s;
    assert SubOper(s + [Int(a), Int(b)]).state + [Int(b)] == s + [Int(a - b), Int(b)];
    assert (s + [Int(a - b), Int(b)])[..|s|] == s;
  }

  /** `=` undoes a push. */
  lemma PopUndoesPush(s: seq<Value>, v: Value)
    ensures PopOper(s + [v]) == Normal(s)
  {
  }

  /** The successful `add` cases of the interpreter's own tests. */
  lemma AddExamples()
    ensures AddOper([Int(1), Int(2)]) == Normal([Int(3)])
    ensures AddOper([Int(1), Int(2), Int(3)]) == Normal([Int(1), Int(5)])
    ensures AddOper([Int(-1), Int(3)]) == Normal([Int(2)])
  {
    assert [Int(1), Int(2), Int(3)][..1] + [Int(5)] == [Int(1), Int(5)];
  }

  /** The failing `add` cases of the interpreter's own tests: too few operands, or a boolean. */
  lemma AddErrorExamples()
    ensures AddOper([Int(1)]) == Thrown([Int(1)], TooFewOperands("add"))
    ensures AddOper([]) == Thrown([], TooFewOperands("add"))
    ensures AddOper([Int(1), Bool(true)]) == Thrown([], OperandTypes)
  {
  }

  /** The successful `sub` cases of the interpreter's own tests. */
  lemma SubExamples()
    ensures SubOper([Int(2), Int(1)]) == Normal([Int(1)])
    ensures SubOper([Int(1), Int(2), Int(3)]) == Normal([Int(1), Int(-1)])
    ensures SubOper([Int(-1), Int(3)]) == Normal([Int(-4)])
  {
    assert [Int(1), Int(2), Int(3)][..1] + [Int(-1)] == [Int(1), Int(-1)];
  }

  /** The failing `sub` cases of the interpreter's own tests: too few operands, or a boolean. */
  lemma SubErrorExamples()
    ensures SubOper([Int(1)]) == Thrown([Int(1)], TooFewOperands("sub"))
    ensures SubOper([]) == Thrown([], TooFewOperands("sub"))
    ensures SubOper([Int(1), Bool(true)]) == Thrown([], OperandTypes)
  {
  }

  /** The successful `mul` cases of the interpreter's own tests. */
  lemma MulExamples()
    ensures MulOper([Int(1), Int(2)]) == Normal([Int(2)])
    ensures MulOper([Int(1), Int(2), Int(3)]) == Normal([Int(1), Int(6)])
    ensures MulOper([Int(-1), Int(3)]) == Normal([Int(-3)])
  {
    assert [Int(1), Int(2), Int(3)][..1] + [Int(6)] == [Int(1), Int(6)];
  }

  /** The failing `mul` cases of the interpreter's own tests: too few operands, or a boolean. */
  lemma MulErrorExamples()
    ensures MulOper([Int(1)]) == Thrown([Int(1)], TooFewOperands("mul"))
    ensures MulOper([]) == Thrown([], TooFewOperands("mul"))
    ensures MulOper([Int(1), Bool(true)]) == Thrown([], OperandTypes)
  {
  }
}
