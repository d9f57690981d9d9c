/**
 * Classifying a token as a constant and evaluating a token against the
 * interpreter state: a constant is pushed; any other token is looked up
 * through the dictionary stack, top first, and an operator found there is
 * invoked while any other value is pushed.
 */
module Parsers {
  import opened Errors
  import opened Values
  import opened PSDicts
  import opened Operations
  import opened Config
  import opened FloatSyntax

  /** Accepts exactly the two boolean keywords. */
  function BooleanParser(s: string): (r: Result<bool>)
    ensures r.Ok? <==> s == "true" || s == "false"
    ensures r.Ok? ==> (r.value <==> s == "true")
    ensures r.Err? ==> r.error == ParseError("Failed to parse boolean")
  {
    if s == "true" then Ok(true)
    else if s == "false" then Ok(false)
    else Err(ParseError("Failed to parse boolean"))
  }

  /**
   * Reads a decimal literal: an integral value becomes an integer, any
   * other value a float.
   */
  function NumberParser(s: string): (r: Result<Value>)
    ensures r.Ok? <==> Scan(s).Some?
    ensures r.Err? ==> r.error == ParseError("Failed to parse number")
    ensures r.Ok? ==> IsNumber(r.value) && Numeric(r.value) == ExactValue(Scan(s).value)
    ensures r.Ok? ==> (r.value.Int? <==> IsIntegral(Numeric(r.value)))
  {
    match Scan(s)
    case None => Err(ParseError("Failed to parse number"))
    case Some(lit) =>
      var x := ExactValue(lit);
      if IsIntegral(x) then Ok(Int(x.Floor)) else Ok(Float(x))
  }

  /** The boolean parser first, then the number parser; the first success wins. */
  function ConstantParser(s: string): (r: Result<Value>)
    ensures s == "true" ==> r == Ok(Bool(true))
    ensures s == "false" ==> r == Ok(Bool(false))
    ensures s != "true" && s != "false" ==> r.Ok? == NumberParser(s).Ok?
    ensures s != "true" && s != "false" && r.Ok? ==> r == NumberParser(s)
    ensures r.Ok? ==> !r.value.Op?
    ensures r.Err? ==> r.error == ParseError("Could not parse " + s + " as boolean or number")
  {
    match BooleanParser(s)
    case Ok(b) => Ok(Bool(b))
    case Err(_) =>
      match NumberParser(s)
      case Ok(v) => Ok(v)
      case Err(_) => Err(ParseError("Could not parse " + s + " as boolean or number"))
  }

  /**
   * The position of the dictionary that answers for `name`: the topmost
   * one that binds it.
   */
  function Resolve(dicts: seq<PSDict<Value>>, name: string): (r: Option<nat>)
    ensures r.Some? ==>
      && r.value < |dicts|
      && Contains(dicts[r.value], name)
      && forall j :: r.value < j < |dicts| ==> !Contains(dicts[j], name)
    ensures r.None? <==> forall j :: 0 <= j < |dicts| ==> !Contains(dicts[j], name)
  {
    if |dicts| == 0 then None
    else if Contains(dicts[|dicts| - 1], name) then Some(|dicts| - 1)
    else Resolve(dicts[..|dicts| - 1], name)
  }

  /**
   * Looks `name` up and acts on the value found. An operator's own error
   * is swallowed: the lookup then returns normally, with the stack as the
   * operator left it.
   */
  function LookupDict(name: string, st: State): (r: Result<State>)
    ensures r.Err? <==> forall j :: 0 <= j < |st.dicts| ==> !Contains(st.dicts[j], name)
    ensures r.Err? ==> r.error == ParseError("Could not find " + name + " in dictionary")
    ensures r.Ok? ==> r.value.dicts == st.dicts
    ensures r.Ok? ==>
      exists i :: 0 <= i < |st.dicts| && Contains(st.dicts[i], name)
        && (forall j :: i < j < |st.dicts| ==> !Contains(st.dicts[j], name))
        && var v := st.dicts[i].entries[name];
           && (v.Op? ==> r.value.operands == Invoke(v.op, st.operands).state)
           && (!v.Op? ==> r.value.operands == st.operands + [v])
  {
    match Resolve(st.dicts, name)
    case None => Err(ParseError("Could not find " + name + " in dictionary"))
    case Some(i) =>
      match Get(st.dicts[i], name)
      case Err(e) => Err(e)
      case Ok(v) =>
        if v.Op? then Ok(State(Invoke(v.op, st.operands).state, st.dicts))
        else Ok(State(st.operands + [v], st.dicts))
  }

  /** Evaluates one token: a constant is pushed, anything else is looked up. */
  function InputParser(token: string, st: State): (r: Result<State>)
    ensures r.Ok? ==> r.value.dicts == st.dicts
    ensures ConstantParser(token).Ok? ==> r == Ok(State(st.operands + [ConstantParser(token).value], st.dicts))
    ensures ConstantParser(token).Err? ==> r == LookupDict(token, st)
    ensures r.Err? <==>
      && ConstantParser(token).Err?
      && forall j :: 0 <= j < |st.dicts| ==> !Contains(st.dicts[j], token)
    ensures r.Err? ==> r.error.ParseError?
    ensures r.Ok? && AllData(st.operands) ==> AllData(r.value.operands)
  {
    match ConstantParser(token)
    case Ok(v) => Ok(State(st.operands + [v], st.dicts))
    case Err(_) => LookupDict(token, st)
  }

  /** The largest integer magnitude a double holds exactly (2^53). */
  const ExactDoubleLimit: int := 0x20_0000_0000_0000

  /**
   * The number parser reads an integer's decimal notation back as that
   * integer (within the range where the host's float conversion is exact).
   */
  lemma NumberRoundTrip(n: int)
    requires -ExactDoubleLimit <= n <= ExactDoubleLimit
    ensures NumberParser(IntToString(n)) == Ok(Int(n))
    ensures ConstantParser(IntToString(n)) == Ok(Int(n))
  {
    IntNotationNumber(n);
    IntNotationIsNoKeyword(n);
  }

  /** An integer's decimal notation is a literal whose exact value is that integer. */
  lemma IntNotationNumber(n: int)
    ensures NumberParser(IntToString(n)) == Ok(Int(n))
  {
    var m: nat := if n < 0 then -n else n;
    var lit := Literal(n < 0, m, 0, 0);
    ScanIntToString(n);
    assert Pow10(0) == 1;
    assert ExactValue(lit) == n as real;
    NumberOfLiteral(IntToString(n), lit, n as real);
  }

  /** An integer's decimal notation is neither boolean keyword. */
  lemma IntNotationIsNoKeyword(n: int)
    ensures BooleanParser(IntToString(n)).Err?
  {
    var s := IntToString(n);
    assert s[0] == '-' || IsDigit(s[0]);
    assert "true"[0] == 't' && "false"[0] == 'f';
  }

  /** A scanned literal's exact value decides what the number parser returns. */
  lemma NumberOfLiteral(s: string, lit: Literal, x: real)
    requires Scan(s) == Some(lit) && ExactValue(lit) == x
    ensures IsIntegral(x) ==> NumberParser(s) == Ok(Int(x.Floor))
    ensures !IsIntegral(x) ==> NumberParser(s) == Ok(Float(x))
  {
  }

  /** `a.f`, optionally signed, reads as the value of its digits scaled down by `|f|` places. */
  lemma DecimalNumber(s: string, negative: bool, a: string, f: string, x: real)
    requires |a| > 0 && AllDigits(a) && AllDigits(f)
    requires s == (if negative then "-" else "") + (a + "." + f)
    requires x == ExactValue(Literal(negative, PartValue(a + f), DigitCount(f), 0))
    ensures IsIntegral(x) ==> NumberParser(s) == Ok(Int(x.Floor))
    ensures !IsIntegral(x) ==> NumberParser(s) == Ok(Float(x))
  {
    ScanDecimal(s, negative, a, f);
    NumberOfLiteral(s, Literal(negative, PartValue(a + f), DigitCount(f), 0), x);
  }

  /** `3.0` has no fractional part, so it reads as the integer 3. */
  lemma IntegralDecimalIsInt()
    ensures NumberParser("3.0") == Ok(Int(3))
  {
    assert ExactValue(Literal(false, PartValue("3" + "0"), DigitCount("0"), 0)) == 3.0 by {
      assert Pow10(0) == 1 && Pow10(1) == 10;
      assert "3" + "0" == "30" && PartValue("30") == 30;
    }
    DecimalNumber("3.0", false, "3", "0", 3.0);
    assert IsIntegral(3.0) && (3.0).Floor == 3;
  }

  /** `3.5` has a fractional part, so it reads as a float. */
  lemma FractionalDecimalIsFloat()
    ensures NumberParser("3.5") == Ok(Float(3.5))
  {
    assert ExactValue(Literal(false, PartValue("3" + "5"), DigitCount("5"), 0)) == 3.5 by {
      assert Pow10(0) == 1 && Pow10(1) == 10;
      assert "3" + "5" == "35" && PartValue("35") == 35;
    }
    DecimalNumber("3.5", false, "3", "5", 3.5);
    assert !IsIntegral(3.5) by {
      assert (3.5).Floor == 3;
    }
  }

  /** `-1.1` reads as a negative float. */
  lemma NegativeDecimalIsFloat()
    ensures NumberParser("-1.1") == Ok(Float(-1.1))
  {
    assert ExactValue(Literal(true, PartValue("1" + "1"), DigitCount("1"), 0)) == -1.1 by {
      assert Pow10(0) == 1 && Pow10(1) == 10;
      assert "1" + "1" == "11" && PartValue("11") == 11;
    }
    DecimalNumber("-1.1", true, "1", "1", -1.1);
    assert !IsIntegral(-1.1) by {
      assert (-1.1).Floor == -2;
    }
  }

  /** `a e [sign] d`, optionally signed, reads as the value of `a` scaled by `d` or `-d` places. */
  lemma ExponentNumber(s: string, negative: bool, a: string, marker: char, eNegative: bool, d: string, x: real)
    requires |a| > 0 && AllDigits(a) && |d| > 0 && AllDigits(d)
    requires marker == 'e' || marker == 'E'
    requires s == (if negative then "-" else "") + (a + ([marker] + (if eNegative then "-" else "") + d))
    requires x == ExactValue(Literal(negative, PartValue(a), 0, Signed(eNegative, PartValue(d))))
    ensures IsIntegral(x) ==> NumberParser(s) == Ok(Int(x.Floor))
    ensures !IsIntegral(x) ==> NumberParser(s) == Ok(Float(x))
  {
    ScanExponential(s, negative, a, marker, eNegative, d);
    NumberOfLiteral(s, Literal(negative, PartValue(a), 0, Signed(eNegative, PartValue(d))), x);
  }

  /** `1e3` is an integral value written with an exponent, so it reads as the integer 1000. */
  lemma ExponentIsInt()
    ensures NumberParser("1e3") == Ok(Int(1000))
  {
    assert ExactValue(Literal(false, PartValue("1"), 0, Signed(false, PartValue("3")))) == 1000.0 by {
      assert PartValue("1") == 1 && PartValue("3") == 3 && Pow10(3) == 1000;
    }
    ExponentNumber("1e3", false, "1", 'e', false, "3", 1000.0);
    assert IsIntegral(1000.0) && (1000.0).Floor == 1000;
  }

  /** `25E-1` has a fractional value, so it reads as the float 2.5. */
  lemma NegativeExponentIsFloat()
    ensures NumberParser("25E-1") == Ok(Float(2.5))
  {
    assert ExactValue(Literal(false, PartValue("25"), 0, Signed(true, PartValue("1")))) == 2.5 by {
      assert PartValue("25") == 25 && PartValue("1") == 1 && Pow10(1) == 10;
    }
    ExponentNumber("25E-1", false, "25", 'E', true, "1", 2.5);
    assert !IsIntegral(2.5) by {
      assert (2.5).Floor == 2;
    }
  }

  /** A word is no number. */
  lemma WordIsNoNumber()
    ensures NumberParser("one") == Err(ParseError("Failed to parse number"))
  {
    ScanRejectsWords("one");
  }

  /** A dictionary that binds `name` hides every dictionary beneath it. */
  lemma ResolveShadows(dicts: seq<PSDict<Value>>, d: PSDict<Value>, name: string)
    ensures Contains(d, name) ==> Resolve(dicts + [d], name) == Some(|dicts|)
    ensures !Contains(d, name) ==> Resolve(dicts + [d], name) == Resolve(dicts, name)
  {
    assert (dicts + [d])[..|dicts|] == dicts;
  }

  /**
   * Which dictionaries lie beneath the topmost one that binds `name` does
   * not matter to the effect of looking `name` up.
   */
  lemma LookupIgnoresShadowed(
    operands: seq<Value>, lower1: seq<PSDict<Value>>, lower2: seq<PSDict<Value>>,
    top: PSDict<Value>, name: string)
    requires Contains(top, name)
    ensures LookupDict(name, State(operands, lower1 + [top])).Ok?
    ensures LookupDict(name, State(operands, lower2 + [top])).Ok?
    ensures LookupDict(name, State(operands, lower1 + [top])).value.operands
         == LookupDict(name, State(operands, lower2 + [top])).value.operands
  {
    ResolveShadows(lower1, top, name);
    ResolveShadows(lower2, top, name);
  }

  /** A name bound nowhere is an error and the caller's state stays as it was. */
  lemma UnboundNameFails(st: State, token: string)
    requires ConstantParser(token).Err?
    requires forall j :: 0 <= j < |st.dicts| ==> !Contains(st.dicts[j], token)
    ensures InputParser(token, st) == Err(ParseError("Could not find " + token + " in dictionary"))
  {
  }

  /** Evaluating `add` over a single operand swallows the operator's error and keeps the operand. */
  lemma OperatorErrorSwallowed()
    ensures InputParser("add", InitConfig(State([Int(1)], []))) == Ok(State([Int(1)], [DefaultDict()]))
  {
    assert InitConfig(State([Int(1)], [])) == State([Int(1)], [DefaultDict()]);
    OperatorToken("add", State([Int(1)], [DefaultDict()]));
    assert DefaultDict().entries["add"] == Op(AddOp);
  }

  /** Evaluating an integer's decimal notation pushes that integer. */
  lemma PushesInteger(n: int, st: State)
    requires -ExactDoubleLimit <= n <= ExactDoubleLimit
    ensures InputParser(IntToString(n), st) == Ok(State(st.operands + [Int(n)], st.dicts))
  {
    NumberRoundTrip(n);
  }

  /** `1 2 add` after start-up leaves `3`. */
  lemma EvaluationExamples()
    ensures InputParser("1", InitConfig(Initial)) == Ok(State([Int(1)], [DefaultDict()]))
    ensures InputParser("2", State([Int(1)], [DefaultDict()])) == Ok(State([Int(1), Int(2)], [DefaultDict()]))
    ensures InputParser("add", State([Int(1), Int(2)], [DefaultDict()])) == Ok(State([Int(3)], [DefaultDict()]))
  {
    FirstPushExample();
    SecondPushExample();
    AdditionExample();
  }

  /** After start-up, `1` is pushed onto the empty operand stack. */
  lemma FirstPushExample()
    ensures InputParser("1", InitConfig(Initial)) == Ok(State([Int(1)], [DefaultDict()]))
  {
    assert IntToString(1) == "1";
    StartupState();
    PushesInteger(1, InitConfig(Initial));
    assert [] + [Int(1)] == [Int(1)];
  }

  /** `2` is pushed above `1`. */
  lemma SecondPushExample()
    ensures InputParser("2", State([Int(1)], [DefaultDict()])) == Ok(State([Int(1), Int(2)], [DefaultDict()]))
  {
    assert IntToString(2) == "2";
    PushesInteger(2, State([Int(1)], [DefaultDict()]));
    assert [Int(1)] + [Int(2)] == [Int(1), Int(2)];
  }

  /** Over `1 2`, `add` leaves `3`. */
  lemma AdditionExample()
    ensures InputParser("add", State([Int(1), Int(2)], [DefaultDict()])) == Ok(State([Int(3)], [DefaultDict()]))
  {
    OperatorToken("add", State([Int(1), Int(2)], [DefaultDict()]));
    assert DefaultDict().entries["add"] == Op(AddOp);
    assert [Int(1), Int(2)][..0] == [];
  }

  /** After `2 1` are pushed, `sub` leaves `1`: the second operand is subtracted from the first. */
  lemma SubtractionExample()
    ensures InputParser("sub", State([Int(2), Int(1)], [DefaultDict()])) == Ok(State([Int(1)], [DefaultDict()]))
  {
    OperatorToken("sub", State([Int(2), Int(1)], [DefaultDict()]));
    assert DefaultDict().entries["sub"] == Op(SubOp);
    assert [Int(2), Int(1)][..0] == [];
  }

  /** A built-in operator's name, evaluated over the default dictionary, invokes the operator. */
  lemma OperatorToken(name: string, st: State)
    requires name in BuiltinNames && st.dicts == [DefaultDict()]
    ensures InputParser(name, st)
         == Ok(State(Invoke(DefaultDict().entries[name].op, st.operands).state, st.dicts))
  {
    ScanRejectsWords(name);
    assert BooleanParser(name).Err? by {
      assert name[0] != 't' && name[0] != 'f';
    }
  }
}
