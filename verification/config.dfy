/**
 * The interpreter state — the operand stack and the dictionary stack — and
 * its initialisation with the default dictionary of built-in operators.
 */
module Config {
  import opened Errors
  import opened Values
  import opened PSDicts

  /** Both stacks grow at the end of the sequence. */
  datatype State = State(operands: seq<Value>, dicts: seq<PSDict<Value>>)

  /** Both stacks start empty. */
  const Initial: State := State([], [])

  const BuiltinNames: set<string> := {"add", "sub", "mul", "="}

  function DefaultDict(): PSDict<Value> {
    var d0 := Empty();
    var d1 := Set(d0, "add", Op(AddOp));
    var d2 := Set(d1, "sub", Op(SubOp));
    var d3 := Set(d2, "mul", Op(MulOp));
    Set(d3, "=", Op(PopOp))
  }

  /** Pushes a new default dictionary binding the four built-in operators. */
  function InitConfig(st: State): (r: State)
    ensures r.operands == st.operands
    ensures |r.dicts| == |st.dicts| + 1 && r.dicts[..|st.dicts|] == st.dicts
    ensures forall k :: Contains(r.dicts[|st.dicts|], k) <==> k in BuiltinNames
    ensures Get(r.dicts[|st.dicts|], "add") == Ok(Op(AddOp))
    ensures Get(r.dicts[|st.dicts|], "sub") == Ok(Op(SubOp))
    ensures Get(r.dicts[|st.dicts|], "mul") == Ok(Op(MulOp))
    ensures Get(r.dicts[|st.dicts|], "=") == Ok(Op(PopOp))
  {
    State(st.operands, st.dicts + [DefaultDict()])
  }

  /** At start-up the interpreter has no operands and exactly the default dictionary. */
  lemma StartupState()
    ensures InitConfig(Initial).operands == []
    ensures InitConfig(Initial).dicts == [DefaultDict()]
  {
  }
}
