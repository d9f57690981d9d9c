# psint core, modelled in Dafny

A model of the core of `psint`, a minimal PostScript-style interpreter. Its
state is an operand stack and a dictionary stack. A token is evaluated by
first classifying it as a constant (a boolean keyword, then a number). A
constant is pushed. Any other token is looked up through the dictionary
stack from the top down: a built-in operator found there is invoked, and
any other value is pushed. The built-in operators are `add`, `sub`, `mul`
and `=`. The default dictionary that binds them is pushed by `init_config`.

Modules (one per source file, plus two supporting ones):

- `Errors` (`errors.dfy`): the interpreter's `ParseException` and
  `TypeMismatchException`, and the `KeyError` of a missing dictionary key,
  as one `Error` datatype with their messages. `Result` is for calls that
  raise without side effects. `Outcome` is for calls that change the stack
  and then raise: it carries the stack in both cases.
- `Values` (`values.dfy`): the closed value type `Int | Float | Bool | Op`.
  A boolean is its own constructor, so the source's
  `isinstance(x, bool)` guard is a constructor test.
- `PSDicts` (`ps_dict.dfy`): `PSDict` as an immutable `map<string, V>`.
  `Empty` is the constructor, `Set` is `__setitem__`, `Get` is `__getitem__`,
  and `Contains` is `__contains__` (src/ps_dict.py:12-13): key membership in
  the map. The dictionary and lookup contracts state membership through it.
- `Operations` (`operations.dfy`): `add`, `sub`, `mul`, `=` as functions
  from the operand stack to an `Outcome`, and `Invoke`, the fixed dispatch
  from an operator tag to its function.
- `Config` (`config.dfy`): the interpreter `State`, the empty initial
  stacks and `InitConfig`.
- `FloatSyntax` (`float_syntax.dfy`): the decimal literal syntax that the
  host's `float(...)` conversion accepts (sign, digits with `_` separators,
  point, exponent), and the exact value a literal denotes.
- `Parsers` (`parsers.dfy`): the boolean, number and constant parsers, the
  dictionary-stack lookup and the token evaluator.

All files form one program: `dafny verify *.dfy` from this directory checks
it (Dafny 4.11).

The number syntax is stated twice in `FloatSyntax`. One statement is a
declarative grammar: `IsSplit` cuts a literal into an integer section, a
fraction section and an exponent section. The other is the scanner that
`NumberParser` uses. Lemmas prove that the scanner accepts exactly the
strings the grammar admits, with the value the grammar assigns.

Behaviours of the code that the model keeps as written:

- On a type error an operator has already popped both operands and does not
  push them back (src/operations.py:6-11). So a type error shrinks the
  stack by two.
- `lookup_dict` swallows every exception an operator raises
  (src/parsers.py:55-58). So `LookupDict` returns normally, with the stack
  the operator left behind.
- An unbound name raises `ParseException` (src/parsers.py:62).
- Both stacks start empty (src/config.py:5-6). A lookup before
  `init_config` finds nothing.

## Model

| member | source | states |
|---|---|---|
| `PSDicts.Empty` | src/ps_dict.py:3-4 | a freshly constructed dictionary contains no key |
| `PSDicts.Get` | src/ps_dict.py:9-10 | indexing succeeds exactly when the key is contained; otherwise it raises `KeyError` for that key |
| `PSDicts.Set` | src/ps_dict.py:6-7 | after `d[k] = v`, `k in d` holds and `d[k]` is `v`; the membership and binding of every other key is unchanged |
| `PSDicts.SetOverwrites` | src/ps_dict.py:6-7 | setting an existing key again keeps only the latest binding |
| `Operations.Combine` | src/operations.py:13-16 | two integers give an integer and a float promotes the result; the value is the sum, `op2 - op1` or the product; a non-number makes the operation raise |
| `Operations.BinaryOper` | src/operations.py:5-19 | fewer than two operands raise with the stack unchanged; two numbers are replaced by one result and everything below stays; otherwise it raises after popping both operands |
| `Operations.AddOper` | src/operations.py:4-19 | succeeds iff there are two numeric operands; the stack gets one shorter, the part below is untouched and the new top is the sum; too few operands raise with the stack unchanged; a boolean raises with both operands gone |
| `Operations.SubOper` | src/operations.py:21-36 | as `add`, but the new top is second-from-top minus top |
| `Operations.MulOper` | src/operations.py:38-53 | as `add`, but the new top is the product |
| `Operations.PopOper` | src/operations.py:55-59 | on a non-empty stack it removes exactly the top element; on an empty stack it raises with the stack unchanged |
| `Operations.Invoke` | src/parsers.py:53-56 | calling any built-in operator changes at most the top two entries and removes at most two; it never puts an operator on the stack; its errors are type mismatches |
| `Operations.CombineSymmetric` | src/operations.py:4-53 | addition and multiplication give the same result whichever operand was on top |
| `Operations.BinaryOperSymmetric` | src/operations.py:4-53 | swapping the top two operands does not change the effect of `add` or `mul` |
| `Operations.AddCommutes` | src/operations.py:13-17 | `add` on `.. a b` and on `.. b a` has the same effect |
| `Operations.MulCommutes` | src/operations.py:47-51 | `mul` on `.. a b` and on `.. b a` has the same effect |
| `Operations.AddUndoesSub` | src/operations.py:30-34 | `sub` on integers `a b` leaves `a - b`, and pushing `b` and adding restores `a` |
| `Operations.PopUndoesPush` | src/operations.py:55-57 | `=` undoes a push: the stack below is returned as it was |
| `Operations.AddExamples` | psint_test.py:45-72 | `[1,2]` gives `[3]`, `[1,2,3]` gives `[1,5]`, `[-1,3]` gives `[2]` |
| `Operations.AddErrorExamples` | psint_test.py:51-78 | `[1]` and `[]` raise with the stack kept; `[1,true]` raises with the stack emptied |
| `Operations.SubExamples` | psint_test.py:82-109 | `[2,1]` gives `[1]`, `[1,2,3]` gives `[1,-1]`, `[-1,3]` gives `[-4]` |
| `Operations.SubErrorExamples` | psint_test.py:88-115 | `[1]` and `[]` raise with the stack kept; `[1,true]` raises with the stack emptied |
| `Operations.MulExamples` | psint_test.py:119-146 | `[1,2]` gives `[2]`, `[1,2,3]` gives `[1,6]`, `[-1,3]` gives `[-3]` |
| `Operations.MulErrorExamples` | psint_test.py:125-152 | `[1]` and `[]` raise with the stack kept; `[1,true]` raises with the stack emptied |
| `Config.InitConfig` | src/config.py:8-14 | appends exactly one dictionary, leaves the earlier dictionaries and the operand stack alone, and the new dictionary binds exactly `add`, `sub`, `mul` and `=` to their operators |
| `Config.StartupState` | src/config.py:5-14 | from the empty initial stacks, start-up leaves no operands and only the default dictionary |
| `FloatSyntax.DigitRun` | src/parsers.py:19 | the scanned digit part is the longest prefix of the form digit, then digits each optionally preceded by one `_` |
| `FloatSyntax.DigitRunWhole` | src/parsers.py:19 | a digit run covers the whole string exactly when the string is a digit part |
| `FloatSyntax.DigitRunIs` | src/parsers.py:19 | a digit part followed by the end or by a character that is neither a digit nor `_` is exactly where the digit run stops |
| `FloatSyntax.ScanExponent` | src/parsers.py:19 | an exponent suffix is accepted exactly when it is empty, or `e`/`E`, an optional sign and a digit part; its value is that signed digit value, and 0 when it is empty |
| `FloatSyntax.FractionEnd` | src/parsers.py:19 | the fraction section is empty exactly when there is no leading point; otherwise it is the point and the digit run after it, and it is always a well-formed fraction section |
| `FloatSyntax.FractionEndIs` | src/parsers.py:19 | a well-formed fraction section followed by a well-formed exponent section is exactly what the fraction scan takes |
| `FloatSyntax.SplitAgrees` | src/parsers.py:19 | any grammatical split of a literal is the split the scanner finds: its integer section is the digit run and its fraction section is the fraction scan |
| `FloatSyntax.ScanUnsigned` | src/parsers.py:19 | an accepted unsigned literal is non-negative and contains a digit |
| `FloatSyntax.ScanUnsignedOfSplit` | src/parsers.py:19 | a string that splits grammatically scans to the literal that split denotes |
| `FloatSyntax.ScanUnsignedRejects` | src/parsers.py:19-25 | a string with no grammatical split is rejected by the scanner |
| `FloatSyntax.ScanUnsignedMatchesGrammar` | src/parsers.py:19-25 | the scanner accepts an unsigned string iff it is a literal of the grammar, and then yields the value of every grammatical split |
| `FloatSyntax.Scan` | src/parsers.py:18-25 | no string without a digit is a number literal |
| `FloatSyntax.ScanMatchesGrammar` | src/parsers.py:18-25 | an optionally signed string is accepted iff what follows the sign is a literal of the grammar; the sign only sets the literal's sign |
| `FloatSyntax.NatToStringValue` | src/parsers.py:19-21 | reading back the decimal digits of a natural number gives the number |
| `FloatSyntax.ScanIntToString` | src/parsers.py:19-21 | an integer's decimal notation is a literal with that sign and magnitude, no fraction and no exponent |
| `FloatSyntax.ScanRejectsWords` | src/parsers.py:24-25 | in the modelled decimal syntax, a token starting with neither a digit, a sign nor a point is no number |
| `FloatSyntax.ScanUnsignedDecimal` | src/parsers.py:19 | `a.f` scans with mantissa `af` and the digits of `f` as fraction digits |
| `FloatSyntax.ScanSigned` | src/parsers.py:19 | a leading `-` before a digit only flips the sign of the literal that follows |
| `FloatSyntax.ScanDecimal` | src/parsers.py:19-23 | `a.f`, optionally signed, scans as mantissa `af` with `f`'s digits as fraction |
| `FloatSyntax.DigitsThenExponent` | src/parsers.py:19 | a digit part followed by an exponent section scans with no fraction and that exponent |
| `FloatSyntax.ExponentSection` | src/parsers.py:19 | `e` or `E`, an optional `-` and digits form an exponent section whose value is the signed digits |
| `FloatSyntax.ScanExponential` | src/parsers.py:19 | `a e [-] d`, optionally signed, scans as mantissa `a` with exponent `d` or `-d` |
| `Parsers.BooleanParser` | src/parsers.py:7-14 | succeeds exactly on `"true"` and `"false"`, giving true exactly for `"true"`; every other input raises a parse error |
| `Parsers.NumberParser` | src/parsers.py:16-25 | succeeds exactly on number literals; the result equals the literal's value, and it is an integer exactly when that value is integral; anything else raises a parse error |
| `Parsers.ConstantParser` | src/parsers.py:27-39 | `"true"`/`"false"` are always booleans; otherwise the number parser decides; a success is never an operator; when neither accepts it raises a parse error |
| `Parsers.Resolve` | src/parsers.py:50-52 | the answering dictionary is the topmost one that binds the name; there is none exactly when no dictionary binds it |
| `Parsers.LookupDict` | src/parsers.py:49-62 | fails iff no dictionary binds the name; otherwise the topmost binding decides: an operator is invoked and its error swallowed, any other value is pushed; the dictionary stack never changes |
| `Parsers.InputParser` | src/parsers.py:41-47 | a constant is appended and nothing else changes; a token that is no constant behaves exactly as the dictionary lookup of it; the call fails iff the token is no constant and bound nowhere, with a parse error; the dictionary stack never changes; an operand stack free of operators stays so |
| `Parsers.NumberRoundTrip` | src/parsers.py:18-21 | every integer of magnitude up to 2^53 written in decimal reads back as that exact integer |
| `Parsers.NumberOfLiteral` | src/parsers.py:18-23 | a scanned literal with an integral value reads as that integer, and one with a fractional value reads as that float |
| `Parsers.DecimalNumber` | src/parsers.py:18-23 | `a.f`, optionally signed, reads as its exact value, as an integer exactly when that value is integral |
| `Parsers.ExponentNumber` | src/parsers.py:18-23 | `a e [-] d`, optionally signed, reads as its exact value, as an integer exactly when that value is integral |
| `Parsers.IntegralDecimalIsInt` | src/parsers.py:20-21 | `3.0` reads as the integer 3 |
| `Parsers.FractionalDecimalIsFloat` | src/parsers.py:20-23 | `3.5` reads as a float |
| `Parsers.NegativeDecimalIsFloat` | psint_test.py:35-37 | `-1.1` reads as a negative float |
| `Parsers.ExponentIsInt` | src/parsers.py:19-21 | `1e3` reads as the integer 1000 |
| `Parsers.NegativeExponentIsFloat` | src/parsers.py:19-23 | `25E-1` reads as the float 2.5 |
| `Parsers.WordIsNoNumber` | psint_test.py:39-41 | `one` raises a parse error in the number parser |
| `Parsers.ResolveShadows` | src/parsers.py:50-52 | a dictionary on top that binds the name answers for it; one that does not leaves the answer to the dictionaries below |
| `Parsers.LookupIgnoresShadowed` | src/parsers.py:50-61 | under a dictionary that binds the name, what lies beneath makes no difference to the lookup |
| `Parsers.UnboundNameFails` | src/parsers.py:49-62 | a non-constant token bound nowhere raises "Could not find ... in dictionary"; the caller's state is kept |
| `Parsers.OperatorErrorSwallowed` | src/parsers.py:53-58 | evaluating `add` over the single operand `1` returns normally and leaves `[1]` |
| `Parsers.PushesInteger` | src/parsers.py:41-44 | evaluating the decimal notation of an integer of magnitude up to 2^53 pushes that integer and changes nothing else |
| `Parsers.OperatorToken` | src/parsers.py:41-58 | over the default dictionary, the name of a built-in operator invokes that operator on the operand stack |
| `Parsers.IntNotationNumber` | src/parsers.py:18-21 | the number parser reads an integer's decimal notation as that integer |
| `Parsers.IntNotationIsNoKeyword` | src/parsers.py:9-14 | an integer's decimal notation is neither `true` nor `false`, so the boolean parser rejects it |
| `Parsers.FirstPushExample` | src/parsers.py:41-44 | after start-up, `1` leaves `[1]` |
| `Parsers.SecondPushExample` | src/parsers.py:41-44 | over `[1]`, `2` leaves `[1,2]` |
| `Parsers.AdditionExample` | src/parsers.py:53-56 | over `[1,2]`, `add` leaves `[3]` |
| `Parsers.EvaluationExamples` | src/parsers.py:41-60 | after start-up, `1` leaves `[1]`, then `2` leaves `[1,2]`, then `add` leaves `[3]` |
| `Parsers.SubtractionExample` | src/parsers.py:53-56 | over `[2,1]`, `sub` leaves `[1]` |

## Left out

- Printing: `=` prints the value it pops. The model only pops it.
- Logging: every `logging` call in the parsers is left out.
- The read loops in `psint.py` and `src/repl.py` are not modelled. They cover console input, `str.split()` tokenising, the quit sentinels and printing results. An uncaught `ParseException` that ends the loop is also left out.
- `src/exceptions.py` only declares the two exception classes. They are the `ParseError` and `TypeMismatch` variants of `Errors.Error`.
- Python's `callable(value)` dispatch: built-in operators are the tags of `Values.Operator`, called through `Operations.Invoke`. No other callables can be bound.
- Parsers.NumberParser: numbers are exact, not IEEE-754 doubles. Rounding is not modelled, so for example `1.1` is exactly 11/10 and integers above 2^53 do not lose precision. Overflow to infinity (`1e400`) is not modelled either.
- Parsers.NumberParser: because rounding is left out, the choice between integer and float can differ from the code's. `1.0000000000000001` and `1e-400` round to the integral doubles 1.0 and 0.0, so the code returns an int. The model returns a `Float`, because the exact values are not integral. The two agree on every literal whose exact value is a double.
- Parsers.NumberParser: only the decimal syntax of `float(...)` is modelled. Python also accepts `inf`, `infinity` and `nan` in any case, surrounding whitespace and non-ASCII decimal digits. The model rejects these, and the token then goes to dictionary lookup.
- Operations.Combine: float arithmetic is exact real arithmetic. Rounding, infinities and NaN are left out. One consequence: in the code, an integer too large for a double combined with a float raises `OverflowError` (for example `int(1e308) * int(1e308)`, then `* 1.5`). The bare `except` at src/operations.py:15, :32 and :49 turns that into a `TypeMismatchException` after both operands are popped. The model pushes the exact `Float` product instead.
- Tests that call `number_parser` with a Python number instead of a string (psint_test.py:23-37) are modelled through the decimal notation of that number.
- Dictionaries are values here, not shared mutable objects. In the source nothing mutates a dictionary after `init_config` fills it, so the aliasing cannot be observed.
- PostScript features the code does not implement are not modelled: a bracket-aware tokenizer, code blocks, strings, `/name` literals, `def`/`dict`/`begin`/`end`, static scoping, control-flow operators and further built-in operators.
