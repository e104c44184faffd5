# A verified model of a small LISP interpreter

This project models the core of a small interpreter in the Scheme tradition, written in Java.
The core is `src/lispinterpreter/main/LISP.java`. It contains:

- a tokenizer (`tokenize`);
- a recursive-descent reader over a mutable token list (`read`, `parse`);
- classification of atoms (`atom`);
- a chain of mutable scopes (`Environment`);
- the evaluator (`eval`) with the special forms `if`, `define`, `set!`, `lambda`, `quote`, `repeat` and application;
- the numeric built-ins `add`, `multiply` and `abs`, with their type-widening table;
- the four global bindings made at start-up.

Modules, following the program's parts:

| file | module | contents |
|---|---|---|
| `results.dfy` | `Results` | `Option`, `Result`, and the error kinds that stand for the Java exceptions |
| `values.dfy` | `Values` | parsed trees `Sexp`, runtime `Value`s, the output trace entries, 32-bit wrap-around |
| `tokenizer.dfy` | `Tokenizer` | `tokenize` as functions, and lemmas on token shape and coverage |
| `atoms.dfy` | `Atoms` | `Integer.parseInt` and `atom`, with round-trip and priority lemmas |
| `reader.dfy` | `Reader` | `read` as functions, the round trip with serialisation, and the class `TokenReader` whose `Read` method consumes its token list in place |
| `numeric.dfy` | `Numeric` | `add`, `multiply`, `abs` and the widening table |
| `environment.dfy` | `Environment` | the scope arena, `get`, `containsKey`, `put`, and the scope that a closure call creates |
| `evaluator.dfy` | `Evaluator` | `eval` as functions of the interpreter state. This is the specification. |
| `semantics.dfy` | `Semantics` | lemmas on each special form and on application |
| `fuel.dfy` | `Fuel` | more fuel never changes a result that did not run out |
| `printing.dfy` | `Printing` | earlier output never changes what an evaluation computes or prints |
| `interpreter.dfy` | `Interpreter` | class `Interp`: scopes updated in place, the output trace, and `eval` as recursive methods with the source's loops; the recursive walks of `get` and `containsKey` become loops. Each method is proved equal to its `Evaluator` function. |
| `scenarios.dfy` | `Scenarios` | whole evaluations of small programs |

How the model represents the running program:

- **Trees and values.** `read` returns a tree: Integer, Float, Double, symbol string, or list. `eval` returns such a tree, or one of three other things:
  - a closure (the Java lambda made by `lambda`);
  - one of the three built-in operators;
  - null.

  Float and Double are opaque tags. Their numeric value is not modelled.
- **Scopes.** Every `Environment` object is a frame of one arena, a `seq<Frame>`. A frame is its `HashMap` (a `map<Sexp, Value>`) plus the index of its outer scope. That index is always smaller than the frame's own index.
  - Scope 0 is `globalEnvironment`.
  - A closure records the index of the scope it was created in. Closures therefore share scopes by reference, as the Java lambdas do.
- **Keys.** The Java keys are arbitrary objects: `define`, `set!` and lambda parameter lists use whatever tree they are given. So the keys here are arbitrary trees, not only symbols.
- **Output.** What is printed is recorded in an output trace, one entry per `println`:
  - the warning of `set!`;
  - each result printed by `repeat`;
  - the closure printed before each closure call.
- **Fuel.** The Java recursion is unbounded. The model bounds it by a fuel count, the maximum nesting of `eval` calls. Running out is its own error, `OutOfFuel`. The `Fuel` module proves that a result which did not run out is the same for every larger fuel.
- **Two levels.** `Evaluator` gives the meaning of `eval` as mutually recursive functions over a `State`: the arena plus the output trace. `Interpreter.Interp` holds that state in fields and computes `eval` with methods, with these loops:
  - the `for` loop of `repeat`;
  - the `for` loop that fills the `args` array;
  - the loop of the `Environment` constructor;
  - loops that walk the chain for `get` and `containsKey`, which the Java writes as recursion (LISP.java lines 62-77).

  Each method's postcondition equates the result and the new state with the function applied to the old state. The lemmas in `Semantics`, `Fuel` and `Scenarios` are stated over those functions.

Where the code's behaviour differs from what one might expect, the model follows the code:

- **Control characters.** `trim` removes every character up to U+0020 from both ends, but `split("\\s+")` splits only on space, tab, line feed, vertical tab, form feed and carriage return. So another control character at either end of a line is dropped, as `Tokenizer.TrimDropsControl` shows for one in front of a word, while one inside a token stays in it.
- **Blank lines.** `tokenize` of empty or whitespace-only text returns one empty token, `[""]`, not an empty sequence. That is what `String.split` yields. So `parse` never reaches the "unexpected EOF" exception: `Reader.ParseNeverEof`.
- **Unmatched `(`.**
  - A `(` that is the last token fails when `new ArrayList(-1)` is called: an illegal capacity, not EOF.
  - A `(` followed by more tokens but no `)` fails at `tokens.get(0)` on an empty list: out of range.
- **`atom` never produces a Double.** `Float.parseFloat` accepts everything `Double.parseDouble` accepts, so the Double branch of `atom` is dead: `Atoms.DoubleUnreachable`. `read` never produces a Double; Doubles come only from `pi` and arithmetic on it, such as `(+ pi 1)` or `(abs pi)`.
- **Widening.**
  - Two Longs add to a Long.
  - A Short or Byte sum or product is computed in `int` and boxed as an Integer, not a Byte.
  - `abs` of -2^31 is -2^31.
- **Built-ins ignore extra operands**, and fail *out of range* only when operands are missing. An operand that is not a number fails with a type error.
- **A list whose head is not a symbol** evaluates to null and evaluates none of its elements.
- **A null `if` condition** fails when `equals` is called on it. Only Integer 0 is false, so a Double 0.0 is true.
- **Application order.** The operator is looked up before the operands are evaluated. All operands are evaluated even if the operator turns out not to be callable; the result is then null.

## Model

| member | source | states |
|---|---|---|
| Values.Wrap | src/lispinterpreter/main/LISP.java:203 | the 32-bit result is congruent to the exact value modulo 2^32 and equals it when it fits |
| Tokenizer.TrimStart | src/lispinterpreter/main/LISP.java:81 | what the leading half of `trim` leaves is a suffix of the input that is empty or starts with a visible character |
| Tokenizer.TrimStartRemoves | src/lispinterpreter/main/LISP.java:81 | the prefix the leading half removes is made only of characters up to U+0020, and nothing is left exactly when nothing visible was there |
| Tokenizer.TrimEnd | src/lispinterpreter/main/LISP.java:81 | what the trailing half of `trim` leaves is a prefix of its input that is empty or ends with a visible character |
| Tokenizer.TrimEndRemoves | src/lispinterpreter/main/LISP.java:81 | the suffix the trailing half removes is made only of characters up to U+0020, and an input that starts with a visible character keeps something |
| Tokenizer.Trim | src/lispinterpreter/main/LISP.java:81 | `trim` leaves the contiguous stretch of the input between the prefix `TrimStart` removes and the suffix `TrimEnd` removes (both made of characters up to U+0020 only, by `TrimStartRemoves` and `TrimEndRemoves`); it starts and ends with a visible character |
| Tokenizer.TrimRemoves | src/lispinterpreter/main/LISP.java:81 | `trim` leaves nothing if and only if nothing visible was there |
| Tokenizer.TrimNonSpace | src/lispinterpreter/main/LISP.java:81 | on text whose only control characters are whitespace, `trim` removes whitespace only: the non-whitespace text is unchanged |
| Tokenizer.Pad | src/lispinterpreter/main/LISP.java:81 | both `replaceAll` calls only lengthen the text, and leave text without parentheses unchanged |
| Tokenizer.SplitSpaces | src/lispinterpreter/main/LISP.java:81 | every piece of `split("\\s+")` is non-empty and contains no whitespace; that the pieces are maximal runs is stated by `SplitOneWord` and `SplitWordGap` |
| Tokenizer.SplitOneWord | src/lispinterpreter/main/LISP.java:81 | a non-empty string without whitespace is one piece, never split further |
| Tokenizer.SplitWordGap | src/lispinterpreter/main/LISP.java:81 | a word followed by a non-empty run of whitespace is split off whole, and the whitespace yields no piece: `split(w + sp + rest) == [w] + split(rest)` |
| Tokenizer.TrimBlankEnds | src/lispinterpreter/main/LISP.java:81 | whitespace around a stretch that starts and ends with a visible character is exactly what `trim` removes |
| Tokenizer.TokenizeWord | src/lispinterpreter/main/LISP.java:80-82 | a line whose only visible text is one word without parentheses, surrounded by whitespace, tokenizes to exactly that word |
| Tokenizer.Word | src/lispinterpreter/main/LISP.java:81 | one piece of `split("\\s+")` is the longest whitespace-free prefix |
| Tokenizer.Tokenize | src/lispinterpreter/main/LISP.java:80-82 | `tokenize` always returns at least one token |
| Tokenizer.PadIsolates | src/lispinterpreter/main/LISP.java:81 | after both `replaceAll` calls every parenthesis has a space on either side |
| Tokenizer.TokensWellFormed | src/lispinterpreter/main/LISP.java:80-82 | for text with a visible character, every token is "(", ")", or a non-empty piece with no whitespace and no parenthesis |
| Tokenizer.TokensCoverText | src/lispinterpreter/main/LISP.java:80-82 | for every line, blank ones included, the tokens joined are exactly the non-whitespace characters of the padded, trimmed line: nothing lost, added or reordered |
| Tokenizer.TokensKeepText | src/lispinterpreter/main/LISP.java:80-82 | for a line whose only control characters are whitespace, blank lines included, the tokens joined are exactly the input's non-whitespace characters |
| Tokenizer.TrimDropsControl | src/lispinterpreter/main/LISP.java:81 | a control character that is not whitespace in front of a word is dropped by `trim` though `\s` does not match it: `[c] + w` tokenizes to `[w]`, while its non-whitespace text is `[c] + w` |
| Tokenizer.PadNonSpace | src/lispinterpreter/main/LISP.java:81 | padding adds only whitespace |
| Tokenizer.BlankLine | src/lispinterpreter/main/LISP.java:80-82 | the result is `[""]` if and only if the line has no visible character |
| Tokenizer.SplitConcat | src/lispinterpreter/main/LISP.java:81 | the pieces of `split` joined are the non-whitespace characters of the trimmed text |
| Tokenizer.SplitWellFormed | src/lispinterpreter/main/LISP.java:81 | splitting text whose parentheses are isolated yields only well-formed tokens |
| Tokenizer.TrimKeepsIsolated | src/lispinterpreter/main/LISP.java:81 | `trim` keeps every parenthesis isolated |
| Atoms.ParseInt | src/lispinterpreter/main/LISP.java:86 | an accepted token is an optional sign followed by one or more decimal digits, and a negative result comes from a leading '-' |
| Atoms.ParseIntSigned | src/lispinterpreter/main/LISP.java:86 | a sign "", "+" or "-" followed by one or more digits parses to the signed value of the digits exactly when it lies in the 32-bit range, and to nothing otherwise |
| Atoms.Atom | src/lispinterpreter/main/LISP.java:84-98 | an atom is never a list, and a symbol is the token itself |
| Atoms.ParseIntRoundTrip | src/lispinterpreter/main/LISP.java:86 | every 32-bit integer's decimal text parses back to it |
| Atoms.NatToDecimalValue | src/lispinterpreter/main/LISP.java:86 | decimal text of a natural number is all digits and denotes that number |
| Atoms.IntegerFirst | src/lispinterpreter/main/LISP.java:84-87 | the token becomes an Integer if and only if the integer parse accepts it, with the parsed value |
| Atoms.SymbolFallback | src/lispinterpreter/main/LISP.java:84-98 | the token becomes a symbol if and only if the integer, float and double parses all reject it |
| Atoms.DoubleUnreachable | src/lispinterpreter/main/LISP.java:88-93 | when the double syntax is contained in the float syntax, `atom` never yields a Double |
| Atoms.IntegerRange | src/lispinterpreter/main/LISP.java:86 | -2147483648 is accepted and 2147483648 is not |
| Atoms.LeadingZerosAndPlus | src/lispinterpreter/main/LISP.java:86 | a leading '+' and leading zeros are accepted |
| Atoms.NotIntegers | src/lispinterpreter/main/LISP.java:86 | "-", "" and "1.0" are not integers |
| Reader.ReadSound | src/lispinterpreter/main/LISP.java:100-117 | a successful `read` removes a prefix of the tokens whose lexemes serialise the returned tree, and leaves the rest untouched |
| Reader.ItemsSound | src/lispinterpreter/main/LISP.java:106-111 | the list loop's consumed tokens serialise the elements it read plus the closing ")" |
| Reader.ReadComplete | src/lispinterpreter/main/LISP.java:100-117 | the tokens of any tree's serialisation, followed by any tokens, read back as that tree and leave exactly those tokens |
| Reader.ItemsComplete | src/lispinterpreter/main/LISP.java:106-111 | the serialised elements and ")" read back as the list of those elements |
| Reader.ReadCharacterised | src/lispinterpreter/main/LISP.java:100-117 | `read` returns a tree and leaves `rest` if and only if the tokens are a serialisation of that tree followed by `rest` |
| Reader.ReadWhole | src/lispinterpreter/main/LISP.java:100-117 | a serialisation alone reads back as its tree with no tokens left |
| Reader.EofOnlyWhenEmpty | src/lispinterpreter/main/LISP.java:101-102 | `read` raises the EOF error if and only if the token list is empty |
| Reader.ItemsNoEof | src/lispinterpreter/main/LISP.java:106-111 | the list loop never fails with the EOF error: tokens that run out inside a list are an out-of-range failure |
| Reader.ReadErrors | src/lispinterpreter/main/LISP.java:106-113 | ")" is an unexpected close, a lone "(" an illegal capacity, and "( a" and "( ( a )" are out of range |
| Reader.ReadF | src/lispinterpreter/main/LISP.java:100-117 | a successful `read` consumes at least one token |
| Reader.ReadItems | src/lispinterpreter/main/LISP.java:106-111 | a successful list loop consumes at least the closing parenthesis |
| Reader.ParseF | src/lispinterpreter/main/LISP.java:119-121 | `parse` never fails with the end-of-input error |
| Reader.ParseNeverEof | src/lispinterpreter/main/LISP.java:119-121 | `parse` never raises the EOF error, and a blank line parses as the atom of the empty token |
| Reader.TokenReader.Read | src/lispinterpreter/main/LISP.java:100-117 | removing from the mutable token list: the result and the remaining tokens are those of the reader function |
| Reader.Parse | src/lispinterpreter/main/LISP.java:119-121 | `parse` reads one expression from a fresh token list and drops the leftovers |
| Numeric.Add | src/lispinterpreter/main/LISP.java:197-211 | both operands must be numbers; the result has the widened kind; for two Integers it is the sum wrapped to 32 bits |
| Numeric.Multiply | src/lispinterpreter/main/LISP.java:213-227 | both operands must be numbers; the result has the widened kind; for two Integers it is the product wrapped to 32 bits |
| Numeric.Abs | src/lispinterpreter/main/LISP.java:229-239 | the operand must be a number; the result is of its kind; the absolute value of an Integer, except that -2^31 stays -2^31 |
| Numeric.WidenKindTable | src/lispinterpreter/main/LISP.java:197-211 | the widening is symmetric and yields Double, Float, Integer or Long; Double if and only if an operand is Double; Float if and only if there is no Double but a Float; Long if and only if a Long is paired with a Long, Short or Byte |
| Numeric.WidenKind | src/lispinterpreter/main/LISP.java:197-211 | the result type of `add` and `multiply` is one of the operands' types or Integer, never Short or Byte |
| Numeric.AbsKind | src/lispinterpreter/main/LISP.java:229-239 | `abs` keeps a Double, Float, Long or Integer operand's type and boxes Short and Byte as Integer |
| Numeric.OperatorsCommute | src/lispinterpreter/main/LISP.java:197-227 | `add` and `multiply` are commutative, kinds and Integer values included |
| Numeric.IntegerExact | src/lispinterpreter/main/LISP.java:203 | an Integer sum or product that fits in 32 bits is exact |
| Numeric.IntegerOverflow | src/lispinterpreter/main/LISP.java:203 | 2^31-1 + 1 wraps to -2^31, and `abs` of -2^31 is -2^31 |
| Environment.Lookup | src/lispinterpreter/main/LISP.java:62-69 | `get` returns a value whose scope exists |
| Environment.Contains | src/lispinterpreter/main/LISP.java:71-77 | `containsKey` holds when the scope's own map has the key, and whenever `get` is non-null |
| Environment.Chain | src/lispinterpreter/main/LISP.java:62-77 | the scopes walked by `get` and `containsKey` start at the given scope, exist, and end at a scope with no outer one |
| Environment.LookupNull | src/lispinterpreter/main/LISP.java:62-69 | `get` is null if and only if no scope on the chain binds the key to a non-null value: a null binding falls through |
| Environment.LookupFirstBound | src/lispinterpreter/main/LISP.java:62-69 | a non-null result of `get` is the binding in the first scope on the chain that binds the key to non-null |
| Environment.ContainsOnChain | src/lispinterpreter/main/LISP.java:71-77 | `containsKey` holds if and only if some scope on the chain has the key, even bound to null |
| Environment.PutOk | src/lispinterpreter/main/LISP.java:58-60 | `put` keeps the arena well formed and every chain the same |
| Environment.Put | src/lispinterpreter/main/LISP.java:58-60 | `put` writes the value under the key in that scope's map, keeps the other keys of that map and its outer link, and changes no other scope |
| Environment.PutShadows | src/lispinterpreter/main/LISP.java:58-69 | after `put`, `get` in that scope returns the new value (unless it is null) and `containsKey` holds |
| Environment.PutLocal | src/lispinterpreter/main/LISP.java:58-60 | `put` changes `get` and `containsKey` of no other key, and of no key seen from a scope whose chain does not pass through the written one |
| Environment.BindMapKeys | src/lispinterpreter/main/LISP.java:45-52 | the parameter loop binds exactly the parameters |
| Environment.BindMapLast | src/lispinterpreter/main/LISP.java:45-52 | each parameter is bound to the argument at its last occurrence: a later duplicate overwrites an earlier one |
| Environment.BindMap | src/lispinterpreter/main/LISP.java:45-52 | the parameter loop as a map: each step adds or overwrites the binding of one parameter, in order |
| Environment.Extend | src/lispinterpreter/main/LISP.java:44-46 | a new scope is appended: every existing scope stays as it was and the new one links to the given outer scope |
| Environment.ExtendKeepsLookups | src/lispinterpreter/main/LISP.java:45-52 | creating a scope changes no lookup from an existing scope |
| Environment.LexicalLookup | src/lispinterpreter/main/LISP.java:45-77 | in a new scope, `get` finds a non-null parameter binding first and otherwise looks in the outer scope; `containsKey` is a parameter or a key of the outer chain |
| Evaluator.InitialState | src/lispinterpreter/main/LISP.java:245-248 | the global scope with pi, +, * and abs is a well-formed state |
| Evaluator.EvalF | src/lispinterpreter/main/LISP.java:123-191 | evaluation only adds scopes and appends output, keeps the arena well formed, and returns a value whose scope exists |
| Evaluator.EvalForm | src/lispinterpreter/main/LISP.java:126-190 | a list keeps the state well formed, only adds scopes and appends output |
| Evaluator.EvalIf | src/lispinterpreter/main/LISP.java:133-137 | `if` keeps the state well formed, only adds scopes and appends output |
| Evaluator.EvalDefine | src/lispinterpreter/main/LISP.java:138-142 | `define` keeps the state well formed, only adds scopes and appends output |
| Evaluator.EvalSet | src/lispinterpreter/main/LISP.java:143-150 | `set!` keeps the state well formed, only adds scopes and appends output |
| Evaluator.EvalLambda | src/lispinterpreter/main/LISP.java:151-156 | `lambda` keeps the state well formed and returns a value whose scope exists |
| Evaluator.EvalQuote | src/lispinterpreter/main/LISP.java:157-158 | `quote` keeps the state well formed and returns a value whose scope exists |
| Evaluator.EvalRepeat | src/lispinterpreter/main/LISP.java:159-164 | `repeat` keeps the state well formed, only adds scopes and appends output |
| Evaluator.Repeat | src/lispinterpreter/main/LISP.java:161-163 | the rounds of the `repeat` loop keep the state well formed, only add scopes and append output |
| Evaluator.EvalApply | src/lispinterpreter/main/LISP.java:165-184 | application keeps the state well formed, only adds scopes and appends output |
| Evaluator.Apply | src/lispinterpreter/main/LISP.java:171-184 | applying an operator keeps the state well formed, only adds scopes and appends output |
| Evaluator.Call | src/lispinterpreter/main/LISP.java:154-156 | a closure call keeps the state well formed, only adds scopes and appends output |
| Evaluator.EvalGlobal | src/lispinterpreter/main/LISP.java:193-195 | the one-argument `eval` keeps the state well formed, only adds scopes and appends output |
| Evaluator.EvalArgs | src/lispinterpreter/main/LISP.java:167-170 | filled arguments are one per operand and each refers to existing scopes |
| Interpreter.Interp.constructor | src/lispinterpreter/main/LISP.java:245-248 | the global environment holds exactly the four start-up bindings |
| Interpreter.Interp.PutVar | src/lispinterpreter/main/LISP.java:58-60 | `put` writes the key in that scope's map only |
| Interpreter.Interp.Get | src/lispinterpreter/main/LISP.java:62-69 | walking outward returns `Lookup` |
| Interpreter.Interp.ContainsKey | src/lispinterpreter/main/LISP.java:71-77 | walking outward returns `Contains` |
| Interpreter.Interp.NewScope | src/lispinterpreter/main/LISP.java:45-52 | fails out of range, changing nothing, when arguments are fewer than parameters; otherwise appends a scope under the given outer scope binding the parameters |
| Interpreter.Interp.Eval | src/lispinterpreter/main/LISP.java:123-191 | the result and the new state are those of `EvalF` on the old state |
| Interpreter.Interp.EvalTop | src/lispinterpreter/main/LISP.java:193-195 | the result and new state are those of evaluation in the global scope |
| Interpreter.Interp.EvalList | src/lispinterpreter/main/LISP.java:126-185 | dispatch on the head of a list agrees with `EvalForm` |
| Interpreter.Interp.If | src/lispinterpreter/main/LISP.java:133-137 | agrees with `EvalIf` |
| Interpreter.Interp.Define | src/lispinterpreter/main/LISP.java:138-142 | agrees with `EvalDefine` |
| Interpreter.Interp.SetBang | src/lispinterpreter/main/LISP.java:143-150 | agrees with `EvalSet` |
| Interpreter.Interp.RepeatLoop | src/lispinterpreter/main/LISP.java:159-164 | the `for` loop agrees with `EvalRepeat` |
| Interpreter.Interp.Application | src/lispinterpreter/main/LISP.java:165-185 | lookup, argument loop and application agree with `EvalApply` |
| Interpreter.Interp.Operands | src/lispinterpreter/main/LISP.java:167-170 | the loop filling `args` agrees with `EvalArgs` over all operands |
| Interpreter.Interp.ApplyProc | src/lispinterpreter/main/LISP.java:171-185 | agrees with `Apply` |
| Interpreter.Interp.Invoke | src/lispinterpreter/main/LISP.java:154-156 | the lambda body agrees with `Call` |
| Semantics.IfLazy | src/lispinterpreter/main/LISP.java:133-137 | `if` never looks at the branch it does not select: replacing it changes nothing |
| Semantics.DefineBinds | src/lispinterpreter/main/LISP.java:138-142 | a failing right-hand side is the result; otherwise `define` returns its value, writes it under the name into the current scope's own map, prints nothing more, adds no scope, and changes no lookup that cannot reach that entry (any other key, or any scope whose chain avoids the current one) |
| Semantics.SetWarns | src/lispinterpreter/main/LISP.java:143-148 | the output of `set!` is exactly the warning, when the name is unbound on the whole chain, followed by what the global evaluation of the right-hand side prints; for `(set! x)` it is the warning alone |
| Semantics.SetValueIsGlobal | src/lispinterpreter/main/LISP.java:143-150 | the result of `set!` is that of evaluating the right-hand side in the global scope from the state before the form, whatever the current scope and the warning; the value is written under the name into the current scope's own map and reads back |
| Semantics.CallLexical | src/lispinterpreter/main/LISP.java:151-156 | a symbol in a closure body means its parameter binding, or else its binding in the scope where the closure was made, never the caller's |
| Semantics.CallBindsParams | src/lispinterpreter/main/LISP.java:45-52 | a parameter's value in the body is the argument at its last occurrence in the list |
| Semantics.RepeatPrints | src/lispinterpreter/main/LISP.java:159-164 | a completed `repeat` yields null and prints at least once per round, the last entry being a printed result |
| Semantics.RepeatNext | src/lispinterpreter/main/LISP.java:161-163 | a one-step unfolding of `Repeat`, the loop-step helper of `Interpreter.Interp.RepeatLoop`: one more round of `repeat` evaluates the body from the state the earlier rounds left and, unless it fails, appends the printed value |
| Semantics.RepeatAtomic | src/lispinterpreter/main/LISP.java:159-164 | `repeat` of a symbol or a number prints its value once per round, yields null and changes nothing else |
| Semantics.QuoteUnevaluated | src/lispinterpreter/main/LISP.java:157-158 | `quote` yields its operand unevaluated in any scope and state and changes nothing; a quoted number evaluates like the number |
| Semantics.ArgsNext | src/lispinterpreter/main/LISP.java:168-170 | a one-step unfolding of `EvalArgs`, the loop-step helper of `Interpreter.Interp.Operands`: one more round of the argument loop evaluates the next operand from the state the earlier rounds left |
| Semantics.ArgsErrSticks | src/lispinterpreter/main/LISP.java:167-170 | once an operand fails, the argument loop yields that failure |
| Semantics.RepeatErrSticks | src/lispinterpreter/main/LISP.java:161-163 | once a round fails, `repeat` yields that failure |
| Semantics.AtomicArgs | src/lispinterpreter/main/LISP.java:123-170 | operands that are symbols and numbers evaluate to their bindings and to themselves, in order, changing nothing |
| Semantics.ApplicationRule | src/lispinterpreter/main/LISP.java:165-185 | an application with atomic operands is the operator's binding applied to their values |
| Semantics.ClosureRule | src/lispinterpreter/main/LISP.java:151-183 | calling a closure prints it, then evaluates the body in a new last scope whose outer scope is the closure's |
| Semantics.BuiltinArity | src/lispinterpreter/main/LISP.java:171-178 | extra operands are ignored; a built-in fails out of range exactly when operands are missing |
| Fuel.FuelEval | src/lispinterpreter/main/LISP.java:123-191 | one more level of fuel does not change a result that did not run out |
| Fuel.FuelArgs | src/lispinterpreter/main/LISP.java:167-170 | the same for the argument loop |
| Fuel.FuelMonotone | src/lispinterpreter/main/LISP.java:123-191 | any larger fuel gives the same result and state |
| Printing.OutEval | src/lispinterpreter/main/LISP.java:123-191 | what was printed before never changes an evaluation: from the same scopes and any earlier output, the result and the scopes are the same and the same output is appended |
| Printing.OutArgs | src/lispinterpreter/main/LISP.java:167-170 | the same for the argument loop |
| Scenarios.InitialPrelude | src/lispinterpreter/main/LISP.java:245-248 | at start-up pi, +, * and abs are bound globally |
| Scenarios.AddExample | src/lispinterpreter/main/LISP.java:197-203 | `(+ 1 2)` is 3 |
| Scenarios.MultiplyExample | src/lispinterpreter/main/LISP.java:213-219 | `(* 6 7)` is 42 |
| Scenarios.AbsExample | src/lispinterpreter/main/LISP.java:229-239 | `(abs -5)` is 5 |
| Scenarios.AddWraps | src/lispinterpreter/main/LISP.java:203 | `(+ 2147483647 1)` is -2147483648 |
| Scenarios.MissingOperand | src/lispinterpreter/main/LISP.java:171-178 | `(+ 1)` and `(abs)` fail out of range |
| Scenarios.IfExamples | src/lispinterpreter/main/LISP.java:133-137 | `(if 0 1 2)` is 2, `(if 7 1 2)` is 1, `(if 0 1)` fails out of range |
| Scenarios.IfNullCondition | src/lispinterpreter/main/LISP.java:134 | an unbound condition fails |
| Scenarios.ListExamples | src/lispinterpreter/main/LISP.java:126-190 | `quote` returns its operand; `()` fails; `(1 2)` is null |
| Scenarios.RepeatExample | src/lispinterpreter/main/LISP.java:159-164 | `(repeat 3 pi)` prints pi three times and yields null |
| Scenarios.SquareDefine | src/lispinterpreter/main/LISP.java:138-156 | defining `sq` binds a closure over the global scope |
| Scenarios.SquareCall | src/lispinterpreter/main/LISP.java:151-185 | `(sq 5)` is 25, in the state with the call's scope added |
| Scenarios.LexicalDefines | src/lispinterpreter/main/LISP.java:138-142 | three `define`s bind y, f and g globally |
| Scenarios.LexicalExample | src/lispinterpreter/main/LISP.java:151-156 | with y = 1 and `f` returning y, `(g 2)` for `g` = `(lambda (y) (f))` is 1, not 2: scoping is lexical |

## Left out

- `main` (src/lispinterpreter/main/LISP.java:241-262): the REPL loop, standard input, the banner, `quit`, and printing tokens, trees, results and stack traces are I/O. Only the four start-up bindings are modelled.
- Float and Double arithmetic and parsing. The syntax `Float.parseFloat` and `Double.parseDouble` accept is a parameter (`NumSyntax`). Float and Double values are opaque tags, so the value of pi, float sums and `Math.abs` on floats are not modelled. Two distinct floats are therefore equal as keys and as quoted values.
- Long, Short and Byte arithmetic. `atom` never produces these types. They appear only as kinds in the widening table.
- Atoms.ParseInt: accepts only the ASCII digits 0-9, while `Integer.parseInt` also accepts other Unicode decimal digits.
- Exception classes and messages. Each failure is one error kind. `ClassCastException` and `NullPointerException` are both `TypeError`, and list and array indexing past the end is `OutOfRange`.
- Stack overflow from unbounded recursion. Fuel bounds the nesting instead, and exhausting it is `OutOfFuel`.
- Object identity and `toString`. The text of the warning and the closure's printed form are not modelled: the trace records the name warned about, and that a closure was printed.
- Garbage collection. Scopes are never removed from the arena.
- The contents of the `args` array before it is filled. Java fills it with nulls; the model's array starts with default values and every element is written before it is read.
- Concurrency: the program is single-threaded.
