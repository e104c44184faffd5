/** `eval` as functions of the interpreter state: the specification that the
    imperative interpreter class is proved to follow.  `fuel` bounds the depth
    of nested `eval` calls, standing in for the Java call stack. */
module Evaluator {
  import opened Results
  import opened Values
  import opened Environment
  import Numeric

  /** Everything `eval` can change: the scope arena and the output so far. */
  datatype State = State(frames: seq<Frame>, out: seq<Output>)

  predicate StateOk(s: State) {
    FramesOk(s.frames)
  }

  /** Scopes are only ever added, and output only ever appended. */
  predicate Grows(s: State, t: State) {
    |s.frames| <= |t.frames| && s.out <= t.out
  }

  /** The result of one `eval` call and the state after it. */
  datatype Step = Step(res: Result<Value>, st: State)

  /** The result of filling the argument array, and the state after it. */
  datatype ArgsStep = ArgsStep(res: Result<seq<Value>>, st: State)

  /** What every evaluation step guarantees about the state it leaves. */
  predicate StepOk(s: State, r: Step) {
    StateOk(r.st) && Grows(s, r.st) && (r.res.Ok? ==> ValueOk(r.res.value, |r.st.frames|))
  }

  /** `globalEnvironment` is scope 0. */
  const Global: nat := 0

  /** The global scope after the four `put` calls at start-up. */
  function InitialState(): (s: State)
    ensures StateOk(s)
  {
    State([Frame(map[Sym("pi") := Data(Dbl), Sym("+") := Prim(Add),
                     Sym("*") := Prim(Mul), Sym("abs") := Prim(Abs)], None)], [])
  }

  /** `eval(exp, env)`. */
  function EvalF(exp: Sexp, env: nat, s: State, fuel: nat): (r: Step)
    requires StateOk(s) && env < |s.frames|
    ensures StepOk(s, r)
    decreases fuel, 0, 0
  {
    if fuel == 0 then Step(Err(OutOfFuel), s)
    else match exp
      case Sym(_) => Step(Ok(Lookup(s.frames, env, exp)), s)
      case Lst(items) => EvalForm(items, env, s, fuel - 1)
      case _ => Step(Ok(Data(exp)), s)
  }

  /** A list: dispatch on its first element. */
  function EvalForm(items: seq<Sexp>, env: nat, s: State, f: nat): (r: Step)
    requires StateOk(s) && env < |s.frames|
    ensures StepOk(s, r)
    decreases f, 4, 0
  {
    if |items| == 0 then Step(Err(OutOfRange), s)
    else if !items[0].Sym? then Step(Ok(Null), s)
    else
      var name := items[0].name;
      if name == "if" then EvalIf(items, env, s, f)
      else if name == "define" then EvalDefine(items, env, s, f)
      else if name == "set!" then EvalSet(items, env, s, f)
      else if name == "lambda" then EvalLambda(items, env, s)
      else if name == "quote" then EvalQuote(items, s)
      else if name == "repeat" then EvalRepeat(items, env, s, f)
      else EvalApply(items, env, s, f)
  }

  /** `if`: the condition, then only the selected branch.  A null condition
      fails `equals`; only Integer 0 is false. */
  function EvalIf(items: seq<Sexp>, env: nat, s: State, f: nat): (r: Step)
    requires StateOk(s) && env < |s.frames|
    ensures StepOk(s, r)
    decreases f, 3, 0
  {
    if |items| < 2 then Step(Err(OutOfRange), s)
    else
      var c := EvalF(items[1], env, s, f);
      if c.res.Err? then c
      else if c.res.value == Null then Step(Err(TypeError), c.st)
      else
        var branch := if c.res.value != Data(Int(0)) then 2 else 3;
        if |items| <= branch then Step(Err(OutOfRange), c.st)
        else EvalF(items[branch], env, c.st, f)
  }

  /** `define`: evaluate, then bind in the current scope. */
  function EvalDefine(items: seq<Sexp>, env: nat, s: State, f: nat): (r: Step)
    requires StateOk(s) && env < |s.frames|
    ensures StepOk(s, r)
    decreases f, 3, 0
  {
    if |items| < 3 then Step(Err(OutOfRange), s)
    else
      var e := EvalF(items[2], env, s, f);
      if e.res.Err? then e
      else
        PutOk(e.st.frames, env, items[1], e.res.value);
        Step(e.res, e.st.(frames := Put(e.st.frames, env, items[1], e.res.value)))
  }

  /** `set!`: warn if the name is unbound on the whole chain, evaluate the
      right-hand side in the GLOBAL scope, bind the result in the current one. */
  function EvalSet(items: seq<Sexp>, env: nat, s: State, f: nat): (r: Step)
    requires StateOk(s) && env < |s.frames|
    ensures StepOk(s, r)
    decreases f, 3, 0
  {
    if |items| < 2 then Step(Err(OutOfRange), s)
    else
      var key := items[1];
      var s1 := if Contains(s.frames, env, key) then s else s.(out := s.out + [Warning(key)]);
      if |items| < 3 then Step(Err(OutOfRange), s1)
      else
        var e := EvalF(items[2], Global, s1, f);
        if e.res.Err? then e
        else
          PutOk(e.st.frames, env, key, e.res.value);
          Step(e.res, e.st.(frames := Put(e.st.frames, env, key, e.res.value)))
  }

  /** `lambda`: a closure over the current scope; the body is not evaluated. */
  function EvalLambda(items: seq<Sexp>, env: nat, s: State): (r: Step)
    requires StateOk(s) && env < |s.frames|
    ensures StepOk(s, r)
  {
    if |items| < 2 then Step(Err(OutOfRange), s)
    else if !items[1].Lst? then Step(Err(TypeError), s)
    else Step(Ok(Closure(items[1].items, if |items| < 3 then None else Some(items[2]), env)), s)
  }

  /** `quote`: the operand, unevaluated. */
  function EvalQuote(items: seq<Sexp>, s: State): (r: Step)
    requires StateOk(s)
    ensures StepOk(s, r)
  {
    if |items| < 2 then Step(Err(OutOfRange), s) else Step(Ok(Data(items[1])), s)
  }

  /** `repeat`: the count must be a literal Integer (the operand is cast, not
      evaluated); the body is evaluated that many times and the form yields null. */
  function EvalRepeat(items: seq<Sexp>, env: nat, s: State, f: nat): (r: Step)
    requires StateOk(s) && env < |s.frames|
    ensures StepOk(s, r)
    decreases f, 3, 0
  {
    if |items| < 2 then Step(Err(OutOfRange), s)
    else if !items[1].Int? then Step(Err(TypeError), s)
    else if items[1].i <= 0 then Step(Ok(Null), s)
    else if |items| < 3 then Step(Err(OutOfRange), s)
    else Repeat(items[2], env, s, f, items[1].i)
  }

  /** The first `k` rounds of the `repeat` loop: evaluate, print the result. */
  function Repeat(body: Sexp, env: nat, s: State, f: nat, k: nat): (r: Step)
    requires StateOk(s) && env < |s.frames|
    ensures StepOk(s, r)
    decreases f, 1, k
  {
    if k == 0 then Step(Ok(Null), s)
    else
      var p := Repeat(body, env, s, f, k - 1);
      if p.res.Err? then p
      else
        var e := EvalF(body, env, p.st, f);
        if e.res.Err? then e
        else Step(Ok(Null), e.st.(out := e.st.out + [Printed(e.res.value)]))
  }

  /** The default case: look the operator up, evaluate every operand left to
      right in the current scope, then apply. */
  function EvalApply(items: seq<Sexp>, env: nat, s: State, f: nat): (r: Step)
    requires StateOk(s) && env < |s.frames| && |items| >= 1
    ensures StepOk(s, r)
    decreases f, 3, 0
  {
    var proc := Lookup(s.frames, env, items[0]);
    var a := EvalArgs(items, env, s, f, |items| - 1);
    if a.res.Err? then Step(Err(a.res.error), a.st)
    else Apply(proc, a.res.value, a.st, f)
  }

  /** The first `k` rounds of the loop that fills `args`: `args[i]` is the
      value of `items[i + 1]`. */
  function EvalArgs(items: seq<Sexp>, env: nat, s: State, f: nat, k: nat): (r: ArgsStep)
    requires StateOk(s) && env < |s.frames| && k < |items|
    ensures StateOk(r.st) && Grows(s, r.st)
    ensures r.res.Ok? ==> |r.res.value| == k && forall v :: v in r.res.value ==> ValueOk(v, |r.st.frames|)
    decreases f, 1, k
  {
    if k == 0 then ArgsStep(Ok([]), s)
    else
      var p := EvalArgs(items, env, s, f, k - 1);
      if p.res.Err? then p
      else
        var e := EvalF(items[k], env, p.st, f);
        if e.res.Err? then ArgsStep(Err(e.res.error), e.st)
        else ArgsStep(Ok(p.res.value + [e.res.value]), e.st)
  }

  /** Apply the operator: a unary built-in takes `args[0]`, a binary one
      `args[0]` and `args[1]` (extra arguments are ignored); a closure is
      printed and then called; anything else yields null. */
  function Apply(proc: Value, args: seq<Value>, s: State, f: nat): (r: Step)
    requires StateOk(s) && ValueOk(proc, |s.frames|)
    requires forall v :: v in args ==> ValueOk(v, |s.frames|)
    ensures StepOk(s, r)
    decreases f, 2, 0
  {
    match proc
    case Prim(op) =>
      if op == Abs then
        if |args| < 1 then Step(Err(OutOfRange), s) else Step(Numeric.Abs(args[0]), s)
      else if |args| < 2 then Step(Err(OutOfRange), s)
      else if op == Add then Step(Numeric.Add(args[0], args[1]), s)
      else Step(Numeric.Multiply(args[0], args[1]), s)
    case Closure(params, body, frame) =>
      Call(params, body, frame, args, s.(out := s.out + [LambdaPrinted]), f)
    case _ => Step(Ok(Null), s)
  }

  /** A closure call: a fresh scope whose outer scope is the closure's own,
      binding the parameters to the arguments; then the body in it. */
  function Call(params: seq<Sexp>, body: Option<Sexp>, frame: nat, args: seq<Value>, s: State, f: nat): (r: Step)
    requires StateOk(s) && frame < |s.frames|
    requires forall v :: v in args ==> ValueOk(v, |s.frames|)
    ensures StepOk(s, r)
    decreases f, 1, 0
  {
    if body.None? || |args| < |params| then Step(Err(OutOfRange), s)
    else
      var m := BindMap(params, args);
      BindMapValuesOk(params, args, |s.frames|);
      ExtendOk(s.frames, frame, m);
      EvalF(body.value, |s.frames|, s.(frames := Extend(s.frames, frame, m)), f)
  }

  /** `eval(exp)`: the one-argument overload, in the global scope. */
  function EvalGlobal(exp: Sexp, s: State, fuel: nat): (r: Step)
    requires StateOk(s)
    ensures StepOk(s, r)
  {
    EvalF(exp, Global, s, fuel)
  }
}
