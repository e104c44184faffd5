/** The interpreter as the Java program runs it: scopes that are updated in
    place, an output trace that grows, and `eval` as recursive methods with
    the loops of the source; the recursive walks of `get` and `containsKey`
    along the chain of scopes are written as loops.  Every method is proved
    to agree with the functions of `Evaluator`. */
module Interpreter {
  import opened Results
  import opened Values
  import opened Environment
  import opened Evaluator
  import Numeric
  import Semantics

  class Interp {
    /** Every `Environment` object created so far; index 0 is the global one. */
    var frames: seq<Frame>
    /** Everything printed so far. */
    var out: seq<Output>

    function St(): State
      reads this
    {
      State(frames, out)
    }

    predicate Valid()
      reads this
    {
      StateOk(St())
    }

    /** The global environment with its four start-up bindings. */
    constructor ()
      ensures Valid() && St() == InitialState()
    {
      frames := [Frame(map[], None)];
      out := [];
      new;
      PutVar(Global, Sym("pi"), Data(Dbl));
      PutVar(Global, Sym("+"), Prim(Add));
      PutVar(Global, Sym("*"), Prim(Mul));
      PutVar(Global, Sym("abs"), Prim(Abs));
    }

    /** `put`: bind in scope `id` only. */
    method PutVar(id: nat, key: Sexp, v: Value)
      requires Valid() && id < |frames| && ValueOk(v, |frames|)
      modifies this
      ensures Valid()
      ensures frames == Put(old(frames), id, key, v) && out == old(out)
    {
      PutOk(frames, id, key, v);
      frames := frames[id := frames[id].(vars := frames[id].vars[key := v])];
    }

    /** `get`: walk outward to the first scope with a non-null binding. */
    method Get(id: nat, key: Sexp) returns (v: Value)
      requires Valid() && id < |frames|
      ensures v == Lookup(frames, id, key)
    {
      var cur: nat := id;
      while true
        invariant cur < |frames|
        invariant Lookup(frames, cur, key) == Lookup(frames, id, key)
        decreases cur
      {
        var scope := frames[cur];
        if key in scope.vars && scope.vars[key] != Null {
          return scope.vars[key];
        }
        if scope.outer.None? {
          return Null;
        }
        cur := scope.outer.value;
      }
    }

    /** `containsKey`: walk outward to the first scope holding the key. */
    method ContainsKey(id: nat, key: Sexp) returns (b: bool)
      requires Valid() && id < |frames|
      ensures b == Contains(frames, id, key)
    {
      var cur: nat := id;
      while true
        invariant cur < |frames|
        invariant Contains(frames, cur, key) == Contains(frames, id, key)
        decreases cur
      {
        var scope := frames[cur];
        if key in scope.vars {
          return true;
        }
        if scope.outer.None? {
          return false;
        }
        cur := scope.outer.value;
      }
    }

    /** `new Environment(outer, params, args)`: fails when there are fewer
        arguments than parameters; otherwise the new scope's id. */
    method NewScope(outer: nat, params: seq<Sexp>, args: seq<Value>) returns (r: Result<nat>)
      requires Valid() && outer < |frames|
      requires forall v :: v in args ==> ValueOk(v, |frames|)
      modifies this
      ensures Valid() && out == old(out)
      ensures |args| < |params| ==> r == Err(OutOfRange) && frames == old(frames)
      ensures |args| >= |params| ==>
                r == Ok(old(|frames|)) && frames == Extend(old(frames), outer, BindMap(params, args))
    {
      var inner: map<Sexp, Value> := map[];
      var i := 0;
      while i < |params|
        invariant i <= |params| && i <= |args|
        invariant inner == BindMap(params[..i], args)
      {
        if i >= |args| {
          return Err(OutOfRange);
        }
        assert params[..i + 1][..i] == params[..i];
        inner := inner[params[i] := args[i]];
        i := i + 1;
      }
      assert params[..i] == params;
      BindMapValuesOk(params, args, |frames|);
      ExtendOk(frames, outer, inner);
      frames := frames + [Frame(inner, Some(outer))];
      return Ok(|frames| - 1);
    }

    /** `eval(exp, env)`. */
    method Eval(exp: Sexp, env: nat, fuel: nat) returns (r: Result<Value>)
      requires Valid() && env < |frames|
      modifies this
      ensures Valid() && Step(r, St()) == EvalF(exp, env, old(St()), fuel)
      decreases fuel, 0, 0
    {
      if fuel == 0 {
        return Err(OutOfFuel);
      }
      match exp
      case Sym(_) =>
        var v := Get(env, exp);
        return Ok(v);
      case Lst(items) =>
        r := EvalList(items, env, fuel - 1);
      case _ =>
        return Ok(Data(exp));
    }

    /** `eval(exp)`: the one-argument overload, in the global environment. */
    method EvalTop(exp: Sexp, fuel: nat) returns (r: Result<Value>)
      requires Valid()
      modifies this
      ensures Valid() && Step(r, St()) == EvalGlobal(exp, old(St()), fuel)
    {
      r := Eval(exp, Global, fuel);
    }

    /** The dispatch on the first element of a list. */
    method EvalList(items: seq<Sexp>, env: nat, f: nat) returns (r: Result<Value>)
      requires Valid() && env < |frames|
      modifies this
      ensures Valid() && Step(r, St()) == EvalForm(items, env, old(St()), f)
      decreases f, 4, 0
    {
      if |items| == 0 {
        return Err(OutOfRange);
      }
      if !items[0].Sym? {
        return Ok(Null);
      }
      var name := items[0].name;
      if name == "if" {
        r := If(items, env, f);
      } else if name == "define" {
        r := Define(items, env, f);
      } else if name == "set!" {
        r := SetBang(items, env, f);
      } else if name == "lambda" {
        if |items| < 2 {
          return Err(OutOfRange);
        }
        if !items[1].Lst? {
          return Err(TypeError);
        }
        return Ok(Closure(items[1].items, if |items| < 3 then None else Some(items[2]), env));
      } else if name == "quote" {
        if |items| < 2 {
          return Err(OutOfRange);
        }
        return Ok(Data(items[1]));
      } else if name == "repeat" {
        r := RepeatLoop(items, env, f);
      } else {
        r := Application(items, env, f);
      }
    }

    method If(items: seq<Sexp>, env: nat, f: nat) returns (r: Result<Value>)
      requires Valid() && env < |frames|
      modifies this
      ensures Valid() && Step(r, St()) == EvalIf(items, env, old(St()), f)
      decreases f, 3, 0
    {
      if |items| < 2 {
        return Err(OutOfRange);
      }
      var c := Eval(items[1], env, f);
      if c.Err? {
        return c;
      }
      if c.value == Null {
        return Err(TypeError);
      }
      var branch := if c.value != Data(Int(0)) then 2 else 3;
      if |items| <= branch {
        return Err(OutOfRange);
      }
      r := Eval(items[branch], env, f);
    }

    method Define(items: seq<Sexp>, env: nat, f: nat) returns (r: Result<Value>)
      requires Valid() && env < |frames|
      modifies this
      ensures Valid() && Step(r, St()) == EvalDefine(items, env, old(St()), f)
      decreases f, 3, 0
    {
      if |items| < 3 {
        return Err(OutOfRange);
      }
      r := Eval(items[2], env, f);
      if r.Ok? {
        PutVar(env, items[1], r.value);
      }
    }

    method SetBang(items: seq<Sexp>, env: nat, f: nat) returns (r: Result<Value>)
      requires Valid() && env < |frames|
      modifies this
      ensures Valid() && Step(r, St()) == EvalSet(items, env, old(St()), f)
      decreases f, 3, 0
    {
      if |items| < 2 {
        return Err(OutOfRange);
      }
      var key := items[1];
      var known := ContainsKey(env, key);
      if !known {
        out := out + [Warning(key)];
      }
      if |items| < 3 {
        return Err(OutOfRange);
      }
      r := Eval(items[2], Global, f);
      if r.Ok? {
        PutVar(env, key, r.value);
      }
    }

    /** `repeat`: the `for` loop printing each value of the body. */
    method RepeatLoop(items: seq<Sexp>, env: nat, f: nat) returns (r: Result<Value>)
      requires Valid() && env < |frames|
      modifies this
      ensures Valid() && Step(r, St()) == EvalRepeat(items, env, old(St()), f)
      decreases f, 3, 0
    {
      if |items| < 2 {
        return Err(OutOfRange);
      }
      if !items[1].Int? {
        return Err(TypeError);
      }
      var count := items[1].i;
      if count <= 0 {
        return Ok(Null);
      }
      // The body is fetched in the first round, which always runs here.
      if |items| < 3 {
        return Err(OutOfRange);
      }
      ghost var s0 := St();
      var i := 0;
      while i < count
        invariant 0 <= i <= count && env < |frames|
        invariant Repeat(items[2], env, s0, f, i) == Step(Ok(Null), St())
      {
        Semantics.RepeatNext(items[2], env, s0, f, i, St());
        var v := Eval(items[2], env, f);
        if v.Err? {
          Semantics.RepeatErrSticks(items[2], env, s0, f, i + 1, count);
          return v;
        }
        out := out + [Printed(v.value)];
        i := i + 1;
      }
      return Ok(Null);
    }

    /** The default case: look up the operator, fill `args`, apply. */
    method Application(items: seq<Sexp>, env: nat, f: nat) returns (r: Result<Value>)
      requires Valid() && env < |frames| && |items| >= 1
      modifies this
      ensures Valid() && Step(r, St()) == EvalApply(items, env, old(St()), f)
      decreases f, 3, 0
    {
      var proc := Get(env, items[0]);
      var args := Operands(items, env, f);
      if args.Err? {
        return Err(args.error);
      }
      r := ApplyProc(proc, args.value, f);
    }

    /** The loop that fills the array `args` with the values of the operands,
        left to right; the first failure ends it. */
    method Operands(items: seq<Sexp>, env: nat, f: nat) returns (r: Result<seq<Value>>)
      requires Valid() && env < |frames| && |items| >= 1
      modifies this
      ensures Valid()
      ensures ArgsStep(r, St()) == EvalArgs(items, env, old(St()), f, |items| - 1)
      decreases f, 1, |items|
    {
      ghost var s0 := St();
      var args := new Value[|items| - 1];
      var i := 0;
      while i < args.Length
        invariant 0 <= i <= args.Length && env < |frames|
        invariant EvalArgs(items, env, s0, f, i) == ArgsStep(Ok(args[..i]), St())
      {
        ghost var done := args[..i];
        Semantics.ArgsNext(items, env, s0, f, i, done, St());
        var v := Eval(items[i + 1], env, f);
        if v.Err? {
          Semantics.ArgsErrSticks(items, env, s0, f, i + 1, |items| - 1);
          return Err(v.error);
        }
        args[i] := v.value;
        assert args[..i + 1] == done + [v.value];
        i := i + 1;
      }
      assert args[..] == args[..i];
      r := Ok(args[..]);
    }

    /** Apply an operator to evaluated operands. */
    method ApplyProc(proc: Value, args: seq<Value>, f: nat) returns (r: Result<Value>)
      requires Valid() && ValueOk(proc, |frames|)
      requires forall v :: v in args ==> ValueOk(v, |frames|)
      modifies this
      ensures Valid() && Step(r, St()) == Apply(proc, args, old(St()), f)
      decreases f, 2, 0
    {
      match proc
      case Prim(op) =>
        if op == Abs {
          if |args| < 1 {
            return Err(OutOfRange);
          }
          return Numeric.Abs(args[0]);
        }
        if |args| < 2 {
          return Err(OutOfRange);
        }
        if op == Add {
          return Numeric.Add(args[0], args[1]);
        }
        return Numeric.Multiply(args[0], args[1]);
      case Closure(params, body, frame) =>
        out := out + [LambdaPrinted];
        r := Invoke(params, body, frame, args, f);
      case _ =>
        return Ok(Null);
    }

    /** The body of the Java lambda: a new scope under the closure's own, then
        the body in it. */
    method Invoke(params: seq<Sexp>, body: Option<Sexp>, frame: nat, args: seq<Value>, f: nat) returns (r: Result<Value>)
      requires Valid() && frame < |frames|
      requires forall v :: v in args ==> ValueOk(v, |frames|)
      modifies this
      ensures Valid() && Step(r, St()) == Call(params, body, frame, args, old(St()), f)
      decreases f, 1, 0
    {
      if body.None? {
        return Err(OutOfRange);
      }
      var scope := NewScope(frame, params, args);
      if scope.Err? {
        return Err(scope.error);
      }
      r := Eval(body.value, scope.value, f);
    }
  }
}
