/** The depth bound is only a bound: an evaluation that does not run out of
    fuel gives the same result and state with any larger amount. */
module Fuel {
  import opened Results
  import opened Values
  import opened Environment
  import opened Evaluator

  /** What each lemma below states of its function: one more unit of fuel
      changes nothing unless the result was the out-of-fuel error. */
  predicate Stable(a: Step, b: Step) {
    a.res != Err(OutOfFuel) ==> b == a
  }

  lemma {:induction false} FuelEval(exp: Sexp, env: nat, s: State, fuel: nat)
    requires StateOk(s) && env < |s.frames|
    ensures Stable(EvalF(exp, env, s, fuel), EvalF(exp, env, s, fuel + 1))
    decreases fuel, 0, 0
  {
    if fuel > 0 && exp.Lst? {
      FuelForm(exp.items, env, s, fuel - 1);
    }
  }

  lemma {:induction false} FuelForm(items: seq<Sexp>, env: nat, s: State, f: nat)
    requires StateOk(s) && env < |s.frames|
    ensures Stable(EvalForm(items, env, s, f), EvalForm(items, env, s, f + 1))
    decreases f, 4, 0
  {
    if |items| > 0 && items[0].Sym? {
      var name := items[0].name;
      if name == "if" { FuelIf(items, env, s, f); }
      else if name == "define" { FuelDefine(items, env, s, f); }
      else if name == "set!" { FuelSet(items, env, s, f); }
      else if name == "lambda" || name == "quote" { }
      else if name == "repeat" { FuelRepeatForm(items, env, s, f); }
      else { FuelApplyForm(items, env, s, f); }
    }
  }

  lemma {:induction false} FuelIf(items: seq<Sexp>, env: nat, s: State, f: nat)
    requires StateOk(s) && env < |s.frames|
    ensures Stable(EvalIf(items, env, s, f), EvalIf(items, env, s, f + 1))
    decreases f, 3, 0
  {
    if |items| >= 2 {
      FuelEval(items[1], env, s, f);
      var c := EvalF(items[1], env, s, f);
      if c.res.Ok? && c.res.value != Null {
        var branch := if c.res.value != Data(Int(0)) then 2 else 3;
        if |items| > branch {
          FuelEval(items[branch], env, c.st, f);
        }
      }
    }
  }

  lemma {:induction false} FuelDefine(items: seq<Sexp>, env: nat, s: State, f: nat)
    requires StateOk(s) && env < |s.frames|
    ensures Stable(EvalDefine(items, env, s, f), EvalDefine(items, env, s, f + 1))
    decreases f, 3, 0
  {
    if |items| >= 3 {
      FuelEval(items[2], env, s, f);
    }
  }

  lemma {:induction false} FuelSet(items: seq<Sexp>, env: nat, s: State, f: nat)
    requires StateOk(s) && env < |s.frames|
    ensures Stable(EvalSet(items, env, s, f), EvalSet(items, env, s, f + 1))
    decreases f, 3, 0
  {
    if |items| >= 3 {
      var s1 := if Contains(s.frames, env, items[1]) then s else s.(out := s.out + [Warning(items[1])]);
      FuelEval(items[2], Global, s1, f);
    }
  }

  lemma {:induction false} FuelRepeatForm(items: seq<Sexp>, env: nat, s: State, f: nat)
    requires StateOk(s) && env < |s.frames|
    ensures Stable(EvalRepeat(items, env, s, f), EvalRepeat(items, env, s, f + 1))
    decreases f, 3, 0
  {
    if |items| >= 3 && items[1].Int? && items[1].i > 0 {
      FuelRepeat(items[2], env, s, f, items[1].i);
    }
  }

  lemma {:induction false} FuelRepeat(body: Sexp, env: nat, s: State, f: nat, k: nat)
    requires StateOk(s) && env < |s.frames|
    ensures Stable(Repeat(body, env, s, f, k), Repeat(body, env, s, f + 1, k))
    decreases f, 1, k
  {
    if k > 0 {
      FuelRepeat(body, env, s, f, k - 1);
      var p := Repeat(body, env, s, f, k - 1);
      if p.res.Ok? {
        FuelEval(body, env, p.st, f);
      }
    }
  }

  lemma {:induction false} FuelApplyForm(items: seq<Sexp>, env: nat, s: State, f: nat)
    requires StateOk(s) && env < |s.frames| && |items| >= 1
    ensures Stable(EvalApply(items, env, s, f), EvalApply(items, env, s, f + 1))
    decreases f, 3, 0
  {
    FuelArgs(items, env, s, f, |items| - 1);
    var a := EvalArgs(items, env, s, f, |items| - 1);
    if a.res.Ok? {
      FuelApply(Lookup(s.frames, env, items[0]), a.res.value, a.st, f);
    }
  }

  lemma {:induction false} FuelArgs(items: seq<Sexp>, env: nat, s: State, f: nat, k: nat)
    requires StateOk(s) && env < |s.frames| && k < |items|
    ensures EvalArgs(items, env, s, f, k).res != Err(OutOfFuel) ==>
              EvalArgs(items, env, s, f + 1, k) == EvalArgs(items, env, s, f, k)
    decreases f, 1, k
  {
    if k > 0 {
      FuelArgs(items, env, s, f, k - 1);
      var p := EvalArgs(items, env, s, f, k - 1);
      if p.res.Ok? {
        FuelEval(items[k], env, p.st, f);
      }
    }
  }

  lemma {:induction false} FuelApply(proc: Value, args: seq<Value>, s: State, f: nat)
    requires StateOk(s) && ValueOk(proc, |s.frames|)
    requires forall v :: v in args ==> ValueOk(v, |s.frames|)
    ensures Stable(Apply(proc, args, s, f), Apply(proc, args, s, f + 1))
    decreases f, 2, 0
  {
    if proc.Closure? {
      FuelCall(proc.params, proc.body, proc.frame, args, s.(out := s.out + [LambdaPrinted]), f);
    }
  }

  lemma {:induction false} FuelCall(params: seq<Sexp>, body: Option<Sexp>, frame: nat, args: seq<Value>, s: State, f: nat)
    requires StateOk(s) && frame < |s.frames|
    requires forall v :: v in args ==> ValueOk(v, |s.frames|)
    ensures Stable(Call(params, body, frame, args, s, f), Call(params, body, frame, args, s, f + 1))
    decreases f, 1, 0
  {
    if body.Some? && |args| >= |params| {
      var m := BindMap(params, args);
      BindMapValuesOk(params, args, |s.frames|);
      ExtendOk(s.frames, frame, m);
      FuelEval(body.value, |s.frames|, s.(frames := Extend(s.frames, frame, m)), f);
    }
  }

  /** Any amount of fuel beyond one that suffices gives the same outcome. */
  lemma {:induction false} FuelMonotone(exp: Sexp, env: nat, s: State, fuel: nat, more: nat)
    requires StateOk(s) && env < |s.frames| && fuel <= more
    requires EvalF(exp, env, s, fuel).res != Err(OutOfFuel)
    ensures EvalF(exp, env, s, more) == EvalF(exp, env, s, fuel)
    decreases more
  {
    if more > fuel {
      FuelMonotone(exp, env, s, fuel, more - 1);
      FuelEval(exp, env, s, more - 1);
    }
  }
}
