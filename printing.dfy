/** What was printed before never influences `eval`: run from the same scopes
    with any earlier output, an evaluation gives the same result and scopes,
    and appends the same output. */
module Printing {
  import opened Results
  import opened Values
  import opened Environment
  import opened Evaluator

  /** `b` is the step `a` with the output that preceded it, the first `n`
      entries of `a`'s output, replaced by `o`. */
  predicate Shifted(a: Step, b: Step, n: nat, o: seq<Output>) {
    n <= |a.st.out| && b == Step(a.res, State(a.st.frames, o + a.st.out[n..]))
  }

  predicate ShiftedArgs(a: ArgsStep, b: ArgsStep, n: nat, o: seq<Output>) {
    n <= |a.st.out| && b == ArgsStep(a.res, State(a.st.frames, o + a.st.out[n..]))
  }

  /** Output appended in two stretches is the output appended in one. */
  lemma {:induction false} Glue(x: seq<Output>, y: seq<Output>, z: seq<Output>, o: seq<Output>)
    requires x <= y <= z
    ensures (o + y[|x|..]) + z[|y|..] == o + z[|x|..]
  {
    assert z[|x|..] == y[|x|..] + z[|y|..] by {
      assert z[..|y|] == y;
      assert z[|x|..] == z[|x|..|y|] + z[|y|..];
    }
  }

  /** One entry appended after the shift is one entry appended before it. */
  lemma {:induction false} AppendShifted(out: seq<Output>, n: nat, o: seq<Output>, x: Output)
    requires n <= |out|
    ensures (o + out[n..]) + [x] == o + (out + [x])[n..]
  {
    assert (out + [x])[n..] == out[n..] + [x];
  }

  lemma {:induction false} OutEval(exp: Sexp, env: nat, s: State, fuel: nat, o: seq<Output>)
    requires StateOk(s) && env < |s.frames|
    ensures Shifted(EvalF(exp, env, s, fuel), EvalF(exp, env, s.(out := o), fuel), |s.out|, o)
    decreases fuel, 0, 0
  {
    if fuel > 0 && exp.Lst? {
      OutForm(exp.items, env, s, fuel - 1, o);
    }
  }

  lemma {:induction false} OutForm(items: seq<Sexp>, env: nat, s: State, f: nat, o: seq<Output>)
    requires StateOk(s) && env < |s.frames|
    ensures Shifted(EvalForm(items, env, s, f), EvalForm(items, env, s.(out := o), f), |s.out|, o)
    decreases f, 4, 0
  {
    if |items| > 0 && items[0].Sym? {
      var name := items[0].name;
      if name == "if" { OutIf(items, env, s, f, o); }
      else if name == "define" { OutDefine(items, env, s, f, o); }
      else if name == "set!" { OutSet(items, env, s, f, o); }
      else if name == "lambda" || name == "quote" { }
      else if name == "repeat" { OutRepeatForm(items, env, s, f, o); }
      else { OutApplyForm(items, env, s, f, o); }
    }
  }

  lemma {:induction false} OutIf(items: seq<Sexp>, env: nat, s: State, f: nat, o: seq<Output>)
    requires StateOk(s) && env < |s.frames|
    ensures Shifted(EvalIf(items, env, s, f), EvalIf(items, env, s.(out := o), f), |s.out|, o)
    decreases f, 3, 0
  {
    if |items| >= 2 {
      OutEval(items[1], env, s, f, o);
      var c := EvalF(items[1], env, s, f);
      if c.res.Ok? && c.res.value != Null {
        var branch := if c.res.value != Data(Int(0)) then 2 else 3;
        if |items| > branch {
          var o2 := o + c.st.out[|s.out|..];
          OutEval(items[branch], env, c.st, f, o2);
          Glue(s.out, c.st.out, EvalF(items[branch], env, c.st, f).st.out, o);
        }
      }
    }
  }

  lemma {:induction false} OutDefine(items: seq<Sexp>, env: nat, s: State, f: nat, o: seq<Output>)
    requires StateOk(s) && env < |s.frames|
    ensures Shifted(EvalDefine(items, env, s, f), EvalDefine(items, env, s.(out := o), f), |s.out|, o)
    decreases f, 3, 0
  {
    if |items| >= 3 {
      OutEval(items[2], env, s, f, o);
    }
  }

  lemma {:induction false} OutSet(items: seq<Sexp>, env: nat, s: State, f: nat, o: seq<Output>)
    requires StateOk(s) && env < |s.frames|
    ensures Shifted(EvalSet(items, env, s, f), EvalSet(items, env, s.(out := o), f), |s.out|, o)
    decreases f, 3, 0
  {
    if |items| >= 2 {
      var s1 := if Contains(s.frames, env, items[1]) then s else s.(out := s.out + [Warning(items[1])]);
      var o1 := o + s1.out[|s.out|..];
      assert s1.out[|s.out|..] == (if Contains(s.frames, env, items[1]) then [] else [Warning(items[1])]);
      assert s1.(out := o1) ==
             if Contains(s.frames, env, items[1]) then s.(out := o) else s.(out := o + [Warning(items[1])]);
      if |items| >= 3 {
        OutEval(items[2], Global, s1, f, o1);
        Glue(s.out, s1.out, EvalF(items[2], Global, s1, f).st.out, o);
      }
    }
  }

  lemma {:induction false} OutRepeatForm(items: seq<Sexp>, env: nat, s: State, f: nat, o: seq<Output>)
    requires StateOk(s) && env < |s.frames|
    ensures Shifted(EvalRepeat(items, env, s, f), EvalRepeat(items, env, s.(out := o), f), |s.out|, o)
    decreases f, 3, 0
  {
    if |items| >= 3 && items[1].Int? && items[1].i > 0 {
      OutRepeat(items[2], env, s, f, items[1].i, o);
    }
  }

  lemma {:induction false} OutRepeat(body: Sexp, env: nat, s: State, f: nat, k: nat, o: seq<Output>)
    requires StateOk(s) && env < |s.frames|
    ensures Shifted(Repeat(body, env, s, f, k), Repeat(body, env, s.(out := o), f, k), |s.out|, o)
    decreases f, 1, k
  {
    if k > 0 {
      OutRepeat(body, env, s, f, k - 1, o);
      var p := Repeat(body, env, s, f, k - 1);
      if p.res.Ok? {
        var o2 := o + p.st.out[|s.out|..];
        OutEval(body, env, p.st, f, o2);
        var e := EvalF(body, env, p.st, f);
        Glue(s.out, p.st.out, e.st.out, o);
        if e.res.Ok? {
          AppendShifted(e.st.out, |s.out|, o, Printed(e.res.value));
        }
      }
    }
  }

  lemma {:induction false} OutApplyForm(items: seq<Sexp>, env: nat, s: State, f: nat, o: seq<Output>)
    requires StateOk(s) && env < |s.frames| && |items| >= 1
    ensures Shifted(EvalApply(items, env, s, f), EvalApply(items, env, s.(out := o), f), |s.out|, o)
    decreases f, 3, 0
  {
    OutArgs(items, env, s, f, |items| - 1, o);
    var a := EvalArgs(items, env, s, f, |items| - 1);
    if a.res.Ok? {
      var o2 := o + a.st.out[|s.out|..];
      OutApply(Lookup(s.frames, env, items[0]), a.res.value, a.st, f, o2);
      Glue(s.out, a.st.out, Apply(Lookup(s.frames, env, items[0]), a.res.value, a.st, f).st.out, o);
    }
  }

  lemma {:induction false} OutArgs(items: seq<Sexp>, env: nat, s: State, f: nat, k: nat, o: seq<Output>)
    requires StateOk(s) && env < |s.frames| && k < |items|
    ensures ShiftedArgs(EvalArgs(items, env, s, f, k), EvalArgs(items, env, s.(out := o), f, k), |s.out|, o)
    decreases f, 1, k
  {
    if k > 0 {
      OutArgs(items, env, s, f, k - 1, o);
      var p := EvalArgs(items, env, s, f, k - 1);
      if p.res.Ok? {
        var o2 := o + p.st.out[|s.out|..];
        OutEval(items[k], env, p.st, f, o2);
        Glue(s.out, p.st.out, EvalF(items[k], env, p.st, f).st.out, o);
      }
    }
  }

  lemma {:induction false} OutApply(proc: Value, args: seq<Value>, s: State, f: nat, o: seq<Output>)
    requires StateOk(s) && ValueOk(proc, |s.frames|)
    requires forall v :: v in args ==> ValueOk(v, |s.frames|)
    ensures Shifted(Apply(proc, args, s, f), Apply(proc, args, s.(out := o), f), |s.out|, o)
    decreases f, 2, 0
  {
    if proc.Closure? {
      var s1 := s.(out := s.out + [LambdaPrinted]);
      OutCall(proc.params, proc.body, proc.frame, args, s1, f, o + [LambdaPrinted]);
      var r := Call(proc.params, proc.body, proc.frame, args, s1, f);
      assert r.st.out[|s.out|..] == [LambdaPrinted] + r.st.out[|s1.out|..] by {
        assert r.st.out[..|s1.out|] == s1.out;
      }
    }
  }

  lemma {:induction false} OutCall(params: seq<Sexp>, body: Option<Sexp>, frame: nat, args: seq<Value>, s: State, f: nat, o: seq<Output>)
    requires StateOk(s) && frame < |s.frames|
    requires forall v :: v in args ==> ValueOk(v, |s.frames|)
    ensures Shifted(Call(params, body, frame, args, s, f), Call(params, body, frame, args, s.(out := o), f), |s.out|, o)
    decreases f, 1, 0
  {
    if body.Some? && |args| >= |params| {
      var m := BindMap(params, args);
      BindMapValuesOk(params, args, |s.frames|);
      ExtendOk(s.frames, frame, m);
      OutEval(body.value, |s.frames|, s.(frames := Extend(s.frames, frame, m)), f, o);
    }
  }
}
