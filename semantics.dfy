/** Properties of the evaluator: errors end a loop, how `repeat` prints,
    laziness of `if`, where `define` and `set!` bind, lexical scoping of
    closure calls, and worked examples from the global scope. */
module Semantics {
  import opened Results
  import opened Values
  import opened Environment
  import opened Evaluator
  import Printing

  /** Once an operand fails, the argument loop yields that failure. */
  lemma {:induction false} ArgsErrSticks(items: seq<Sexp>, env: nat, s: State, f: nat, k: nat, j: nat)
    requires StateOk(s) && env < |s.frames| && k <= j < |items|
    requires EvalArgs(items, env, s, f, k).res.Err?
    ensures EvalArgs(items, env, s, f, j) == EvalArgs(items, env, s, f, k)
    decreases j
  {
    if j > k {
      ArgsErrSticks(items, env, s, f, k, j - 1);
    }
  }

  /** One more round of the loop that fills `args`, from the state the earlier
      rounds left. */
  lemma {:induction false} ArgsNext(items: seq<Sexp>, env: nat, s: State, f: nat, k: nat, vals: seq<Value>, t: State)
    requires StateOk(s) && env < |s.frames| && k + 1 < |items|
    requires EvalArgs(items, env, s, f, k) == ArgsStep(Ok(vals), t)
    ensures StateOk(t) && env < |t.frames|
    ensures EvalArgs(items, env, s, f, k + 1)
            == (var e := EvalF(items[k + 1], env, t, f);
                if e.res.Err? then ArgsStep(Err(e.res.error), e.st) else ArgsStep(Ok(vals + [e.res.value]), e.st))
  {
  }

  /** Once a round of `repeat` fails, the loop yields that failure. */
  lemma {:induction false} RepeatErrSticks(body: Sexp, env: nat, s: State, f: nat, k: nat, j: nat)
    requires StateOk(s) && env < |s.frames| && k <= j
    requires Repeat(body, env, s, f, k).res.Err?
    ensures Repeat(body, env, s, f, j) == Repeat(body, env, s, f, k)
    decreases j
  {
    if j > k {
      RepeatErrSticks(body, env, s, f, k, j - 1);
    }
  }

  /** One more round of `repeat`, from the state the earlier rounds left. */
  lemma {:induction false} RepeatNext(body: Sexp, env: nat, s: State, f: nat, k: nat, t: State)
    requires StateOk(s) && env < |s.frames|
    requires Repeat(body, env, s, f, k) == Step(Ok(Null), t)
    ensures StateOk(t) && env < |t.frames|
    ensures Repeat(body, env, s, f, k + 1)
            == (var e := EvalF(body, env, t, f);
                if e.res.Err? then e else Step(Ok(Null), e.st.(out := e.st.out + [Printed(e.res.value)])))
  {
  }

  /** A `repeat` loop that completes yields null, and its output ends with
      the printed value of the last round, after at least one entry per round. */
  lemma {:induction false} RepeatPrints(body: Sexp, env: nat, s: State, f: nat, k: nat)
    requires StateOk(s) && env < |s.frames|
    ensures Repeat(body, env, s, f, k).res.Ok? ==>
              var t := Repeat(body, env, s, f, k).st;
              && Repeat(body, env, s, f, k).res.value == Null
              && |t.out| >= |s.out| + k
              && (k > 0 ==> t.out[|t.out| - 1].Printed?)
    decreases k
  {
    if k > 0 {
      RepeatPrints(body, env, s, f, k - 1);
    }
  }

  /** A body that is a symbol or a number prints its value once per round,
      and nothing else changes. */
  lemma {:induction false} RepeatAtomic(body: Sexp, env: nat, s: State, f: nat, k: nat)
    requires StateOk(s) && env < |s.frames| && f > 0 && !body.Lst?
    ensures var p := Printed(AtomValue(s.frames, env, body));
            Repeat(body, env, s, f, k) == Step(Ok(Null), s.(out := s.out + seq(k, _ => p)))
    decreases k
  {
    if k > 0 {
      var p := Printed(AtomValue(s.frames, env, body));
      RepeatAtomic(body, env, s, f, k - 1);
      var t := s.(out := s.out + seq(k - 1, _ => p));
      RepeatNext(body, env, s, f, k - 1, t);
      AtomEval(body, env, t, f);
      assert seq(k, _ => p) == seq(k - 1, _ => p) + [p];
    }
  }

  /** `if` evaluates only the branch it selects: whatever stands in the other
      branch, the result is the same. */
  lemma {:induction false} IfLazy(items: seq<Sexp>, env: nat, s: State, f: nat, e: Sexp)
    requires StateOk(s) && env < |s.frames| && |items| >= 4
    ensures var c := EvalF(items[1], env, s, f);
            c.res.Ok? && c.res.value != Null && c.res.value != Data(Int(0)) ==>
              EvalIf(items[3 := e], env, s, f) == EvalIf(items, env, s, f)
    ensures EvalF(items[1], env, s, f).res == Ok(Data(Int(0))) ==>
              EvalIf(items[2 := e], env, s, f) == EvalIf(items, env, s, f)
  {
    assert items[3 := e][1] == items[1] && items[2 := e][1] == items[1];
  }

  /** `define` evaluates the right-hand side in the current scope and then
      writes the name into that scope's own map: the result is the value, the
      name reads back as it (a null value reads back as unbound), the output
      and the number of scopes are those of the evaluation, and every lookup
      that cannot reach the written entry reads as it did before the write. */
  lemma {:induction false} DefineBinds(items: seq<Sexp>, env: nat, s: State, f: nat, from: nat, k: Sexp)
    requires StateOk(s) && env < |s.frames| && |items| >= 3
    ensures var e := EvalF(items[2], env, s, f);
            var r := EvalDefine(items, env, s, f);
            && (e.res.Err? ==> r == e)
            && (e.res.Ok? ==>
                  && r.res == e.res && r.st.out == e.st.out && |r.st.frames| == |e.st.frames|
                  && items[1] in r.st.frames[env].vars && r.st.frames[env].vars[items[1]] == r.res.value
                  && Contains(r.st.frames, env, items[1])
                  && (r.res.value != Null ==> Lookup(r.st.frames, env, items[1]) == r.res.value)
                  && (from < |r.st.frames| && (k != items[1] || env !in Chain(e.st.frames, from)) ==>
                        Lookup(r.st.frames, from, k) == Lookup(e.st.frames, from, k)))
  {
    var e := EvalF(items[2], env, s, f);
    if e.res.Ok? {
      PutShadows(e.st.frames, env, items[1], e.res.value);
      if from < |e.st.frames| && (k != items[1] || env !in Chain(e.st.frames, from)) {
        PutLocal(e.st.frames, env, items[1], e.res.value, from, k);
      }
    }
  }

  /** `set!` warns exactly when the name is unbound on the whole chain, before
      anything the right-hand side prints; the rest of its output is that of
      evaluating the right-hand side in the global scope. */
  lemma {:induction false} SetWarns(items: seq<Sexp>, env: nat, s: State, f: nat)
    requires StateOk(s) && env < |s.frames| && |items| >= 2
    ensures !Contains(s.frames, env, items[1]) ==> s.out + [Warning(items[1])] <= EvalSet(items, env, s, f).st.out
    ensures |items| == 2 ==>
              EvalSet(items, env, s, f).st.out ==
              s.out + (if Contains(s.frames, env, items[1]) then [] else [Warning(items[1])])
    ensures |items| >= 3 ==>
              var g := EvalF(items[2], Global, s, f).st.out;
              && (Contains(s.frames, env, items[1]) ==> EvalSet(items, env, s, f).st.out == g)
              && (!Contains(s.frames, env, items[1]) ==>
                    EvalSet(items, env, s, f).st.out == s.out + [Warning(items[1])] + g[|s.out|..])
  {
    if |items| >= 3 {
      var s1 := s.(out := s.out + [Warning(items[1])]);
      assert StepOk(s1, EvalF(items[2], Global, s1, f));
      Printing.OutEval(items[2], Global, s, f, s1.out);
      Printing.OutEval(items[2], Global, s, f, s.out);
      assert s.(out := s.out) == s && s.(out := s1.out) == s1;
      var g := EvalF(items[2], Global, s, f).st.out;
      assert g == s.out + g[|s.out|..] by { assert g[..|s.out|] == s.out; }
    }
  }

  /** The value `set!` assigns is that of the right-hand side evaluated in the
      global scope from the state before the form, whichever the current scope
      and whether or not a warning was printed; it is then written into the
      current scope's own map under the name and reads back from there. */
  lemma {:induction false} SetValueIsGlobal(items: seq<Sexp>, env: nat, s: State, f: nat)
    requires StateOk(s) && env < |s.frames| && |items| >= 3
    ensures var e := EvalF(items[2], Global, s, f);
            var r := EvalSet(items, env, s, f);
            && r.res == e.res
            && (r.res.Ok? ==>
                  && |r.st.frames| == |e.st.frames|
                  && items[1] in r.st.frames[env].vars && r.st.frames[env].vars[items[1]] == r.res.value
                  && (r.res.value != Null ==> Lookup(r.st.frames, env, items[1]) == r.res.value))
  {
    var s1 := if Contains(s.frames, env, items[1]) then s else s.(out := s.out + [Warning(items[1])]);
    Printing.OutEval(items[2], Global, s, f, s1.out);
    assert s.(out := s1.out) == s1;
    var e := EvalF(items[2], Global, s1, f);
    if e.res.Ok? {
      PutShadows(e.st.frames, env, items[1], e.res.value);
    }
  }

  /** Lexical scoping: a name in a closure body resolves to its parameter when
      the parameter's argument is non-null, and otherwise in the scope the
      closure was created in, whatever scope the call came from. */
  lemma {:induction false} CallLexical(params: seq<Sexp>, x: Sexp, frame: nat, args: seq<Value>, s: State, f: nat)
    requires StateOk(s) && frame < |s.frames| && |params| <= |args|
    requires forall v :: v in args ==> ValueOk(v, |s.frames|)
    requires x.Sym?
    ensures var m := BindMap(params, args);
            Call(params, Some(x), frame, args, s, f + 1).res ==
              Ok(if x in m && m[x] != Null then m[x] else Lookup(s.frames, frame, x))
  {
    LexicalLookup(s.frames, frame, BindMap(params, args), x);
  }

  /** Each parameter that is not repeated later in the list is bound to the
      argument at its own position. */
  lemma {:induction false} CallBindsParams(params: seq<Sexp>, frame: nat, args: seq<Value>, s: State, f: nat, i: nat)
    requires StateOk(s) && frame < |s.frames| && |params| <= |args|
    requires forall v :: v in args ==> ValueOk(v, |s.frames|)
    requires i < |params| && params[i].Sym? && args[i] != Null
    requires LastOccurrence(params, i)
    ensures Call(params, Some(params[i]), frame, args, s, f + 1).res == Ok(args[i])
  {
    BindMapLast(params, args);
    CallLexical(params, params[i], frame, args, s, f);
  }

  /** The names `eval` treats as special forms. */
  predicate Special(name: string) {
    name == "if" || name == "define" || name == "set!" || name == "lambda" || name == "quote" || name == "repeat"
  }

  /** The value of an operand that is not a list: a symbol's binding, or the
      number itself. */
  function AtomValue(fs: seq<Frame>, env: nat, e: Sexp): (v: Value)
    requires LinksOk(fs) && env < |fs|
    ensures ValuesOk(fs) ==> ValueOk(v, |fs|)
  {
    if e.Sym? then Lookup(fs, env, e) else Data(e)
  }

  /** The values of the operands of a list whose operands are not lists. */
  function Operands(fs: seq<Frame>, env: nat, items: seq<Sexp>): (vs: seq<Value>)
    requires LinksOk(fs) && env < |fs| && |items| >= 1
    ensures |vs| == |items| - 1
    ensures ValuesOk(fs) ==> forall v :: v in vs ==> ValueOk(v, |fs|)
  {
    seq(|items| - 1, i requires 0 <= i < |items| - 1 => AtomValue(fs, env, items[i + 1]))
  }

  /** Operands that are symbols or numbers evaluate, in order, to their binding
      or to themselves, without printing or touching any scope. */
  lemma {:induction false} AtomicArgs(items: seq<Sexp>, env: nat, s: State, f: nat, k: nat)
    requires StateOk(s) && env < |s.frames| && k < |items| && f > 0
    requires forall i :: 1 <= i <= k ==> !items[i].Lst?
    ensures EvalArgs(items, env, s, f, k) == ArgsStep(Ok(Operands(s.frames, env, items)[..k]), s)
    decreases k
  {
    if k > 0 {
      AtomicArgs(items, env, s, f, k - 1);
      var vs := Operands(s.frames, env, items);
      ArgsNext(items, env, s, f, k - 1, vs[..k - 1], s);
      AtomEval(items[k], env, s, f);
      assert vs[k - 1] == AtomValue(s.frames, env, items[k]);
      assert vs[..k] == vs[..k - 1] + [vs[k - 1]];
    }
  }

  /** A symbol or a number evaluates to its `AtomValue` and changes nothing. */
  lemma {:induction false} AtomEval(e: Sexp, env: nat, s: State, f: nat)
    requires StateOk(s) && env < |s.frames| && f > 0 && !e.Lst?
    ensures EvalF(e, env, s, f) == Step(Ok(AtomValue(s.frames, env, e)), s)
  {
  }

  /** `quote` yields its operand as data without evaluating it, in any scope
      and state, and changes nothing; for an operand that is a number the
      quoted form and the number itself evaluate alike. */
  lemma {:induction false} QuoteUnevaluated(x: Sexp, rest: seq<Sexp>, env: nat, s: State, f: nat)
    requires StateOk(s) && env < |s.frames|
    ensures EvalF(Lst([Sym("quote"), x] + rest), env, s, f + 1) == Step(Ok(Data(x)), s)
    ensures f > 0 && !x.Lst? && !x.Sym? ==>
              EvalF(Lst([Sym("quote"), x] + rest), env, s, f + 1) == EvalF(x, env, s, f)
  {
    var items := [Sym("quote"), x] + rest;
    assert items[0] == Sym("quote") && items[1] == x;
  }

  /** An application whose operator is a symbol that names no special form and
      whose operands are not lists: the operator's binding applied to the
      operands' values, in the unchanged state. */
  lemma {:induction false} ApplicationRule(items: seq<Sexp>, env: nat, s: State, f: nat)
    requires StateOk(s) && env < |s.frames| && f > 0 && |items| >= 1
    requires items[0].Sym? && !Special(items[0].name)
    requires forall i :: 1 <= i < |items| ==> !items[i].Lst?
    ensures EvalForm(items, env, s, f) ==
            Apply(Lookup(s.frames, env, items[0]), Operands(s.frames, env, items), s, f)
  {
    AtomicArgs(items, env, s, f, |items| - 1);
    assert Operands(s.frames, env, items)[..|items| - 1] == Operands(s.frames, env, items);
  }

  /** Applying a closure with enough arguments prints it, then evaluates its
      body in a new last scope whose outer scope is the closure's. */
  lemma {:induction false} ClosureRule(params: seq<Sexp>, body: Sexp, frame: nat, args: seq<Value>, s: State, f: nat)
    requires StateOk(s) && frame < |s.frames| && |args| >= |params|
    requires forall v :: v in args ==> ValueOk(v, |s.frames|)
    ensures StateOk(State(Extend(s.frames, frame, BindMap(params, args)), s.out + [LambdaPrinted]))
    ensures Apply(Closure(params, Some(body), frame), args, s, f) ==
            EvalF(body, |s.frames|, State(Extend(s.frames, frame, BindMap(params, args)), s.out + [LambdaPrinted]), f)
  {
    BindMapValuesOk(params, args, |s.frames|);
    ExtendOk(s.frames, frame, BindMap(params, args));
  }

  /** A built-in reads only the operands it needs: a binary one the first
      two, `abs` the first; with fewer it fails. */
  lemma {:induction false} BuiltinArity(op: Builtin, args: seq<Value>, s: State, f: nat)
    requires StateOk(s) && forall v :: v in args ==> ValueOk(v, |s.frames|)
    ensures op != Abs && |args| >= 2 ==> Apply(Prim(op), args, s, f) == Apply(Prim(op), args[..2], s, f)
    ensures op == Abs && |args| >= 1 ==> Apply(Prim(op), args, s, f) == Apply(Prim(op), args[..1], s, f)
    ensures Apply(Prim(op), args, s, f).res == Err(OutOfRange) <==> |args| < (if op == Abs then 1 else 2)
  {
    if op != Abs && |args| >= 2 {
      assert args[..2][0] == args[0] && args[..2][1] == args[1];
    }
    if op == Abs && |args| >= 1 {
      assert args[..1][0] == args[0];
    }
  }
}
