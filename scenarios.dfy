/** Worked evaluations in the global scope, for any state whose global scope
    holds the start-up bindings (as `InitialState()` does). */
module Scenarios {
  import opened Results
  import opened Values
  import opened Environment
  import opened Evaluator
  import Numeric
  import opened Semantics

  function S(name: string): Sexp { Sym(name) }
  function L(items: seq<Sexp>): Sexp { Lst(items) }

  /** The global scope resolves the built-in names to the built-ins. */
  predicate Prelude(s: State) {
    && StateOk(s)
    && Lookup(s.frames, Global, S("+")) == Prim(Add)
    && Lookup(s.frames, Global, S("*")) == Prim(Mul)
    && Lookup(s.frames, Global, S("abs")) == Prim(Abs)
    && Lookup(s.frames, Global, S("pi")) == Data(Dbl)
  }

  lemma {:induction false} InitialPrelude()
    ensures Prelude(InitialState())
  {
  }

  /** A call of a global name with two number operands: the binding applied
      to the numbers. */
  lemma {:induction false} CallWithNumbers(s: State, name: string, j: Int32, k: Int32, f: nat)
    requires StateOk(s) && !Special(name) && f > 0
    ensures EvalGlobal(L([S(name), Int(j), Int(k)]), s, f + 1) ==
            Apply(Lookup(s.frames, Global, S(name)), [Data(Int(j)), Data(Int(k))], s, f)
  {
    var items := [S(name), Int(j), Int(k)];
    assert EvalGlobal(L(items), s, f + 1) == EvalForm(items, Global, s, f);
    ApplicationRule(items, Global, s, f);
    assert Operands(s.frames, Global, items) == [Data(Int(j)), Data(Int(k))];
  }

  /** `(+ 1 2)` is 3 and changes nothing. */
  lemma {:induction false} AddExample(s: State)
    requires Prelude(s)
    ensures EvalGlobal(L([S("+"), Int(1), Int(2)]), s, 3) == Step(Ok(Data(Int(3))), s)
  {
    CallWithNumbers(s, "+", 1, 2, 2);
    Numeric.IntegerExact(1, 2);
  }

  /** `(* 6 7)` is 42. */
  lemma {:induction false} MultiplyExample(s: State)
    requires Prelude(s)
    ensures EvalGlobal(L([S("*"), Int(6), Int(7)]), s, 3) == Step(Ok(Data(Int(42))), s)
  {
    CallWithNumbers(s, "*", 6, 7, 2);
    Numeric.IntegerExact(6, 7);
  }

  /** `(abs -5)` is 5. */
  lemma {:induction false} AbsExample(s: State)
    requires Prelude(s)
    ensures EvalGlobal(L([S("abs"), Int(-5)]), s, 3) == Step(Ok(Data(Int(5))), s)
  {
    CallWithNumber(s, "abs", -5, 2);
    assert Numeric.Abs(Data(Int(-5))) == Ok(Data(Int(5)));
  }

  /** Integer addition wraps: `(+ 2147483647 1)` is -2147483648. */
  lemma {:induction false} AddWraps(s: State)
    requires Prelude(s)
    ensures EvalGlobal(L([S("+"), Int(MaxInt), Int(1)]), s, 3) == Step(Ok(Data(Int(MinInt))), s)
  {
    CallWithNumbers(s, "+", MaxInt, 1, 2);
    Numeric.IntegerOverflow();
  }

  /** `(+ 1)` and `(abs)` read past the end of the argument array. */
  lemma {:induction false} MissingOperand(s: State)
    requires Prelude(s)
    ensures EvalGlobal(L([S("+"), Int(1)]), s, 3) == Step(Err(OutOfRange), s)
    ensures EvalGlobal(L([S("abs")]), s, 3) == Step(Err(OutOfRange), s)
  {
    CallWithNumber(s, "+", 1, 2);
    assert EvalGlobal(L([S("abs")]), s, 3) == EvalForm([S("abs")], Global, s, 2);
    ApplicationRule([S("abs")], Global, s, 2);
  }

  /** `(if 0 1 2)` is 2 and `(if 7 1 2)` is 1; `(if 0 1)` has no else branch
      to fetch. */
  lemma {:induction false} IfExamples(s: State)
    requires StateOk(s)
    ensures EvalGlobal(L([S("if"), Int(0), Int(1), Int(2)]), s, 3) == Step(Ok(Data(Int(2))), s)
    ensures EvalGlobal(L([S("if"), Int(7), Int(1), Int(2)]), s, 3) == Step(Ok(Data(Int(1))), s)
    ensures EvalGlobal(L([S("if"), Int(0), Int(1)]), s, 3) == Step(Err(OutOfRange), s)
  {
  }

  /** A condition that is null, such as an unbound name, fails. */
  lemma {:induction false} IfNullCondition(s: State, x: string)
    requires StateOk(s) && Lookup(s.frames, Global, S(x)) == Null
    ensures EvalGlobal(L([S("if"), S(x), Int(1), Int(2)]), s, 3) == Step(Err(TypeError), s)
  {
  }

  /** `(quote (a 1))` is the list itself; `()` fails; a list whose head is not
      a symbol, `(1 2)`, is null. */
  lemma {:induction false} ListExamples(s: State)
    requires StateOk(s)
    ensures EvalGlobal(L([S("quote"), L([S("a"), Int(1)])]), s, 2) == Step(Ok(Data(L([S("a"), Int(1)]))), s)
    ensures EvalGlobal(L([]), s, 2) == Step(Err(OutOfRange), s)
    ensures EvalGlobal(L([Int(1), Int(2)]), s, 2) == Step(Ok(Null), s)
  {
  }

  /** `(repeat 3 pi)` prints pi three times and yields null. */
  lemma {:induction false} RepeatExample(s: State)
    requires Prelude(s)
    ensures EvalGlobal(L([S("repeat"), Int(3), S("pi")]), s, 3) ==
            Step(Ok(Null), s.(out := s.out + [Printed(Data(Dbl)), Printed(Data(Dbl)), Printed(Data(Dbl))]))
  {
    var p := Printed(Data(Dbl));
    assert Repeat(S("pi"), Global, s, 2, 1) == Step(Ok(Null), s.(out := s.out + [p]));
    assert Repeat(S("pi"), Global, s, 2, 2) == Step(Ok(Null), s.(out := s.out + [p] + [p]));
    assert s.out + [p] + [p] + [p] == s.out + [p, p, p];
  }

  /** The body of `(lambda (x) (* x x))`. */
  function SquareBody(): Sexp { L([S("*"), S("x"), S("x")]) }

  /** `(define sq (lambda (x) (* x x)))` binds `sq` to a closure over the
      global scope. */
  lemma {:induction false} SquareDefine(s: State)
    requires StateOk(s)
    ensures var r := EvalGlobal(L([S("define"), S("sq"), L([S("lambda"), L([S("x")]), SquareBody()])]), s, 3);
            && r.res == Ok(Closure([S("x")], Some(SquareBody()), Global))
            && r.st == s.(frames := Put(s.frames, Global, S("sq"), Closure([S("x")], Some(SquareBody()), Global)))
  {
  }

  /** The body `(* x x)` is 25 in any scope where `x` is 5 and `*` the
      built-in multiplication. */
  lemma {:induction false} SquareBodyValue(t: State, n: nat)
    requires StateOk(t) && n < |t.frames|
    requires Lookup(t.frames, n, S("x")) == Data(Int(5)) && Lookup(t.frames, n, S("*")) == Prim(Mul)
    ensures EvalF(SquareBody(), n, t, 3) == Step(Ok(Data(Int(25))), t)
  {
    var body := [S("*"), S("x"), S("x")];
    ApplicationRule(body, n, t, 2);
    assert Operands(t.frames, n, body) == [Data(Int(5)), Data(Int(5))];
    Numeric.IntegerExact(5, 5);
  }

  /** A call of a global name with one number operand: the binding applied
      to the number. */
  lemma {:induction false} CallWithNumber(s: State, name: string, k: Int32, f: nat)
    requires StateOk(s) && !Special(name) && f > 0
    ensures EvalGlobal(L([S(name), Int(k)]), s, f + 1) ==
            Apply(Lookup(s.frames, Global, S(name)), [Data(Int(k))], s, f)
  {
    var items := [S(name), Int(k)];
    assert EvalGlobal(L(items), s, f + 1) == EvalForm(items, Global, s, f);
    ApplicationRule(items, Global, s, f);
    assert Operands(s.frames, Global, items) == [Data(Int(k))];
  }

  /** The scope `(sq 5)` evaluates the body in. */
  function SquareScope(s: State): State
    requires StateOk(s)
  {
    State(Extend(s.frames, Global, map[S("x") := Data(Int(5))]), s.out + [LambdaPrinted])
  }

  lemma {:induction false} SquareEnter(s: State)
    requires Prelude(s)
    ensures StateOk(SquareScope(s))
    ensures Apply(Closure([S("x")], Some(SquareBody()), Global), [Data(Int(5))], s, 3) ==
            EvalF(SquareBody(), |s.frames|, SquareScope(s), 3)
    ensures Lookup(SquareScope(s).frames, |s.frames|, S("x")) == Data(Int(5))
    ensures Lookup(SquareScope(s).frames, |s.frames|, S("*")) == Prim(Mul)
  {
    var m := map[S("x") := Data(Int(5))];
    assert BindMap([S("x")], [Data(Int(5))]) == m;
    ClosureRule([S("x")], SquareBody(), Global, [Data(Int(5))], s, 3);
    LexicalLookup(s.frames, Global, m, S("x"));
    LexicalLookup(s.frames, Global, m, S("*"));
  }

  /** With `sq` so bound, `(sq 5)` prints the closure and is 25. */
  lemma {:induction false} SquareCall(s: State)
    requires Prelude(s) && Lookup(s.frames, Global, S("sq")) == Closure([S("x")], Some(SquareBody()), Global)
    ensures EvalGlobal(L([S("sq"), Int(5)]), s, 4) == Step(Ok(Data(Int(25))), SquareScope(s))
  {
    CallWithNumber(s, "sq", 5, 3);
    SquareEnter(s);
    SquareBodyValue(SquareScope(s), |s.frames|);
  }

  /** `f` as `(lambda () y)` and `g` as `(lambda (y) (f))`, both closures
      over the global scope. */
  function FClosure(): Value { Closure([], Some(S("y")), Global) }
  function GClosure(): Value { Closure([S("y")], Some(L([S("f")])), Global) }

  /** A call of a name with no operands: the binding applied to nothing. */
  lemma {:induction false} CallWithNothing(t: State, n: nat, name: string, f: nat)
    requires StateOk(t) && n < |t.frames| && !Special(name) && f > 0
    ensures EvalF(L([S(name)]), n, t, f + 1) == Apply(Lookup(t.frames, n, S(name)), [], t, f)
  {
    assert EvalF(L([S(name)]), n, t, f + 1) == EvalForm([S(name)], n, t, f);
    ApplicationRule([S(name)], n, t, f);
  }

  /** Inside `(g 2)`: a scope binding `y` to 2 under the global scope. */
  function InsideG(s: State): State
    requires StateOk(s)
  {
    State(Extend(s.frames, Global, map[S("y") := Data(Int(2))]), s.out + [LambdaPrinted])
  }

  /** Inside `(f)`: a scope binding nothing under the global scope. */
  function InsideF(t: State): State
    requires StateOk(t)
  {
    State(Extend(t.frames, Global, map[]), t.out + [LambdaPrinted])
  }

  lemma {:induction false} EnterG(s: State)
    requires StateOk(s)
    ensures StateOk(InsideG(s))
    ensures Apply(GClosure(), [Data(Int(2))], s, 4) == EvalF(L([S("f")]), |s.frames|, InsideG(s), 4)
    ensures Lookup(InsideG(s).frames, |s.frames|, S("f")) == Lookup(s.frames, Global, S("f"))
    ensures Lookup(InsideG(s).frames, Global, S("y")) == Lookup(s.frames, Global, S("y"))
  {
    var m := map[S("y") := Data(Int(2))];
    assert BindMap([S("y")], [Data(Int(2))]) == m;
    ClosureRule([S("y")], L([S("f")]), Global, [Data(Int(2))], s, 4);
    LexicalLookup(s.frames, Global, m, S("f"));
    ExtendKeepsLookups(s.frames, Global, m, Global, S("y"));
  }

  lemma {:induction false} EnterF(t: State)
    requires StateOk(t)
    ensures StateOk(InsideF(t))
    ensures Apply(FClosure(), [], t, 3) == EvalF(S("y"), |t.frames|, InsideF(t), 3)
    ensures Lookup(InsideF(t).frames, |t.frames|, S("y")) == Lookup(t.frames, Global, S("y"))
  {
    assert BindMap([], []) == map[];
    ClosureRule([], S("y"), Global, [], t, 3);
    LexicalLookup(t.frames, Global, map[], S("y"));
  }

  /** With `y` bound to 1 in the global scope, and `f` and `g` as above, the
      call `(g 2)` is 1: the body of `f` sees the global `y`, not the
      parameter of its caller `g`. */
  lemma {:induction false} LexicalExample(s: State)
    requires StateOk(s)
    requires Lookup(s.frames, Global, S("y")) == Data(Int(1))
    requires Lookup(s.frames, Global, S("f")) == FClosure()
    requires Lookup(s.frames, Global, S("g")) == GClosure()
    ensures EvalGlobal(L([S("g"), Int(2)]), s, 5).res == Ok(Data(Int(1)))
  {
    CallWithNumber(s, "g", 2, 4);
    EnterG(s);
    CallWithNothing(InsideG(s), |s.frames|, "f", 3);
    EnterF(InsideG(s));
  }

  /** `(define name rhs)` in the global scope, for a right-hand side that
      evaluates to `v` without changing the state. */
  lemma {:induction false} DefineGlobal(s: State, name: string, rhs: Sexp, v: Value)
    requires StateOk(s) && ValueOk(v, |s.frames|) && EvalF(rhs, Global, s, 1) == Step(Ok(v), s)
    ensures var t := EvalGlobal(L([S("define"), S(name), rhs]), s, 2).st;
            && t == s.(frames := Put(s.frames, Global, S(name), v))
            && StateOk(t)
            && (v != Null ==> Lookup(t.frames, Global, S(name)) == v)
            && forall k :: k != S(name) ==> Lookup(t.frames, Global, k) == Lookup(s.frames, Global, k)
  {
    PutOk(s.frames, Global, S(name), v);
    PutShadows(s.frames, Global, S(name), v);
    forall k | k != S(name)
      ensures Lookup(Put(s.frames, Global, S(name), v), Global, k) == Lookup(s.frames, Global, k)
    {
      PutLocal(s.frames, Global, S(name), v, Global, k);
    }
  }

  /** The three definitions above, evaluated in turn from any state, set up
      the bindings `LexicalExample` needs. */
  lemma {:induction false} LexicalDefines(s: State)
    requires StateOk(s)
    ensures var s1 := EvalGlobal(L([S("define"), S("y"), Int(1)]), s, 2).st;
            var s2 := EvalGlobal(L([S("define"), S("f"), L([S("lambda"), L([]), S("y")])]), s1, 2).st;
            var s3 := EvalGlobal(L([S("define"), S("g"), L([S("lambda"), L([S("y")]), L([S("f")])])]), s2, 2).st;
            && StateOk(s3)
            && Lookup(s3.frames, Global, S("y")) == Data(Int(1))
            && Lookup(s3.frames, Global, S("f")) == FClosure()
            && Lookup(s3.frames, Global, S("g")) == GClosure()
  {
    DefineGlobal(s, "y", Int(1), Data(Int(1)));
    var s1 := EvalGlobal(L([S("define"), S("y"), Int(1)]), s, 2).st;
    DefineGlobal(s1, "f", L([S("lambda"), L([]), S("y")]), FClosure());
    var s2 := EvalGlobal(L([S("define"), S("f"), L([S("lambda"), L([]), S("y")])]), s1, 2).st;
    DefineGlobal(s2, "g", L([S("lambda"), L([S("y")]), L([S("f")])]), GClosure());
  }
}
