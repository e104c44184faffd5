/** `Environment`: a chain of scopes, each a map plus a link to its outer
    scope.  The scopes live in an arena (a sequence) and a scope is named by
    its index, so that closures and inner scopes can share a scope. */
module Environment {
  import opened Results
  import opened Values

  /** One scope: its `inner` map and the index of its `outer` scope. */
  datatype Frame = Frame(vars: map<Sexp, Value>, outer: Option<nat>)

  /** The arena's invariant: it holds the global scope (index 0), every outer
      link points to an older scope, so every chain ends, and every closure
      stored in a scope names a scope of the arena. */
  predicate FramesOk(fs: seq<Frame>) {
    LinksOk(fs) && ValuesOk(fs)
  }

  predicate LinksOk(fs: seq<Frame>) {
    && |fs| > 0
    && (forall i :: 0 <= i < |fs| && fs[i].outer.Some? ==> fs[i].outer.value < i)
  }

  predicate ValuesOk(fs: seq<Frame>) {
    forall i, k :: 0 <= i < |fs| && k in fs[i].vars ==> ValueOk(fs[i].vars[k], |fs|)
  }

  /** `inner.get(key)` gives a non-null value. */
  predicate BoundIn(f: Frame, key: Sexp) {
    key in f.vars && f.vars[key] != Null
  }

  /** `get`: the innermost non-null binding on the chain, or null. */
  function Lookup(fs: seq<Frame>, id: nat, key: Sexp): (v: Value)
    requires LinksOk(fs) && id < |fs|
    ensures ValuesOk(fs) ==> ValueOk(v, |fs|)
    decreases id
  {
    if BoundIn(fs[id], key) then fs[id].vars[key]
    else match fs[id].outer
      case None => Null
      case Some(o) => Lookup(fs, o, key)
  }

  /** `containsKey`: some scope on the chain has the key, even bound to null. */
  function Contains(fs: seq<Frame>, id: nat, key: Sexp): (r: bool)
    requires LinksOk(fs) && id < |fs|
    ensures key in fs[id].vars ==> r
    ensures Lookup(fs, id, key) != Null ==> r
    decreases id
  {
    if key in fs[id].vars then true
    else match fs[id].outer
      case None => false
      case Some(o) => Contains(fs, o, key)
  }

  /** The indices of the scopes on the chain from `id` outward. */
  function Chain(fs: seq<Frame>, id: nat): (c: seq<nat>)
    requires LinksOk(fs) && id < |fs|
    ensures |c| >= 1 && c[0] == id
    ensures forall j :: 0 <= j < |c| ==> c[j] < |fs|
    ensures fs[c[|c| - 1]].outer == None
    decreases id
  {
    match fs[id].outer
    case None => [id]
    case Some(o) => [id] + Chain(fs, o)
  }

  /** Position `j` of the chain `c` is the first to bind `key` to non-null. */
  predicate FirstBoundAt(fs: seq<Frame>, c: seq<nat>, j: nat, key: Sexp)
    requires forall i :: 0 <= i < |c| ==> c[i] < |fs|
  {
    j < |c| && BoundIn(fs[c[j]], key) && forall i :: 0 <= i < j ==> !BoundIn(fs[c[i]], key)
  }

  /** No scope of the chain `c` binds `key` to non-null. */
  predicate NoneBound(fs: seq<Frame>, c: seq<nat>, key: Sexp)
    requires forall i :: 0 <= i < |c| ==> c[i] < |fs|
  {
    forall j :: 0 <= j < |c| ==> !BoundIn(fs[c[j]], key)
  }

  /** `get` returns null exactly when no scope on the chain binds the key to
      a non-null value. */
  lemma {:induction false} LookupNull(fs: seq<Frame>, id: nat, key: Sexp)
    requires LinksOk(fs) && id < |fs|
    ensures Lookup(fs, id, key) == Null <==> NoneBound(fs, Chain(fs, id), key)
    decreases id
  {
    var c := Chain(fs, id);
    if BoundIn(fs[id], key) {
      assert c[0] == id;
    } else if fs[id].outer.None? {
      assert c == [id];
    } else {
      var o := fs[id].outer.value;
      LookupNull(fs, o, key);
      ChainCons(fs, id);
      ConsNoneBound(fs, id, Chain(fs, o), key);
    }
  }

  /** The chain of a scope with an outer scope is that scope, then the outer
      scope's chain. */
  lemma {:induction false} ChainCons(fs: seq<Frame>, id: nat)
    requires LinksOk(fs) && id < |fs| && fs[id].outer.Some?
    ensures fs[id].outer.value < id
    ensures Chain(fs, id) == [id] + Chain(fs, fs[id].outer.value)
  {
  }

  /** `NoneBound` on a chain with one more scope in front. */
  lemma {:induction false} ConsNoneBound(fs: seq<Frame>, id: nat, c: seq<nat>, key: Sexp)
    requires id < |fs| && forall i :: 0 <= i < |c| ==> c[i] < |fs|
    ensures forall i :: 0 <= i < |[id] + c| ==> ([id] + c)[i] < |fs|
    ensures NoneBound(fs, [id] + c, key) <==> !BoundIn(fs[id], key) && NoneBound(fs, c, key)
  {
    var d := [id] + c;
    assert d[0] == id;
    assert forall i :: 0 < i < |d| ==> d[i] == c[i - 1];
    if !NoneBound(fs, c, key) {
      var j :| 0 <= j < |c| && BoundIn(fs[c[j]], key);
      assert d[j + 1] == c[j];
    }
    if !NoneBound(fs, d, key) && !BoundIn(fs[id], key) {
      var j :| 0 <= j < |d| && BoundIn(fs[d[j]], key);
      assert j > 0 && c[j - 1] == d[j];
    }
  }

  /** `SomeHas` on a chain with one more scope in front. */
  lemma {:induction false} ConsSomeHas(fs: seq<Frame>, id: nat, c: seq<nat>, key: Sexp)
    requires id < |fs| && forall i :: 0 <= i < |c| ==> c[i] < |fs|
    ensures forall i :: 0 <= i < |[id] + c| ==> ([id] + c)[i] < |fs|
    ensures SomeHas(fs, [id] + c, key) <==> key in fs[id].vars || SomeHas(fs, c, key)
  {
    var d := [id] + c;
    assert d[0] == id;
    assert forall i :: 0 < i < |d| ==> d[i] == c[i - 1];
    if SomeHas(fs, c, key) {
      var j :| 0 <= j < |c| && key in fs[c[j]].vars;
      assert d[j + 1] == c[j];
    }
    if SomeHas(fs, d, key) && key !in fs[id].vars {
      var j :| 0 <= j < |d| && key in fs[d[j]].vars;
      assert j > 0 && c[j - 1] == d[j];
    }
  }

  /** The first binding position moves one place with one more scope in front
      that does not bind the key. */
  lemma {:induction false} ConsFirstBound(fs: seq<Frame>, id: nat, c: seq<nat>, j: nat, key: Sexp)
    requires id < |fs| && forall i :: 0 <= i < |c| ==> c[i] < |fs|
    requires !BoundIn(fs[id], key) && FirstBoundAt(fs, c, j, key)
    ensures forall i :: 0 <= i < |[id] + c| ==> ([id] + c)[i] < |fs|
    ensures FirstBoundAt(fs, [id] + c, j + 1, key) && ([id] + c)[j + 1] == c[j]
  {
    var d := [id] + c;
    assert forall i :: 0 < i < |d| ==> d[i] == c[i - 1];
  }

  /** A non-null result of `get` is the binding in the first scope on the
      chain that binds the key to a non-null value. */
  lemma {:induction false} LookupFirstBound(fs: seq<Frame>, id: nat, key: Sexp)
    requires LinksOk(fs) && id < |fs|
    ensures Lookup(fs, id, key) != Null ==>
              exists j :: 0 <= j < |Chain(fs, id)| && FirstBoundAt(fs, Chain(fs, id), j, key)
                          && Lookup(fs, id, key) == fs[Chain(fs, id)[j]].vars[key]
    decreases id
  {
    var c := Chain(fs, id);
    if BoundIn(fs[id], key) {
      assert c[0] == id && FirstBoundAt(fs, c, 0, key);
    } else if fs[id].outer.Some? && Lookup(fs, id, key) != Null {
      var o := fs[id].outer.value;
      LookupFirstBound(fs, o, key);
      ChainCons(fs, id);
      var c' := Chain(fs, o);
      var j :| 0 <= j < |c'| && FirstBoundAt(fs, c', j, key) && Lookup(fs, o, key) == fs[c'[j]].vars[key];
      ConsFirstBound(fs, id, c', j, key);
    }
  }

  /** Some scope of the chain `c` has `key`, whatever it is bound to. */
  predicate SomeHas(fs: seq<Frame>, c: seq<nat>, key: Sexp)
    requires forall i :: 0 <= i < |c| ==> c[i] < |fs|
  {
    exists j :: 0 <= j < |c| && key in fs[c[j]].vars
  }

  /** `containsKey` holds exactly when some scope on the chain has the key. */
  lemma {:induction false} ContainsOnChain(fs: seq<Frame>, id: nat, key: Sexp)
    requires LinksOk(fs) && id < |fs|
    ensures Contains(fs, id, key) <==> SomeHas(fs, Chain(fs, id), key)
    decreases id
  {
    var c := Chain(fs, id);
    if key in fs[id].vars {
      assert c[0] == id && key in fs[c[0]].vars;
    } else if fs[id].outer.None? {
      assert c == [id];
    } else {
      var o := fs[id].outer.value;
      ContainsOnChain(fs, o, key);
      ChainCons(fs, id);
      ConsSomeHas(fs, id, Chain(fs, o), key);
    }
  }

  /** `put` (and `HashMap.put` in the constructor): bind in one scope only. */
  function Put(fs: seq<Frame>, id: nat, key: Sexp, v: Value): (r: seq<Frame>)
    requires id < |fs|
    ensures |r| == |fs| && r == fs[id := r[id]]
    ensures r[id].outer == fs[id].outer
    ensures r[id].vars == fs[id].vars[key := v]
  {
    fs[id := fs[id].(vars := fs[id].vars[key := v])]
  }

  lemma {:induction false} PutOk(fs: seq<Frame>, id: nat, key: Sexp, v: Value)
    requires LinksOk(fs) && id < |fs|
    ensures LinksOk(Put(fs, id, key, v))
    ensures ValuesOk(fs) && ValueOk(v, |fs|) ==> ValuesOk(Put(fs, id, key, v))
    ensures Chain(Put(fs, id, key, v), id) == Chain(fs, id)
  {
    ChainsUnchanged(fs, Put(fs, id, key, v), id);
  }

  /** Two arenas with the same links have the same chains. */
  lemma {:induction false} ChainsUnchanged(fs: seq<Frame>, gs: seq<Frame>, id: nat)
    requires LinksOk(fs) && LinksOk(gs) && |fs| <= |gs| && id < |fs|
    requires forall i :: 0 <= i < |fs| ==> gs[i].outer == fs[i].outer
    ensures Chain(gs, id) == Chain(fs, id)
    decreases id
  {
    if fs[id].outer.Some? {
      ChainsUnchanged(fs, gs, fs[id].outer.value);
    }
  }

  /** After `put` of a non-null value, `get` in that scope sees it, and so
      does `containsKey`. */
  lemma {:induction false} PutShadows(fs: seq<Frame>, id: nat, key: Sexp, v: Value)
    requires LinksOk(fs) && id < |fs|
    ensures LinksOk(Put(fs, id, key, v))
    ensures v != Null ==> Lookup(Put(fs, id, key, v), id, key) == v
    ensures Contains(Put(fs, id, key, v), id, key)
  {
    PutOk(fs, id, key, v);
  }

  /** `put` leaves every other key and every outer scope alone: a lookup
      changes only for the key written, and only from a scope whose chain
      passes through the scope written. */
  lemma {:induction false} PutLocal(fs: seq<Frame>, id: nat, key: Sexp, v: Value, from: nat, k: Sexp)
    requires LinksOk(fs) && id < |fs| && from < |fs|
    requires k != key || id !in Chain(fs, from)
    ensures LinksOk(Put(fs, id, key, v))
    ensures Lookup(Put(fs, id, key, v), from, k) == Lookup(fs, from, k)
    ensures Contains(Put(fs, id, key, v), from, k) == Contains(fs, from, k)
  {
    PutLocalLookup(fs, id, key, v, from, k);
    PutLocalContains(fs, id, key, v, from, k);
  }

  lemma {:induction false} PutLocalLookup(fs: seq<Frame>, id: nat, key: Sexp, v: Value, from: nat, k: Sexp)
    requires LinksOk(fs) && id < |fs| && from < |fs|
    requires k != key || id !in Chain(fs, from)
    ensures LinksOk(Put(fs, id, key, v))
    ensures Lookup(Put(fs, id, key, v), from, k) == Lookup(fs, from, k)
    decreases from
  {
    PutOk(fs, id, key, v);
    PutElsewhere(fs, id, key, v, from, k);
    if fs[from].outer.Some? {
      var o := fs[from].outer.value;
      ChainCons(fs, from);
      PutLocalLookup(fs, id, key, v, o, k);
    }
  }

  lemma {:induction false} PutLocalContains(fs: seq<Frame>, id: nat, key: Sexp, v: Value, from: nat, k: Sexp)
    requires LinksOk(fs) && id < |fs| && from < |fs|
    requires k != key || id !in Chain(fs, from)
    ensures LinksOk(Put(fs, id, key, v))
    ensures Contains(Put(fs, id, key, v), from, k) == Contains(fs, from, k)
    decreases from
  {
    PutOk(fs, id, key, v);
    PutElsewhere(fs, id, key, v, from, k);
    if fs[from].outer.Some? {
      var o := fs[from].outer.value;
      ChainCons(fs, from);
      PutLocalContains(fs, id, key, v, o, k);
    }
  }

  /** `put` leaves the entry for `k` in scope `from` alone unless it is the
      entry written. */
  lemma {:induction false} PutElsewhere(fs: seq<Frame>, id: nat, key: Sexp, v: Value, from: nat, k: Sexp)
    requires id < |fs| && from < |fs| && (k != key || from != id)
    ensures Put(fs, id, key, v)[from].outer == fs[from].outer
    ensures (k in Put(fs, id, key, v)[from].vars) == (k in fs[from].vars)
    ensures k in fs[from].vars ==> Put(fs, id, key, v)[from].vars[k] == fs[from].vars[k]
  {
  }

  /** The constructor's loop after binding the first |params| parameters:
      `params[i]` to `args[i]`, a later duplicate overwriting an earlier one. */
  function BindMap(params: seq<Sexp>, args: seq<Value>): map<Sexp, Value>
    requires |params| <= |args|
    decreases |params|
  {
    if params == [] then map[]
    else BindMap(params[..|params| - 1], args)[params[|params| - 1] := args[|params| - 1]]
  }

  /** Exactly the parameters are bound. */
  lemma {:induction false} BindMapKeys(params: seq<Sexp>, args: seq<Value>)
    requires |params| <= |args|
    ensures BindMap(params, args).Keys == set p | p in params
    decreases |params|
  {
    if params != [] {
      var n := |params| - 1;
      BindMapKeys(params[..n], args);
      assert params == params[..n] + [params[n]];
    }
  }

  /** No parameter after position `i` repeats `params[i]`. */
  predicate LastOccurrence(params: seq<Sexp>, i: nat)
    requires i < |params|
  {
    forall j :: i < j < |params| ==> params[j] != params[i]
  }

  /** Every parameter is bound to the argument at its last occurrence. */
  lemma {:induction false} BindMapLast(params: seq<Sexp>, args: seq<Value>)
    requires |params| <= |args|
    ensures forall i :: 0 <= i < |params| && LastOccurrence(params, i) ==>
              params[i] in BindMap(params, args) && BindMap(params, args)[params[i]] == args[i]
    decreases |params|
  {
    if params != [] {
      var n := |params| - 1;
      var front := params[..n];
      BindMapLast(front, args);
      forall i | 0 <= i < |params| && LastOccurrence(params, i)
        ensures params[i] in BindMap(params, args) && BindMap(params, args)[params[i]] == args[i]
      {
        if i < n {
          FrontLastOccurrence(params, i);
        }
      }
    }
  }

  lemma {:induction false} FrontLastOccurrence(params: seq<Sexp>, i: nat)
    requires i < |params| - 1 && LastOccurrence(params, i)
    ensures LastOccurrence(params[..|params| - 1], i) && params[|params| - 1] != params[i]
  {
  }

  /** Every bound value is one of the arguments. */
  lemma {:induction false} BindMapValuesOk(params: seq<Sexp>, args: seq<Value>, n: nat)
    requires |params| <= |args|
    requires forall v :: v in args ==> ValueOk(v, n)
    ensures forall k :: k in BindMap(params, args) ==> ValueOk(BindMap(params, args)[k], n)
    decreases |params|
  {
    if params != [] {
      BindMapValuesOk(params[..|params| - 1], args, n);
      assert args[|params| - 1] in args;
    }
  }

  /** The arena with one more scope, whose outer scope is `parent`. */
  function Extend(fs: seq<Frame>, parent: nat, m: map<Sexp, Value>): (r: seq<Frame>)
    ensures |r| == |fs| + 1 && r[..|fs|] == fs
    ensures r[|fs|] == Frame(m, Some(parent))
  {
    fs + [Frame(m, Some(parent))]
  }

  lemma {:induction false} ExtendOk(fs: seq<Frame>, parent: nat, m: map<Sexp, Value>)
    requires FramesOk(fs) && parent < |fs|
    requires forall k :: k in m ==> ValueOk(m[k], |fs|)
    ensures FramesOk(Extend(fs, parent, m))
  {
  }

  /** A new scope changes no lookup from an existing scope. */
  lemma {:induction false} ExtendKeepsLookups(fs: seq<Frame>, parent: nat, m: map<Sexp, Value>, id: nat, k: Sexp)
    requires LinksOk(fs) && parent < |fs| && id < |fs|
    ensures LinksOk(Extend(fs, parent, m))
    ensures Lookup(Extend(fs, parent, m), id, k) == Lookup(fs, id, k)
    ensures Contains(Extend(fs, parent, m), id, k) == Contains(fs, id, k)
    decreases id
  {
    var gs := Extend(fs, parent, m);
    assert gs[id] == fs[id];
    if fs[id].outer.Some? {
      ExtendKeepsLookups(fs, parent, m, fs[id].outer.value, k);
    }
  }

  /** Lexical scope: in a new scope, a key it does not bind resolves exactly
      as it does in the scope the new one was linked to. */
  lemma {:induction false} LexicalLookup(fs: seq<Frame>, parent: nat, m: map<Sexp, Value>, k: Sexp)
    requires LinksOk(fs) && parent < |fs|
    ensures LinksOk(Extend(fs, parent, m))
    ensures Lookup(Extend(fs, parent, m), |fs|, k) ==
            if k in m && m[k] != Null then m[k] else Lookup(fs, parent, k)
    ensures Contains(Extend(fs, parent, m), |fs|, k) == (k in m || Contains(fs, parent, k))
  {
    ExtendKeepsLookups(fs, parent, m, parent, k);
  }
}
