/** `read` and `parse`: the recursive-descent reader over a mutable token list. */
module Reader {
  import opened Results
  import opened Values
  import opened Atoms
  import opened Tokenizer

  /** What one call of `read` leaves behind: the tree and the unconsumed
      tokens, or the exception it raised. */
  datatype ReadResult = Done(tree: Sexp, rest: seq<string>) | Failed(error: Error)

  /** `read` on the token list `ts`. */
  function ReadF(ts: seq<string>, syn: NumSyntax): (r: ReadResult)
    ensures r.Done? ==> |r.rest| < |ts|
    decreases |ts|, 0
  {
    if ts == [] then Failed(UnexpectedEof)
    else if ts[0] == "(" then
      // `new ArrayList(tokens.size() - 1)` after removing the "("
      if |ts| - 2 < 0 then Failed(IllegalCapacity) else ReadItems(ts[1..], [], syn)
    else if ts[0] == ")" then Failed(UnexpectedClose)
    else Done(Atom(ts[0], syn), ts[1..])
  }

  /** The `while` loop of `read` after an opening parenthesis, with `acc` the
      elements read so far. */
  function ReadItems(ts: seq<string>, acc: seq<Sexp>, syn: NumSyntax): (r: ReadResult)
    ensures r.Done? ==> |r.rest| < |ts|
    decreases |ts|, 1
  {
    if ts == [] then Failed(OutOfRange)
    else if ts[0] == ")" then Done(Lst(acc), ts[1..])
    else match ReadF(ts, syn)
      case Failed(e) => Failed(e)
      case Done(t, rest) => ReadItems(rest, acc + [t], syn)
  }

  /** `parse`: tokenize, read one expression, drop the leftover tokens. */
  function ParseF(code: string, syn: NumSyntax): (r: Result<Sexp>)
    ensures r != Err(UnexpectedEof)
  {
    EofOnlyWhenEmpty(Tokenize(code), syn);
    match ReadF(Tokenize(code), syn)
    case Done(t, _) => Ok(t)
    case Failed(e) => Err(e)
  }

  /** A token as the reader sees it: a parenthesis, or the atom it denotes. */
  datatype Lexeme = LOpen | LClose | LAtom(a: Sexp)

  function Lex(tok: string, syn: NumSyntax): Lexeme {
    if tok == "(" then LOpen else if tok == ")" then LClose else LAtom(Atom(tok, syn))
  }

  function LexAll(ts: seq<string>, syn: NumSyntax): (ls: seq<Lexeme>)
    ensures |ls| == |ts|
  {
    seq(|ts|, i requires 0 <= i < |ts| => Lex(ts[i], syn))
  }

  /** Serialisation of a tree back to the lexemes it is read from. */
  function Unread(t: Sexp): seq<Lexeme> {
    match t
    case Lst(items) => [LOpen] + UnreadAll(items) + [LClose]
    case _ => [LAtom(t)]
  }

  function UnreadAll(items: seq<Sexp>): seq<Lexeme> {
    if items == [] then [] else Unread(items[0]) + UnreadAll(items[1..])
  }

  function Size(t: Sexp): nat {
    match t
    case Lst(items) => 1 + SizeAll(items)
    case _ => 1
  }

  function SizeAll(items: seq<Sexp>): nat {
    if items == [] then 0 else Size(items[0]) + SizeAll(items[1..])
  }

  lemma {:induction false} LexAllAppend(a: seq<string>, b: seq<string>, syn: NumSyntax)
    ensures LexAll(a + b, syn) == LexAll(a, syn) + LexAll(b, syn)
  {
  }

  lemma {:induction false} LexAllSlice(ts: seq<string>, i: nat, j: nat, syn: NumSyntax)
    requires i <= j <= |ts|
    ensures LexAll(ts[i..j], syn) == LexAll(ts, syn)[i..j]
  {
  }

  /** Whatever `read` returns, it consumed a prefix of the tokens whose
      lexemes serialise the tree, and left the rest untouched. */
  lemma {:induction false} ReadSound(ts: seq<string>, syn: NumSyntax, t: Sexp, rest: seq<string>)
    requires ReadF(ts, syn) == Done(t, rest)
    ensures |rest| <= |ts| && ts[|ts| - |rest|..] == rest
    ensures LexAll(ts[..|ts| - |rest|], syn) == Unread(t)
    decreases |ts|, 0
  {
    if ts[0] == "(" {
      ItemsSound(ts[1..], [], syn, t, rest);
      OpenStep(ts, rest, t.items, syn);
    } else {
      assert ts[..|ts| - |rest|] == [ts[0]];
    }
  }

  /** An opening parenthesis followed by the tokens of a list's elements and
      its closing parenthesis. */
  lemma {:induction false} OpenStep(ts: seq<string>, rest: seq<string>, items: seq<Sexp>, syn: NumSyntax)
    requires |ts| >= 1 && ts[0] == "("
    requires |rest| <= |ts| - 1 && ts[1..][|ts| - 1 - |rest|..] == rest
    requires LexAll(ts[1..][..|ts| - 1 - |rest|], syn) == UnreadAll(items[0..]) + [LClose]
    ensures ts[|ts| - |rest|..] == rest
    ensures LexAll(ts[..|ts| - |rest|], syn) == Unread(Lst(items))
  {
    var n := |ts| - |rest|;
    assert items[0..] == items;
    assert ts[..n] == [ts[0]] + ts[1..][..n - 1];
    LexAllAppend([ts[0]], ts[1..][..n - 1], syn);
  }

  lemma {:induction false} ItemsSound(ts: seq<string>, acc: seq<Sexp>, syn: NumSyntax,
                                      t: Sexp, rest: seq<string>)
    requires ReadItems(ts, acc, syn) == Done(t, rest)
    ensures |rest| <= |ts| && ts[|ts| - |rest|..] == rest
    ensures t.Lst? && |acc| <= |t.items| && t.items[..|acc|] == acc
    ensures LexAll(ts[..|ts| - |rest|], syn) == UnreadAll(t.items[|acc|..]) + [LClose]
    decreases |ts|, 1
  {
    var n := |ts| - |rest|;
    if ts[0] == ")" {
      assert ts[..n] == [")"];
      assert t.items[|acc|..] == [];
    } else {
      var first := ReadF(ts, syn);
      assert first.Done? && ReadItems(first.rest, acc + [first.tree], syn) == Done(t, rest);
      var t1, rest1 := first.tree, first.rest;
      ReadSound(ts, syn, t1, rest1);
      ItemsSound(rest1, acc + [t1], syn, t, rest);
      ItemsStep(ts, rest1, rest, t.items, acc, t1, syn);
    }
  }

  /** One element read, then the rest of the list: the two consumed stretches
      of tokens glue together. */
  lemma {:induction false} ItemsStep(ts: seq<string>, rest1: seq<string>, rest: seq<string>,
                                     items: seq<Sexp>, acc: seq<Sexp>, t1: Sexp, syn: NumSyntax)
    requires |rest1| <= |ts| && ts[|ts| - |rest1|..] == rest1
    requires LexAll(ts[..|ts| - |rest1|], syn) == Unread(t1)
    requires |rest| <= |rest1| && rest1[|rest1| - |rest|..] == rest
    requires |acc| + 1 <= |items| && items[..|acc| + 1] == acc + [t1]
    requires LexAll(rest1[..|rest1| - |rest|], syn) == UnreadAll(items[|acc| + 1..]) + [LClose]
    ensures |rest| <= |ts| && ts[|ts| - |rest|..] == rest
    ensures |acc| <= |items| && items[..|acc|] == acc
    ensures LexAll(ts[..|ts| - |rest|], syn) == UnreadAll(items[|acc|..]) + [LClose]
  {
    var n1 := |ts| - |rest1|;
    var n2 := |rest1| - |rest|;
    Glue(ts, n1, n2, rest1, syn);
    PrefixStep(items, acc, t1);
    UnreadAllAt(items, |acc|);
  }

  /** Extending the accumulator by one tree extends the known prefix by one. */
  lemma {:induction false} PrefixStep(items: seq<Sexp>, acc: seq<Sexp>, t1: Sexp)
    requires |acc| + 1 <= |items| && items[..|acc| + 1] == acc + [t1]
    ensures items[|acc|] == t1 && items[..|acc|] == acc
  {
    assert items[|acc|] == (acc + [t1])[|acc|];
    assert items[..|acc|] == (acc + [t1])[..|acc|];
  }

  lemma {:induction false} Glue(ts: seq<string>, n1: nat, n2: nat, rest1: seq<string>, syn: NumSyntax)
    requires n1 <= |ts| && ts[n1..] == rest1 && n2 <= |rest1|
    ensures ts[n1 + n2..] == rest1[n2..]
    ensures LexAll(ts[..n1 + n2], syn) == LexAll(ts[..n1], syn) + LexAll(rest1[..n2], syn)
  {
    assert ts[..n1 + n2] == ts[..n1] + rest1[..n2];
    LexAllAppend(ts[..n1], rest1[..n2], syn);
  }

  lemma {:induction false} UnreadAllAt(items: seq<Sexp>, k: nat)
    requires k < |items|
    ensures UnreadAll(items[k..]) == Unread(items[k]) + UnreadAll(items[k + 1..])
  {
    var tail := items[k..];
    assert tail[0] == items[k] && tail[1..] == items[k + 1..];
  }

  /** Every serialisation, followed by any tokens, reads back as its tree and
      leaves exactly those tokens. */
  lemma {:induction false} ReadComplete(t: Sexp, p: seq<string>, rest: seq<string>, syn: NumSyntax)
    requires LexAll(p, syn) == Unread(t)
    ensures ReadF(p + rest, syn) == Done(t, rest)
    decreases Size(t), 0
  {
    assert LexAll(p, syn)[0] == Lex(p[0], syn);
    if t.Lst? {
      assert p[0] == "(";
      LexAllSlice(p, 1, |p|, syn);
      assert Unread(t)[1..] == UnreadAll(t.items) + [LClose];
      assert (p + rest)[1..] == p[1..] + rest;
      ItemsComplete(t.items, [], p[1..], rest, syn);
      assert [] + t.items == t.items;
    } else {
      assert (p + rest)[1..] == rest;
    }
  }

  lemma {:induction false} ItemsComplete(items: seq<Sexp>, acc: seq<Sexp>, p: seq<string>,
                                         rest: seq<string>, syn: NumSyntax)
    requires LexAll(p, syn) == UnreadAll(items) + [LClose]
    ensures ReadItems(p + rest, acc, syn) == Done(Lst(acc + items), rest)
    decreases SizeAll(items), 1
  {
    assert LexAll(p, syn)[0] == Lex(p[0], syn);
    if items == [] {
      assert LexAll(p, syn) == [LClose];
      assert acc + items == acc && (p + rest)[1..] == rest;
    } else {
      var head := Unread(items[0]);
      var k := |head|;
      assert k > 0;
      var tail := UnreadAll(items[1..]) + [LClose];
      assert LexAll(p, syn) == head + tail;
      LexAllSlice(p, 0, k, syn);
      LexAllSlice(p, k, |p|, syn);
      assert (head + tail)[..k] == head && (head + tail)[k..] == tail;
      assert Lex(p[0], syn) == head[0];
      assert (p + rest)[0] == p[0] != ")";
      assert p + rest == p[..k] + (p[k..] + rest);
      ReadComplete(items[0], p[..k], p[k..] + rest, syn);
      assert acc + items == (acc + [items[0]]) + items[1..];
      ItemsComplete(items[1..], acc + [items[0]], p[k..], rest, syn);
    }
  }

  /** `read` succeeds with tree `t` and leftovers `rest` exactly when the
      tokens are a serialisation of `t` followed by `rest`. */
  lemma {:induction false} ReadCharacterised(ts: seq<string>, t: Sexp, rest: seq<string>, syn: NumSyntax)
    ensures ReadF(ts, syn) == Done(t, rest) <==>
            exists n :: 0 <= n <= |ts| && ts[n..] == rest && LexAll(ts[..n], syn) == Unread(t)
  {
    if ReadF(ts, syn) == Done(t, rest) {
      ReadPrefix(ts, t, rest, syn);
    }
    if n :| 0 <= n <= |ts| && ts[n..] == rest && LexAll(ts[..n], syn) == Unread(t) {
      ReadSplit(ts, n, t, syn);
    }
  }

  lemma {:induction false} ReadPrefix(ts: seq<string>, t: Sexp, rest: seq<string>, syn: NumSyntax)
    requires ReadF(ts, syn) == Done(t, rest)
    ensures var n := |ts| - |rest|; 0 <= n <= |ts| && ts[n..] == rest && LexAll(ts[..n], syn) == Unread(t)
  {
    ReadSound(ts, syn, t, rest);
  }

  lemma {:induction false} ReadSplit(ts: seq<string>, n: nat, t: Sexp, syn: NumSyntax)
    requires n <= |ts| && LexAll(ts[..n], syn) == Unread(t)
    ensures ReadF(ts, syn) == Done(t, ts[n..])
  {
    ReadComplete(t, ts[..n], ts[n..], syn);
    assert ts[..n] + ts[n..] == ts;
  }

  /** A fully parenthesised line reads as one tree with no tokens left over. */
  lemma {:induction false} ReadWhole(t: Sexp, ts: seq<string>, syn: NumSyntax)
    requires LexAll(ts, syn) == Unread(t)
    ensures ReadF(ts, syn) == Done(t, [])
  {
    ReadComplete(t, ts, [], syn);
    assert ts + [] == ts;
  }

  /** The end-of-input error arises only when `read` is called on an empty
      list: inside a list, running out of tokens is an out-of-range access. */
  lemma {:induction false} EofOnlyWhenEmpty(ts: seq<string>, syn: NumSyntax)
    ensures ReadF(ts, syn) == Failed(UnexpectedEof) <==> ts == []
    decreases |ts|, 0
  {
    if ts != [] && ts[0] == "(" && |ts| >= 2 {
      ItemsNoEof(ts[1..], [], syn);
    }
  }

  lemma {:induction false} ItemsNoEof(ts: seq<string>, acc: seq<Sexp>, syn: NumSyntax)
    ensures ReadItems(ts, acc, syn) != Failed(UnexpectedEof)
    decreases |ts|, 1
  {
    if ts != [] && ts[0] != ")" {
      EofOnlyWhenEmpty(ts, syn);
      var r := ReadF(ts, syn);
      if r.Done? {
        ItemsNoEof(r.rest, acc + [r.tree], syn);
      }
    }
  }

  /** The three ways an unbalanced line fails. */
  lemma {:induction false} ReadErrors(syn: NumSyntax)
    ensures ReadF([")"], syn) == Failed(UnexpectedClose)
    ensures ReadF(["("], syn) == Failed(IllegalCapacity)
    ensures ReadF(["(", "a"], syn) == Failed(OutOfRange)
    ensures ReadF(["(", "(", "a", ")"], syn) == Failed(OutOfRange)
  {
    assert ["(", "a"][1..] == ["a"];
    assert ReadF(["a"], syn) == Done(Atom("a", syn), []);
    assert ["(", "(", "a", ")"][1..] == ["(", "a", ")"];
    assert ["(", "a", ")"][1..] == ["a", ")"];
    assert ["a", ")"][1..] == [")"];
    assert [")"][1..] == [] && [] + [Atom("a", syn)] == [Atom("a", syn)];
    assert ReadItems([")"], [Atom("a", syn)], syn) == Done(Lst([Atom("a", syn)]), []);
    assert ReadItems(["a", ")"], [], syn) == Done(Lst([Atom("a", syn)]), []);
  }

  /** `parse` never reports the end-of-input error, and a blank line
      tokenizes to [""], which reads as `atom("")`. */
  lemma {:induction false} ParseNeverEof(code: string, syn: NumSyntax)
    ensures ParseF(code, syn) != Err(UnexpectedEof)
    ensures !HasVisible(code) ==> ParseF(code, syn) == Ok(Atom("", syn))
  {
    EofOnlyWhenEmpty(Tokenize(code), syn);
    BlankLine(code);
  }

  /** The token list of `read`, consumed from the front. */
  class TokenReader {
    var tokens: seq<string>
    const syn: NumSyntax

    constructor (ts: seq<string>, syn: NumSyntax)
      ensures tokens == ts && this.syn == syn
    {
      tokens := ts;
      this.syn := syn;
    }

    /** `read`: removes one expression from the front of `tokens`. */
    method Read() returns (r: Result<Sexp>)
      modifies this
      decreases |tokens|
      ensures match ReadF(old(tokens), syn)
              case Done(t, rest) => r == Ok(t) && tokens == rest
              case Failed(e) => r == Err(e)
    {
      if |tokens| == 0 {
        return Err(UnexpectedEof);
      }
      var token := tokens[0];
      tokens := tokens[1..];
      if token == "(" {
        if |tokens| - 1 < 0 {
          return Err(IllegalCapacity);
        }
        var atoms: seq<Sexp> := [];
        while |tokens| == 0 || tokens[0] != ")"
          invariant |tokens| < |old(tokens)|
          invariant ReadItems(tokens, atoms, syn) == ReadF(old(tokens), syn)
          decreases |tokens|
        {
          if |tokens| == 0 {
            return Err(OutOfRange);
          }
          var item := Read();
          if item.Err? {
            return item;
          }
          atoms := atoms + [item.value];
        }
        tokens := tokens[1..];
        return Ok(Lst(atoms));
      } else if token == ")" {
        return Err(UnexpectedClose);
      } else {
        return Ok(Atom(token, syn));
      }
    }
  }

  /** `parse`: a fresh token list, one `read`. */
  method Parse(code: string, syn: NumSyntax) returns (r: Result<Sexp>)
    ensures r == ParseF(code, syn)
  {
    var reader := new TokenReader(Tokenize(code), syn);
    r := reader.Read();
  }
}
