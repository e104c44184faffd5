/** Parsed expressions and runtime values of the interpreter. */
module Values {
  import opened Results

  const MinInt: int := -0x8000_0000
  const MaxInt: int := 0x7fff_ffff

  /** Java's `int`. */
  type Int32 = x: int | -0x8000_0000 <= x < 0x8000_0000

  /** Two's-complement wrap-around of an unbounded integer to 32 bits. */
  function Wrap(x: int): (r: Int32)
    ensures (r - x) % 0x1_0000_0000 == 0
    ensures MinInt <= x <= MaxInt ==> r == x
  {
    (x + 0x8000_0000) % 0x1_0000_0000 - 0x8000_0000
  }

  /** A tree returned by the reader: `atom` yields Integer, Float, Double or a
      String (a symbol), and `read` yields a List of trees.  Float and Double
      are opaque: their numeric value is not modelled. */
  datatype Sexp =
    | Int(i: Int32)
    | Flt
    | Dbl
    | Sym(name: string)
    | Lst(items: seq<Sexp>)

  /** The three built-in operators bound in the global scope. */
  datatype Builtin = Add | Mul | Abs

  /** Everything `eval` can return or store in a scope.  `Closure` is the Java
      lambda made by the `lambda` form: its parameter list, its body (absent
      when the form had no third element), and the arena index of the scope
      it was created in.  `Null` is Java's null. */
  datatype Value =
    | Data(d: Sexp)
    | Closure(params: seq<Sexp>, body: Option<Sexp>, frame: nat)
    | Prim(op: Builtin)
    | Null

  /** Every scope a value refers to exists in an arena of `n` scopes. */
  predicate ValueOk(v: Value, n: nat) {
    v.Closure? ==> v.frame < n
  }

  /** What the interpreter writes to standard output while evaluating. */
  datatype Output =
    | Warning(name: Sexp)   // `set!` of a name unbound on the whole chain
    | Printed(v: Value)     // one result printed by `repeat`
    | LambdaPrinted         // the closure object printed before a call
}
