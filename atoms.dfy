/** `atom`: classify one token as Integer, Float, Double or symbol. */
module Atoms {
  import opened Results
  import opened Values

  /** Which tokens `Float.parseFloat` and `Double.parseDouble` accept.  Their
      grammar (decimal and hexadecimal literals, "NaN", "Infinity", a trailing
      "f" or "d", surrounding control characters) is not modelled. */
  datatype NumSyntax = NumSyntax(float: string -> bool, double: string -> bool)

  predicate IsDigit(c: char) {
    '0' <= c <= '9'
  }

  predicate AllDigits(s: string) {
    forall i :: 0 <= i < |s| ==> IsDigit(s[i])
  }

  /** The number a string of decimal digits denotes. */
  function DecimalValue(ds: string): nat
    requires AllDigits(ds)
    decreases |ds|
  {
    if ds == [] then 0
    else DecimalValue(ds[..|ds| - 1]) * 10 + (ds[|ds| - 1] as int - '0' as int)
  }

  predicate IsSign(c: char) {
    c == '-' || c == '+'
  }

  /** An optional sign followed by one or more decimal digits. */
  predicate IntShape(tok: string) {
    tok != [] && var n := if IsSign(tok[0]) then 1 else 0; n < |tok| && AllDigits(tok[n..])
  }

  /** `Integer.parseInt(token)` (radix 10, ASCII digits): an optional sign,
      one or more digits, and a value that fits in 32 bits; anything else is
      a NumberFormatException, modelled as None. */
  function ParseInt(tok: string): (r: Option<Int32>)
    ensures r.Some? ==> IntShape(tok)
    ensures r.Some? ==> (r.value < 0 ==> tok[0] == '-')
  {
    if tok == [] then None
    else
      var ds := if IsSign(tok[0]) then tok[1..] else tok;
      if ds == [] || !AllDigits(ds) then None
      else
        var v: int := if tok[0] == '-' then -(DecimalValue(ds) as int) else DecimalValue(ds);
        if MinInt <= v <= MaxInt then Some(v) else None
  }

  /** `atom`: the integer parse first, then the float parse, then the double
      parse, and otherwise the token itself as a symbol. */
  function Atom(tok: string, syn: NumSyntax): (a: Sexp)
    ensures !a.Lst?
    ensures a.Sym? ==> a.name == tok
  {
    match ParseInt(tok)
    case Some(n) => Int(n)
    case None =>
      if syn.float(tok) then Flt
      else if syn.double(tok) then Dbl
      else Sym(tok)
  }

  /** Decimal text of a natural number, without leading zeros. */
  function NatToDecimal(n: nat): (s: string)
    decreases n
  {
    if n < 10 then [('0' as int + n) as char]
    else NatToDecimal(n / 10) + [('0' as int + n % 10) as char]
  }

  /** Decimal text of an integer, the way `Integer.toString` writes it. */
  function IntToDecimal(n: int): string {
    if n < 0 then "-" + NatToDecimal(-n) else NatToDecimal(n)
  }

  lemma {:induction false} NatToDecimalValue(n: nat)
    ensures NatToDecimal(n) != [] && AllDigits(NatToDecimal(n))
    ensures DecimalValue(NatToDecimal(n)) == n
    decreases n
  {
    if n >= 10 {
      NatToDecimalValue(n / 10);
      var s := NatToDecimal(n);
      assert s[..|s| - 1] == NatToDecimal(n / 10);
    }
  }

  /** The integer parse reads back every 32-bit integer from its decimal text. */
  lemma {:induction false} ParseIntRoundTrip(n: Int32)
    ensures ParseInt(IntToDecimal(n)) == Some(n)
  {
    if n < 0 {
      var m: nat := -(n as int);
      NatToDecimalValue(m);
      ParseIntSigned("-", NatToDecimal(m));
    } else {
      NatToDecimalValue(n);
      ParseIntSigned("", NatToDecimal(n));
      assert "" + NatToDecimal(n) == NatToDecimal(n);
    }
  }

  /** Every token of the accepted shape, a sign "", "+" or "-" and digits,
      parses to the signed value of its digits exactly when that value fits
      in 32 bits.  With the shape clause of `ParseInt`, this characterises the
      integer parse completely. */
  lemma {:induction false} ParseIntSigned(sign: string, ds: string)
    requires sign == "" || sign == "+" || sign == "-"
    requires ds != [] && AllDigits(ds)
    ensures IntShape(sign + ds)
    ensures var v := if sign == "-" then -(DecimalValue(ds) as int) else DecimalValue(ds) as int;
            ParseInt(sign + ds) == if MinInt <= v <= MaxInt then Some(v) else None
  {
    var tok := sign + ds;
    if sign == [] {
      assert tok == ds && !IsSign(ds[0]);
      assert tok[0..] == ds;
    } else {
      assert tok[0] == sign[0] && tok[1..] == ds;
    }
  }

  lemma {:induction false} DecimalSnoc(ds: string, c: char)
    requires AllDigits(ds) && IsDigit(c)
    ensures AllDigits(ds + [c])
    ensures DecimalValue(ds + [c]) == DecimalValue(ds) * 10 + (c as int - '0' as int)
  {
    assert (ds + [c])[..|ds|] == ds;
  }

  /** The integer parse has priority: its success decides the atom whatever
      the float and double parses would say. */
  lemma {:induction false} IntegerFirst(tok: string, syn: NumSyntax)
    ensures ParseInt(tok).Some? <==> Atom(tok, syn).Int?
    ensures ParseInt(tok).Some? ==> Atom(tok, syn) == Int(ParseInt(tok).value)
  {
  }

  /** A token is a symbol exactly when no numeric parse accepts it. */
  lemma {:induction false} SymbolFallback(tok: string, syn: NumSyntax)
    ensures Atom(tok, syn) == Sym(tok) <==>
            ParseInt(tok).None? && !syn.float(tok) && !syn.double(tok)
  {
  }

  /** Java's float and double parsers accept the same texts, so once the
      float parse is tried the double branch is never reached. */
  lemma {:induction false} DoubleUnreachable(tok: string, syn: NumSyntax)
    requires syn.double(tok) ==> syn.float(tok)
    ensures Atom(tok, syn) != Dbl
  {
  }

  lemma {:induction false} LeadingZerosAndPlus()
    ensures ParseInt("+007") == Some(7)
  {
    DecimalSnoc("", '0');
    assert "" + ['0'] == "0";
    DecimalSnoc("0", '0');
    assert "0" + ['0'] == "00";
    DecimalSnoc("00", '7');
    assert "00" + ['7'] == "007" == "+007"[1..];
  }

  lemma {:induction false} DecimalTwoPow31()
    ensures AllDigits("2147483648") && DecimalValue("2147483648") == 0x8000_0000
  {
    DecimalHigh();
    DecimalSnoc("214748", '3');
    assert "214748" + ['3'] == "2147483";
    assert DecimalValue("2147483") == 2147483;
    DecimalSnoc("2147483", '6');
    assert "2147483" + ['6'] == "21474836";
    assert DecimalValue("21474836") == 21474836;
    DecimalSnoc("21474836", '4');
    assert "21474836" + ['4'] == "214748364";
    assert DecimalValue("214748364") == 214748364;
    DecimalSnoc("214748364", '8');
    assert "214748364" + ['8'] == "2147483648";
  }

  /** The leading six digits of 2^31. */
  lemma {:induction false} DecimalHigh()
    ensures AllDigits("214748") && DecimalValue("214748") == 214748
  {
    assert DecimalValue("2") == 2 by { assert "2"[..0] == []; }
    DecimalSnoc("2", '1');
    assert "2" + ['1'] == "21";
    assert DecimalValue("21") == 21;
    DecimalSnoc("21", '4');
    assert "21" + ['4'] == "214";
    assert DecimalValue("214") == 214;
    DecimalSnoc("214", '7');
    assert "214" + ['7'] == "2147";
    assert DecimalValue("2147") == 2147;
    DecimalSnoc("2147", '4');
    assert "2147" + ['4'] == "21474";
    assert DecimalValue("21474") == 21474;
    DecimalSnoc("21474", '8');
    assert "21474" + ['8'] == "214748";
  }

  /** The 32-bit range is enforced at both ends. */
  lemma {:induction false} IntegerRange()
    ensures ParseInt("-2147483648") == Some(MinInt)
    ensures ParseInt("2147483648") == None
  {
    DecimalTwoPow31();
    assert "-2147483648"[1..] == "2147483648";
  }

  lemma {:induction false} NotIntegers()
    ensures ParseInt("-") == None && ParseInt("") == None && ParseInt("1.0") == None
  {
    assert !IsDigit("1.0"[1]);
  }
}
