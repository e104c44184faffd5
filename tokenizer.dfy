/** `tokenize`: pad every parenthesis with spaces, trim, split on runs of
    whitespace. */
module Tokenizer {

  /** A character matched by the Java regular expression `\s`. */
  predicate IsSpace(c: char) {
    c == ' ' || c == '\t' || c == '\n' || c == '\U{0B}' || c == '\U{0C}' || c == '\r'
  }

  /** A character that `String.trim` removes from either end. */
  predicate IsTrimmed(c: char) {
    c <= ' '
  }

  predicate IsParen(c: char) {
    c == '(' || c == ')'
  }

  /** Both `replaceAll` calls: every "(" becomes " ( " and every ")" becomes " ) ". */
  function Pad(s: string): (r: string)
    ensures |r| >= |s|
    ensures (forall i :: 0 <= i < |s| ==> !IsParen(s[i])) ==> r == s
  {
    if s == [] then []
    else (if s[0] == '(' then " ( " else if s[0] == ')' then " ) " else [s[0]]) + Pad(s[1..])
  }

  /** Every character of `a` is one that `trim` removes. */
  predicate AllTrimmed(a: string) {
    a == [] || (IsTrimmed(a[0]) && AllTrimmed(a[1..]))
  }

  lemma {:induction false} AllTrimmedSnoc(a: string, c: char)
    requires AllTrimmed(a) && IsTrimmed(c)
    ensures AllTrimmed(a + [c])
  {
    if a != [] {
      AllTrimmedSnoc(a[1..], c);
      assert (a + [c])[1..] == a[1..] + [c];
    }
  }

  /** The leading half of `String.trim`. */
  function TrimStart(s: string): (r: string)
    ensures |r| <= |s| && r == s[|s| - |r|..]
    ensures r != [] ==> !IsTrimmed(r[0])
  {
    if s == [] then []
    else if IsTrimmed(s[0]) then TrimStart(s[1..])
    else s
  }

  /** The prefix `TrimStart` removes holds only characters up to U+0020, and
      nothing is left exactly when nothing visible was there. */
  lemma {:induction false} TrimStartRemoves(s: string)
    ensures AllTrimmed(s[..|s| - |TrimStart(s)|])
    ensures HasVisible(s) <==> TrimStart(s) != []
  {
    TrimStartPrefix(s);
    TrimStartEmpty(s);
  }

  lemma {:induction false} TrimStartPrefix(s: string)
    ensures AllTrimmed(s[..|s| - |TrimStart(s)|])
    decreases |s|
  {
    if s == [] {
    } else if IsTrimmed(s[0]) {
      TrimStartPrefix(s[1..]);
      TakeTail(s, |s| - |TrimStart(s[1..])|);
    } else {
      assert s[..0] == [];
    }
  }

  lemma {:induction false} TakeTail(s: string, k: nat)
    requires 0 < k <= |s|
    ensures s[..k][1..] == s[1..][..k - 1] && s[..k][0] == s[0]
  {
  }

  lemma {:induction false} TrimStartEmpty(s: string)
    ensures HasVisible(s) <==> TrimStart(s) != []
    decreases |s|
  {
    if s != [] && IsTrimmed(s[0]) {
      TrimStartEmpty(s[1..]);
    }
  }

  /** The trailing half of `String.trim`. */
  function TrimEnd(s: string): (r: string)
    ensures |r| <= |s| && r == s[..|r|]
    ensures r != [] ==> !IsTrimmed(r[|r| - 1])
  {
    if s == [] then []
    else if IsTrimmed(s[|s| - 1]) then TrimEnd(s[..|s| - 1])
    else s
  }

  /** The suffix `TrimEnd` removes holds only characters up to U+0020, and a
      string that starts visibly keeps something. */
  lemma {:induction false} TrimEndRemoves(s: string)
    ensures AllTrimmed(s[|TrimEnd(s)|..])
    ensures s != [] && !IsTrimmed(s[0]) ==> TrimEnd(s) != []
    decreases |s|
  {
    if s == [] {
    } else if IsTrimmed(s[|s| - 1]) {
      var front := s[..|s| - 1];
      TrimEndRemoves(front);
      var r := TrimEnd(front);
      AllTrimmedSnoc(front[|r|..], s[|s| - 1]);
      assert s[|r|..] == front[|r|..] + [s[|s| - 1]];
      if !IsTrimmed(s[0]) {
        assert front != [] && front[0] == s[0];
      }
    } else {
      assert s[|s|..] == [];
    }
  }

  /** `String.trim`: the stretch of `s` that is left once the characters up
      to U+0020 are removed from both ends. */
  function Trim(s: string): (r: string)
    ensures var j := |s| - |TrimStart(s)|;
            j + |r| <= |s| && r == s[j..j + |r|]
    ensures r != [] ==> !IsTrimmed(r[0]) && !IsTrimmed(r[|r| - 1])
  {
    TrimEnd(TrimStart(s))
  }

  /** Nothing is left by `trim` exactly when nothing visible was there. */
  lemma {:induction false} TrimRemoves(s: string)
    ensures HasVisible(s) <==> Trim(s) != []
  {
    var a := TrimStart(s);
    TrimStartRemoves(s);
    TrimEndRemoves(a);
    TrimVisible(HasVisible(s), a, TrimEnd(a));
  }

  /** What is left by `trim` is empty exactly when what is left by the
      first half is. */
  lemma {:induction false} TrimVisible(visible: bool, a: string, r: string)
    requires visible <==> a != []
    requires |r| <= |a|
    requires a != [] ==> !IsTrimmed(a[0])
    requires a != [] && !IsTrimmed(a[0]) ==> r != []
    ensures visible <==> r != []
  {
  }

  /** The longest prefix of `s` free of whitespace. */
  function Word(s: string): (w: string)
    ensures |w| <= |s| && w == s[..|w|]
    ensures forall i :: 0 <= i < |w| ==> !IsSpace(w[i])
    ensures |w| < |s| ==> IsSpace(s[|w|])
  {
    if s == [] || IsSpace(s[0]) then [] else [s[0]] + Word(s[1..])
  }

  /** `split("\\s+")` of a string that starts with no whitespace (as a trimmed
      string does): the maximal whitespace-free pieces, in order. */
  function SplitSpaces(s: string): (ws: seq<string>)
    ensures forall i :: 0 <= i < |ws| ==> ws[i] != [] && forall j :: 0 <= j < |ws[i]| ==> !IsSpace(ws[i][j])
    decreases |s|
  {
    if s == [] then []
    else if IsSpace(s[0]) then SplitSpaces(s[1..])
    else var w := Word(s); [w] + SplitSpaces(s[|w|..])
  }

  /** `tokenize`.  Java's `split` returns the one-element array [""] for an
      empty string, which is what a blank line becomes after trimming. */
  function Tokenize(code: string): (tokens: seq<string>)
    ensures |tokens| >= 1
  {
    var t := Trim(Pad(code));
    if t == [] then [""] else SplitSpacesNotEmpty(t); SplitSpaces(t)
  }

  lemma {:induction false} SplitSpacesNotEmpty(s: string)
    requires s != [] && !IsSpace(s[0])
    ensures SplitSpaces(s) != []
  {
  }

  /** The shape of a token the tokenizer can produce from visible text. */
  predicate WellFormed(t: string) {
    t == "(" || t == ")" ||
    (t != [] && forall i :: 0 <= i < |t| ==> !IsSpace(t[i]) && !IsParen(t[i]))
  }

  /** Every parenthesis in `s` has whitespace, or the end of `s`, on both sides. */
  predicate ParensIsolated(s: string) {
    forall i :: 0 <= i < |s| && IsParen(s[i]) ==>
      (i == 0 || IsSpace(s[i - 1])) && (i == |s| - 1 || IsSpace(s[i + 1]))
  }

  /** Some character survives `trim`. */
  predicate HasVisible(code: string) {
    !AllTrimmed(code)
  }

  /** Concatenation of a sequence of strings. */
  function Concat(ts: seq<string>): string {
    if ts == [] then [] else ts[0] + Concat(ts[1..])
  }

  /** The characters of `s` other than whitespace, in order. */
  function NonSpace(s: string): string {
    if s == [] then [] else if IsSpace(s[0]) then NonSpace(s[1..]) else [s[0]] + NonSpace(s[1..])
  }

  lemma {:induction false} PadIsolates(s: string)
    ensures ParensIsolated(Pad(s))
    ensures forall i :: 0 <= i < |Pad(s)| && IsParen(Pad(s)[i]) ==>
      0 < i < |Pad(s)| - 1 && Pad(s)[i - 1] == ' ' && Pad(s)[i + 1] == ' '
  {
    if s != [] {
      PadIsolates(s[1..]);
      var h := if s[0] == '(' then " ( " else if s[0] == ')' then " ) " else [s[0]];
      assert Pad(s) == h + Pad(s[1..]);
      forall i | 0 <= i < |Pad(s)| && IsParen(Pad(s)[i])
        ensures 0 < i < |Pad(s)| - 1 && Pad(s)[i - 1] == ' ' && Pad(s)[i + 1] == ' '
      {
        if i >= |h| {
          assert Pad(s)[i] == Pad(s[1..])[i - |h|];
        }
      }
    }
  }

  lemma {:induction false} PadKeepsVisible(s: string)
    requires HasVisible(s)
    ensures HasVisible(Pad(s))
  {
    var h := if s[0] == '(' then " ( " else if s[0] == ')' then " ) " else [s[0]];
    assert Pad(s) == h + Pad(s[1..]);
    if IsTrimmed(s[0]) {
      PadKeepsVisible(s[1..]);
      AllTrimmedAppend(h, Pad(s[1..]));
    } else {
      assert !AllTrimmed(h) by {
        assert h[0] == s[0] || h[1] == s[0];
        if h[0] != s[0] {
          assert h[1..][0] == s[0];
        }
      }
      AllTrimmedAppend(h, Pad(s[1..]));
    }
  }

  /** A concatenation is all trimmed exactly when both parts are. */
  lemma {:induction false} AllTrimmedAppend(a: string, b: string)
    ensures AllTrimmed(a + b) <==> AllTrimmed(a) && AllTrimmed(b)
    decreases |a|
  {
    if a == [] {
      assert a + b == b;
    } else {
      AllTrimmedAppend(a[1..], b);
      assert (a + b)[0] == a[0] && (a + b)[1..] == a[1..] + b;
    }
  }

  /** Cutting a string never puts a parenthesis next to other text. */
  lemma {:induction false} IsolatedSlice(s: string, a: nat, b: nat)
    requires a <= b <= |s| && ParensIsolated(s)
    ensures ParensIsolated(s[a..b])
  {
    forall i | 0 <= i < b - a && IsParen(s[a..b][i])
      ensures (i == 0 || IsSpace(s[a..b][i - 1])) && (i == b - a - 1 || IsSpace(s[a..b][i + 1]))
    {
      assert s[a..b][i] == s[a + i];
    }
  }

  lemma {:induction false} SplitWellFormed(s: string)
    requires ParensIsolated(s)
    ensures forall t :: t in SplitSpaces(s) ==> WellFormed(t)
    decreases |s|
  {
    if s != [] {
      if IsSpace(s[0]) {
        IsolatedSlice(s, 1, |s|);
        SplitWellFormed(s[1..]);
      } else {
        var w := Word(s);
        IsolatedSlice(s, |w|, |s|);
        SplitWellFormed(s[|w|..]);
        if IsParen(s[0]) {
          assert |s| == 1 || IsSpace(s[1]);
          assert w == [s[0]];
        } else {
          forall i | 0 <= i < |w| ensures !IsParen(w[i]) {
            if i > 0 {
              assert !IsSpace(w[i - 1]) && w[i - 1] == s[i - 1] && w[i] == s[i];
            }
          }
        }
        assert WellFormed(w);
      }
    }
  }

  lemma {:induction false} SplitConcat(s: string)
    ensures Concat(SplitSpaces(s)) == NonSpace(s)
    decreases |s|
  {
    if s != [] {
      if IsSpace(s[0]) {
        SplitConcat(s[1..]);
      } else {
        var w := Word(s);
        SplitConcat(s[|w|..]);
        WordNonSpace(s);
      }
    }
  }

  /** Splitting `s` after its first word does not change its non-whitespace text. */
  lemma {:induction false} WordNonSpace(s: string)
    ensures NonSpace(s) == Word(s) + NonSpace(s[|Word(s)|..])
    decreases |s|
  {
    if s == [] || IsSpace(s[0]) {
      assert Word(s) == [] && s[0..] == s;
    } else {
      var t := s[1..];
      WordNonSpace(t);
      var w := Word(t);
      assert Word(s) == [s[0]] + w;
      assert t[|w|..] == s[|Word(s)|..];
      calc {
        NonSpace(s);
        [s[0]] + NonSpace(t);
        [s[0]] + (w + NonSpace(t[|w|..]));
        ([s[0]] + w) + NonSpace(t[|w|..]);
      }
    }
  }

  /** The tokens of any line with visible text are well formed: a parenthesis
      is always a token of its own and never merged with neighbouring text. */
  lemma {:induction false} TokensWellFormed(code: string)
    requires HasVisible(code)
    ensures forall t :: t in Tokenize(code) ==> WellFormed(t)
  {
    PadKeepsVisible(code);
    TrimRemoves(Pad(code));
    PadIsolates(code);
    TrimKeepsIsolated(Pad(code));
    SplitWellFormed(Trim(Pad(code)));
  }

  /** Trimming keeps every parenthesis isolated. */
  lemma {:induction false} TrimKeepsIsolated(p: string)
    requires ParensIsolated(p)
    ensures ParensIsolated(Trim(p))
  {
    TrimStartIsolated(p);
    TrimEndIsolated(TrimStart(p));
  }

  lemma {:induction false} TrimStartIsolated(p: string)
    requires ParensIsolated(p)
    ensures ParensIsolated(TrimStart(p))
  {
    IsolatedSuffix(p, TrimStart(p));
  }

  lemma {:induction false} IsolatedSuffix(p: string, a: string)
    requires ParensIsolated(p) && |a| <= |p| && a == p[|p| - |a|..]
    ensures ParensIsolated(a)
  {
    IsolatedSlice(p, |p| - |a|, |p|);
    assert a == p[|p| - |a|..|p|];
  }

  lemma {:induction false} TrimEndIsolated(a: string)
    requires ParensIsolated(a)
    ensures ParensIsolated(TrimEnd(a))
  {
    IsolatedSlice(a, 0, |TrimEnd(a)|);
  }

  /** The tokens, joined, are exactly the visible text of the padded, trimmed
      line: nothing is lost or reordered. */
  lemma {:induction false} TokensCoverText(code: string)
    ensures Concat(Tokenize(code)) == NonSpace(Trim(Pad(code)))
  {
    TrimRemoves(Pad(code));
    if HasVisible(code) {
      PadKeepsVisible(code);
      SplitConcat(Trim(Pad(code)));
    } else {
      PadOnlyHidden(code);
      assert Concat([""]) == "" + Concat([]);
    }
  }

  /** No character of `s` is whitespace. */
  predicate SpaceFree(s: string) {
    forall i :: 0 <= i < |s| ==> !IsSpace(s[i])
  }

  /** Every character of `s` is whitespace. */
  predicate Blank(s: string) {
    forall i :: 0 <= i < |s| ==> IsSpace(s[i])
  }

  /** The first word runs up to the first whitespace and no further. */
  lemma {:induction false} WordStops(w: string, t: string)
    requires SpaceFree(w) && (t == [] || IsSpace(t[0]))
    ensures Word(w + t) == w
    decreases |w|
  {
    if w == [] {
      assert w + t == t;
    } else {
      assert SpaceFree(w[1..]) by {
        forall i | 0 <= i < |w[1..]| ensures !IsSpace(w[1..][i]) {
          assert w[1..][i] == w[i + 1];
        }
      }
      WordStops(w[1..], t);
      assert (w + t)[0] == w[0] && (w + t)[1..] == w[1..] + t;
      assert [w[0]] + w[1..] == w;
    }
  }

  /** A run of whitespace produces no piece. */
  lemma {:induction false} SkipBlank(sp: string, rest: string)
    requires Blank(sp)
    ensures SplitSpaces(sp + rest) == SplitSpaces(rest)
    decreases |sp|
  {
    if sp == [] {
      assert sp + rest == rest;
    } else {
      assert Blank(sp[1..]) by {
        forall i | 0 <= i < |sp[1..]| ensures IsSpace(sp[1..][i]) {
          assert sp[1..][i] == sp[i + 1];
        }
      }
      SkipBlank(sp[1..], rest);
      assert (sp + rest)[0] == sp[0] && (sp + rest)[1..] == sp[1..] + rest;
    }
  }

  /** A whitespace-free string is one piece, never split further. */
  lemma {:induction false} SplitOneWord(w: string)
    requires w != [] && SpaceFree(w)
    ensures SplitSpaces(w) == [w]
  {
    WordStops(w, []);
    assert w + [] == w && w[|w|..] == [];
  }

  /** A piece is a maximal whitespace-free run: a word followed by
      whitespace is split off whole, and the whitespace yields nothing. */
  lemma {:induction false} SplitWordGap(w: string, sp: string, rest: string)
    requires w != [] && SpaceFree(w)
    requires sp != [] && Blank(sp)
    ensures SplitSpaces(w + sp + rest) == [w] + SplitSpaces(rest)
  {
    var s := w + sp + rest;
    assert s == w + (sp + rest);
    WordStops(w, sp + rest);
    assert s[|w|..] == sp + rest;
    SkipBlank(sp, rest);
  }

  /** `trim` removes leading whitespace up to the first visible character. */
  lemma {:induction false} TrimStartBlank(a: string, t: string)
    requires Blank(a) && t != [] && !IsTrimmed(t[0])
    ensures TrimStart(a + t) == t
    decreases |a|
  {
    if a == [] {
      assert a + t == t;
    } else {
      BlankTail(a);
      TrimStartBlank(a[1..], t);
      TrimStartCons(a, t);
    }
  }

  lemma {:induction false} BlankTail(a: string)
    requires a != [] && Blank(a)
    ensures Blank(a[1..]) && IsTrimmed(a[0])
  {
    forall i | 0 <= i < |a[1..]| ensures IsSpace(a[1..][i]) {
      assert a[1..][i] == a[i + 1];
    }
  }

  lemma {:induction false} TrimStartCons(a: string, t: string)
    requires a != [] && IsTrimmed(a[0])
    ensures TrimStart(a + t) == TrimStart(a[1..] + t)
  {
    assert (a + t)[1..] == a[1..] + t;
    TrimStartStep(a + t, a[1..] + t);
  }

  lemma {:induction false} TrimStartStep(s: string, tail: string)
    requires s != [] && IsTrimmed(s[0]) && tail == s[1..]
    ensures TrimStart(s) == TrimStart(tail)
  {
  }

  /** `trim` removes trailing whitespace back to the last visible character. */
  lemma {:induction false} TrimEndBlank(t: string, b: string)
    requires Blank(b) && t != [] && !IsTrimmed(t[|t| - 1])
    ensures TrimEnd(t + b) == t
    decreases |b|
  {
    if b == [] {
      assert t + b == t;
    } else {
      var b' := b[..|b| - 1];
      assert Blank(b') by {
        forall i | 0 <= i < |b'| ensures IsSpace(b'[i]) {
          assert b'[i] == b[i];
        }
      }
      TrimEndBlank(t, b');
      assert (t + b)[|t + b| - 1] == b[|b| - 1];
      assert (t + b)[..|t + b| - 1] == t + b';
      TrimEndStep(t + b, t + b');
    }
  }

  lemma {:induction false} TrimEndStep(s: string, front: string)
    requires s != [] && IsTrimmed(s[|s| - 1]) && front == s[..|s| - 1]
    ensures TrimEnd(s) == TrimEnd(front)
  {
  }

  /** Whitespace around a stretch that starts and ends visibly is what
      `trim` removes. */
  lemma {:induction false} TrimBlankEnds(a: string, w: string, b: string)
    requires Blank(a) && Blank(b) && w != []
    requires !IsTrimmed(w[0]) && !IsTrimmed(w[|w| - 1])
    ensures Trim(a + w + b) == w
  {
    assert a + w + b == a + (w + b);
    assert (w + b)[0] == w[0];
    TrimStartBlank(a, w + b);
    TrimEndBlank(w, b);
  }

  lemma {:induction false} NoParens(a: string, w: string, b: string)
    requires Blank(a) && Blank(b)
    requires forall i :: 0 <= i < |w| ==> !IsParen(w[i])
    ensures var code := a + w + b; forall i :: 0 <= i < |code| ==> !IsParen(code[i])
  {
    var code := a + w + b;
    forall i | 0 <= i < |code| ensures !IsParen(code[i]) {
      if i < |a| {
        assert code[i] == a[i];
      } else if i < |a| + |w| {
        assert code[i] == w[i - |a|];
      } else {
        assert code[i] == b[i - |a| - |w|];
      }
    }
  }

  /** A line whose only visible text is one word without parentheses, with
      whitespace around it, is that one token. */
  lemma {:induction false} TokenizeWord(a: string, w: string, b: string)
    requires Blank(a) && Blank(b) && w != []
    requires forall i :: 0 <= i < |w| ==> !IsTrimmed(w[i]) && !IsParen(w[i])
    ensures Tokenize(a + w + b) == [w]
  {
    NoParens(a, w, b);
    TrimBlankEnds(a, w, b);
    TokenizePlainLine(a + w + b, w);
    VisibleSpaceFree(w);
    SplitOneWord(w);
  }

  lemma {:induction false} VisibleSpaceFree(w: string)
    requires forall i :: 0 <= i < |w| ==> !IsTrimmed(w[i])
    ensures SpaceFree(w)
  {
  }

  /** Without parentheses, the tokens are the pieces of the trimmed line. */
  lemma {:induction false} TokenizePlainLine(code: string, t: string)
    requires forall i :: 0 <= i < |code| ==> !IsParen(code[i])
    requires Trim(code) == t && t != []
    ensures Tokenize(code) == SplitSpaces(t)
  {
    assert Pad(code) == code;
  }

  /** Every character that `trim` would remove is whitespace to `\\s`: no
      control character other than tab, line feed, vertical tab, form feed
      and carriage return. */
  predicate Plain(s: string) {
    forall i :: 0 <= i < |s| && IsTrimmed(s[i]) ==> IsSpace(s[i])
  }

  /** For a line without other control characters, the tokens, joined, are
      exactly the input's characters other than whitespace. */
  lemma {:induction false} TokensKeepText(code: string)
    requires Plain(code)
    ensures Concat(Tokenize(code)) == NonSpace(code)
  {
    TokensCoverText(code);
    PadNonSpace(code);
    PadPlain(code);
    TrimNonSpace(Pad(code));
  }

  /** Another control character at the start of the line is dropped by
      `trim` although `\\s` does not match it: the line tokenizes as if it
      were not there, while its non-whitespace text keeps it. */
  lemma {:induction false} TrimDropsControl(c: char, w: string)
    requires IsTrimmed(c) && !IsSpace(c)
    requires w != [] && forall i :: 0 <= i < |w| ==> !IsTrimmed(w[i]) && !IsParen(w[i])
    ensures Tokenize([c] + w) == [w]
    ensures NonSpace([c] + w) == [c] + w
  {
    var code := [c] + w;
    forall i | 0 <= i < |code| ensures !IsParen(code[i]) {
      if i > 0 {
        assert code[i] == w[i - 1];
      }
    }
    TrimStartStep(code, w);
    assert TrimStart(w) == w;
    assert TrimEnd(w) == w;
    TokenizePlainLine(code, w);
    VisibleSpaceFree(w);
    SplitOneWord(w);
    NonSpaceFree(w);
    assert code[1..] == w;
  }

  /** Text without whitespace is its own non-whitespace text. */
  lemma {:induction false} NonSpaceFree(w: string)
    requires SpaceFree(w)
    ensures NonSpace(w) == w
    decreases |w|
  {
    if w != [] {
      assert SpaceFree(w[1..]) by {
        forall i | 0 <= i < |w[1..]| ensures !IsSpace(w[1..][i]) {
          assert w[1..][i] == w[i + 1];
        }
      }
      NonSpaceFree(w[1..]);
    }
  }

  lemma {:induction false} PadPlain(s: string)
    requires Plain(s)
    ensures Plain(Pad(s))
    decreases |s|
  {
    if s != [] {
      PlainSlice(s, 1, |s|);
      assert s[1..|s|] == s[1..];
      PadPlain(s[1..]);
      var h := if s[0] == '(' then " ( " else if s[0] == ')' then " ) " else [s[0]];
      assert Plain(h) by {
        if !IsParen(s[0]) {
          assert h[0] == s[0];
        }
      }
      PlainAppend(h, Pad(s[1..]));
    }
  }

  lemma {:induction false} PlainAppend(a: string, b: string)
    requires Plain(a) && Plain(b)
    ensures Plain(a + b)
  {
    forall i | 0 <= i < |a + b| && IsTrimmed((a + b)[i]) ensures IsSpace((a + b)[i]) {
      if i < |a| {
        assert (a + b)[i] == a[i];
      } else {
        assert (a + b)[i] == b[i - |a|];
      }
    }
  }

  /** On a plain string `trim` removes whitespace only. */
  lemma {:induction false} TrimNonSpace(p: string)
    requires Plain(p)
    ensures NonSpace(Trim(p)) == NonSpace(p)
  {
    var a := TrimStart(p);
    TrimStartNonSpace(p);
    PlainSlice(p, |p| - |a|, |p|);
    assert p[|p| - |a|..|p|] == a;
    TrimEndNonSpace(a);
  }

  lemma {:induction false} TrimStartNonSpace(p: string)
    requires Plain(p)
    ensures NonSpace(TrimStart(p)) == NonSpace(p)
    decreases |p|
  {
    if p != [] && IsTrimmed(p[0]) {
      PlainSlice(p, 1, |p|);
      assert p[1..|p|] == p[1..];
      TrimStartNonSpace(p[1..]);
    }
  }

  lemma {:induction false} TrimEndNonSpace(a: string)
    requires Plain(a)
    ensures NonSpace(TrimEnd(a)) == NonSpace(a)
    decreases |a|
  {
    if a != [] && IsTrimmed(a[|a| - 1]) {
      var front, c := a[..|a| - 1], a[|a| - 1];
      PlainSlice(a, 0, |a| - 1);
      assert a[0..|a| - 1] == front;
      TrimEndNonSpace(front);
      assert a == front + [c];
      NonSpaceAppend(front, [c]);
      assert IsSpace(c) && [c][1..] == [];
    }
  }

  lemma {:induction false} PlainSlice(p: string, a: nat, b: nat)
    requires Plain(p) && a <= b <= |p|
    ensures Plain(p[a..b])
  {
    forall i | 0 <= i < b - a && IsTrimmed(p[a..b][i]) ensures IsSpace(p[a..b][i]) {
      assert p[a..b][i] == p[a + i];
    }
  }

  /** A line without visible text yields the single empty token. */
  lemma {:induction false} BlankLine(code: string)
    ensures !HasVisible(code) <==> Tokenize(code) == [""]
  {
    if HasVisible(code) {
      TokensWellFormed(code);
      assert "" in Tokenize(code) ==> WellFormed("");
    } else {
      PadOnlyHidden(code);
      TrimRemoves(Pad(code));
    }
  }

  lemma {:induction false} PadOnlyHidden(s: string)
    requires !HasVisible(s)
    ensures !HasVisible(Pad(s))
  {
    if s != [] {
      PadOnlyHidden(s[1..]);
      assert !IsParen(s[0]);
      assert Pad(s) == [s[0]] + Pad(s[1..]);
      assert Pad(s)[0] == s[0] && Pad(s)[1..] == Pad(s[1..]);
    }
  }

  /** Padding adds whitespace only. */
  lemma {:induction false} PadNonSpace(s: string)
    ensures NonSpace(Pad(s)) == NonSpace(s)
  {
    if s != [] {
      PadNonSpace(s[1..]);
      var h := if s[0] == '(' then " ( " else if s[0] == ')' then " ) " else [s[0]];
      assert Pad(s) == h + Pad(s[1..]);
      NonSpaceAppend(h, Pad(s[1..]));
      if IsParen(s[0]) {
        PaddedParen(s[0]);
      }
      assert NonSpace(h) == NonSpace([s[0]]);
    }
  }

  lemma {:induction false} PaddedParen(c: char)
    requires IsParen(c)
    ensures NonSpace([' ', c, ' ']) == NonSpace([c]) == [c]
  {
    var t := [' ', c, ' '];
    assert t[1..] == [c, ' '] && [c, ' '][1..] == [' '] && [' '][1..] == [] && [c][1..] == [];
    calc {
      NonSpace(t);
      NonSpace([c, ' ']);
      [c] + NonSpace([' ']);
      [c] + NonSpace([]);
      [c];
    }
    assert NonSpace([c]) == [c] + NonSpace([]);
  }

  lemma {:induction false} NonSpaceAppend(a: string, b: string)
    ensures NonSpace(a + b) == NonSpace(a) + NonSpace(b)
  {
    if a == [] {
      assert a + b == b;
    } else {
      NonSpaceAppend(a[1..], b);
      var ab := a + b;
      assert ab[0] == a[0] && ab[1..] == a[1..] + b;
      if IsSpace(a[0]) {
        assert NonSpace(ab) == NonSpace(a[1..] + b);
      } else {
        calc {
          NonSpace(ab);
          [a[0]] + NonSpace(a[1..] + b);
          [a[0]] + (NonSpace(a[1..]) + NonSpace(b));
          ([a[0]] + NonSpace(a[1..])) + NonSpace(b);
        }
      }
    }
  }
}
