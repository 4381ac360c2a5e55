/** The expression pre-processor run by the `function` property setter of
    `RPlot`: an implicit product such as `2i` becomes the explicit `2*i` before
    the text is handed to the evaluator.

    The setter tests the character before position `l` with Python indexing,
    `value[l-1]`, so at `l = 0` it looks at the LAST character of the text.
    That wrap-around is part of the behaviour and is kept: `"i2"` becomes
    `"*i2"`. */
module Expression {

  /** The characters the setter compares against: `'0'` to `'9'`. */
  predicate IsDigit(ch: char) {
    '0' <= ch <= '9'
  }

  /** Python's `s[k]`: a negative index counts from the end. */
  function PyIndex(s: string, k: int): char
    requires -|s| <= k < |s|
  {
    if k < 0 then s[|s| + k] else s[k]
  }

  /** Does the setter put a `*` in front of position `l` of `s`? */
  predicate NeedsStar(s: string, l: nat)
    requires l < |s|
  {
    s[l] == 'i' && IsDigit(PyIndex(s, l - 1))
  }

  /** What the setter appends for position `l`: an optional `*`, then `s[l]`. */
  function Emitted(s: string, l: nat): string
    requires l < |s|
  {
    (if NeedsStar(s, l) then "*" else "") + [s[l]]
  }

  /** The setter's output after positions `0 .. n-1` of `s`: the input with one
      `*` inserted immediately before every position that needs one. */
  function Expand(s: string, n: nat): (r: string)
    requires n <= |s|
  {
    if n == 0 then "" else Expand(s, n - 1) + Emitted(s, n - 1)
  }

  /** The stored text after `rplot.function = value`. */
  function Preprocess(value: string): string
  {
    Expand(value, |value|)
  }

  /** The setter's loop, as written: walk every position, append `*` when the
      character is `i` and the (wrapping) previous character is a digit, then
      append the character itself. */
  method FunctionSetter(value: string) returns (nvalue: string)
    ensures nvalue == Preprocess(value)
    ensures |nvalue| == |value| + StarCount(value, |value|)
  {
    nvalue := "";
    var l := 0;
    while l < |value|
      invariant 0 <= l <= |value|
      invariant nvalue == Expand(value, l)
    {
      if value[l] == 'i' && IsDigit(PyIndex(value, l - 1)) {
        nvalue := nvalue + "*";
      }
      nvalue := nvalue + [value[l]];
      l := l + 1;
    }
    ExpandLength(value, |value|);
  }

  /** Number of positions below `n` that receive a `*`. */
  function StarCount(s: string, n: nat): nat
    requires n <= |s|
  {
    if n == 0 then 0 else StarCount(s, n - 1) + (if NeedsStar(s, n - 1) then 1 else 0)
  }

  /** The output grows by exactly one character per inserted `*`. */
  lemma {:induction false} ExpandLength(s: string, n: nat)
    requires n <= |s|
    ensures |Expand(s, n)| == n + StarCount(s, n)
  {
    if n > 0 {
      ExpandLength(s, n - 1);
    }
  }

  /** `s` with every `*` removed. */
  function Unstarred(s: string): string
  {
    if s == [] then []
    else Unstarred(s[..|s| - 1]) + (if s[|s| - 1] == '*' then [] else [s[|s| - 1]])
  }

  /** Apart from the inserted `*`s nothing is added, removed or reordered:
      deleting every `*` from the output and from the input gives the same text. */
  lemma {:induction false} PreprocessOnlyInsertsStars(s: string)
    ensures Unstarred(Preprocess(s)) == Unstarred(s)
  {
    ExpandUnstarred(s, |s|);
    assert s[..|s|] == s;
  }

  /** Where each input character lands: position `l` of the input is
      preceded by `StarCount(s, l + 1)` inserted stars, so it sits at
      `l + StarCount(s, l + 1)` of the output.  Immediately before it is the
      `*` inserted for it when it needs one, and otherwise the image of the
      previous input character. */
  lemma PreprocessPositions(s: string, l: nat)
    requires l < |s|
    ensures var j := l + StarCount(s, l + 1);
      && j < |Preprocess(s)|
      && Preprocess(s)[j] == s[l]
      && (NeedsStar(s, l) ==> Preprocess(s)[j - 1] == '*')
      && (!NeedsStar(s, l) && l > 0 ==> Preprocess(s)[j - 1] == s[l - 1])
  {
    ExpandLast(s, l);
    ExpandPrefix(s, l + 1, |s|);
  }

  /** The positions of `s[l]`, and of what precedes it, in `Expand(s, l + 1)`. */
  lemma ExpandLast(s: string, l: nat)
    requires l < |s|
    ensures var j := l + StarCount(s, l + 1);
      && j == |Expand(s, l + 1)| - 1
      && Expand(s, l + 1)[j] == s[l]
      && (NeedsStar(s, l) ==> Expand(s, l + 1)[j - 1] == '*')
      && (!NeedsStar(s, l) && l > 0 ==> Expand(s, l + 1)[j - 1] == s[l - 1])
  {
    ExpandLength(s, l + 1);
    if l > 0 {
      assert Expand(s, l) == Expand(s, l - 1) + Emitted(s, l - 1);
    }
  }

  /** A shorter run of the loop is a prefix of a longer one. */
  lemma {:induction false} ExpandPrefix(s: string, m: nat, n: nat)
    requires m <= n <= |s|
    ensures |Expand(s, m)| <= |Expand(s, n)|
    ensures forall k :: 0 <= k < |Expand(s, m)| ==> Expand(s, n)[k] == Expand(s, m)[k]
    decreases n - m
  {
    if m < n {
      ExpandPrefix(s, m, n - 1);
      assert Expand(s, n) == Expand(s, n - 1) + Emitted(s, n - 1);
    }
  }

  lemma {:induction false} ExpandUnstarred(s: string, n: nat)
    requires n <= |s|
    ensures Unstarred(Expand(s, n)) == Unstarred(s[..n])
  {
    if n > 0 {
      ExpandUnstarred(s, n - 1);
      var pre := Expand(s, n - 1);
      var c := s[n - 1];
      assert s[..n][..n - 1] == s[..n - 1];
      if NeedsStar(s, n - 1) {
        var mid := pre + "*";
        assert Expand(s, n) == mid + [c];
        assert (mid + [c])[..|mid|] == mid;
        assert mid[..|pre|] == pre;
        assert Unstarred(mid) == Unstarred(pre);
      } else {
        assert Expand(s, n) == pre + [c];
        assert (pre + [c])[..|pre|] == pre;
      }
    }
  }

  // ---------------------------------------------------------------------------
  // A second, local description of the same rewrite: each character is
  // rewritten by looking only at the character before it, the first one
  // looking at the last character of the text.

  /** The rewrite of one character `ch` whose predecessor is `prev`. */
  function Piece(prev: char, ch: char): (r: string)
    ensures |r| >= 1 && r[|r| - 1] == ch
    ensures |r| == 2 <==> ch == 'i' && IsDigit(prev)
    ensures |r| == 2 ==> r[0] == '*'
  {
    if ch == 'i' && IsDigit(prev) then ['*', ch] else [ch]
  }

  /** Rewrite `s` front to back, `prev` being the character before `s[0]`. */
  function RewriteAfter(prev: char, s: string): string
    decreases |s|
  {
    if s == [] then [] else Piece(prev, s[0]) + RewriteAfter(s[0], s[1..])
  }

  lemma {:induction false} RewriteAfterSnoc(p: char, a: string, c: char)
    ensures RewriteAfter(p, a + [c]) == RewriteAfter(p, a) + Piece(if a == [] then p else a[|a| - 1], c)
    decreases |a|
  {
    if a == [] {
      assert a + [c] == [c];
      assert [c][1..] == [];
    } else {
      assert (a + [c])[0] == a[0];
      assert (a + [c])[1..] == a[1..] + [c];
      RewriteAfterSnoc(a[0], a[1..], c);
    }
  }

  /** The prefix-by-prefix definition agrees with the local rewrite. */
  lemma {:induction false} ExpandIsLocal(s: string, n: nat)
    requires 0 < n <= |s|
    ensures Expand(s, n) == RewriteAfter(s[|s| - 1], s[..n])
  {
    var c := s[n - 1];
    assert s[..n] == s[..n - 1] + [c];
    RewriteAfterSnoc(s[|s| - 1], s[..n - 1], c);
    if n == 1 {
      assert s[..0] == [];
      assert Emitted(s, 0) == Piece(s[|s| - 1], c);
    } else {
      ExpandIsLocal(s, n - 1);
      assert s[..n - 1][n - 2] == s[n - 2];
      assert Emitted(s, n - 1) == Piece(s[n - 2], c);
    }
  }

  /** Whatever comes before it, the last character of the text is kept last. */
  lemma {:induction false} RewriteAfterLast(p: char, s: string)
    requires s != []
    ensures RewriteAfter(p, s) != []
    ensures RewriteAfter(p, s)[|RewriteAfter(p, s)| - 1] == s[|s| - 1]
    decreases |s|
  {
    if |s| > 1 {
      RewriteAfterLast(s[0], s[1..]);
    } else {
      assert s[1..] == [];
    }
  }

  /** Rewriting a text that starts with `c` handles `c` and then the rest. */
  lemma RewriteAfterCons(p: char, c: char, x: string)
    ensures RewriteAfter(p, [c] + x) == Piece(p, c) + RewriteAfter(c, x)
  {
    assert ([c] + x)[0] == c && ([c] + x)[1..] == x;
  }

  /** Rewriting a rewritten text from the same predecessor changes nothing. */
  lemma {:induction false} RewriteAfterStable(p: char, s: string)
    ensures RewriteAfter(p, RewriteAfter(p, s)) == RewriteAfter(p, s)
    decreases |s|
  {
    if s != [] {
      var c := s[0];
      var rest := s[1..];
      var tail := RewriteAfter(c, rest);
      RewriteAfterStable(c, rest);
      assert s == [c] + rest;
      RewriteAfterCons(p, c, rest);
      if c == 'i' && IsDigit(p) {
        assert RewriteAfter(p, s) == ['*'] + (['i'] + tail);
        RewriteAfterCons(p, '*', ['i'] + tail);
        RewriteAfterCons('*', 'i', tail);
        assert ['*'] + (['i'] + tail) == ['*', 'i'] + tail;
      } else {
        assert RewriteAfter(p, s) == [c] + tail;
        RewriteAfterCons(p, c, tail);
      }
    }
  }

  /** Pre-processing is idempotent: a second pass inserts nothing. */
  lemma PreprocessIdempotent(s: string)
    ensures Preprocess(Preprocess(s)) == Preprocess(s)
  {
    if s != [] {
      var last := s[|s| - 1];
      var t := Preprocess(s);
      ExpandIsLocal(s, |s|);
      assert s[..|s|] == s;
      assert t == RewriteAfter(last, s);
      RewriteAfterLast(last, s);
      ExpandIsLocal(t, |t|);
      assert t[..|t|] == t;
      RewriteAfterStable(last, s);
    }
  }

  /** Worked examples, including the wrap-around case. */
  lemma PreprocessExamples()
    ensures Preprocess("2i") == "2*i"
    ensures Preprocess("sin(2i)") == "sin(2*i)"
    ensures Preprocess("pi") == "pi"
    ensures Preprocess("sin(z)") == "sin(z)"
    ensures Preprocess("i2") == "*i2"
    ensures Preprocess("") == ""
  {
    var a := "2i";
    assert Expand(a, 1) == "2";
    assert Expand(a, 2) == "2*i";
    var b := "sin(2i)";
    assert Expand(b, 1) == "s";
    assert Expand(b, 2) == "si";
    assert Expand(b, 3) == "sin";
    assert Expand(b, 4) == "sin(";
    assert Expand(b, 5) == "sin(2";
    assert Expand(b, 6) == "sin(2*i";
    assert Expand(b, 7) == "sin(2*i)";
    var c := "pi";
    assert Expand(c, 1) == "p";
    assert Expand(c, 2) == "pi";
    var d := "sin(z)";
    assert Expand(d, 1) == "s";
    assert Expand(d, 2) == "si";
    assert Expand(d, 3) == "sin";
    assert Expand(d, 4) == "sin(";
    assert Expand(d, 5) == "sin(z";
    assert Expand(d, 6) == "sin(z)";
    var e := "i2";
    assert Expand(e, 1) == "*i";
    assert Expand(e, 2) == "*i2";
  }
}
