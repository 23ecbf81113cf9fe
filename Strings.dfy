/**
 * Character classes and string operations shared by the model: the pieces of
 * Python's `str` API that the downloader uses (`in`, `lower`, `strip`,
 * `split`, `rsplit`), on ASCII.
 */
module Strings {

  predicate IsDigit(c: char) { '0' <= c <= '9' }

  /** The class `[a-zA-Z0-9]`. */
  predicate IsAsciiAlnum(c: char) { 'a' <= c <= 'z' || 'A' <= c <= 'Z' || IsDigit(c) }

  predicate AllDigits(s: string) { forall i :: 0 <= i < |s| ==> IsDigit(s[i]) }

  /** The characters `str.strip()` removes, restricted to ASCII. */
  const Whitespace: set<char> :=
    {' ', '\t', '\n', '\r', '\U{B}', '\U{C}', '\U{1C}', '\U{1D}', '\U{1E}', '\U{1F}'}

  function ToLower(c: char): char {
    if 'A' <= c <= 'Z' then (c as int + 32) as char else c
  }

  /** `str.lower()` on ASCII letters. */
  function Lower(s: string): (r: string)
    ensures |r| == |s|
    ensures forall i :: 0 <= i < |s| ==> r[i] == ToLower(s[i])
  {
    seq(|s|, i requires 0 <= i < |s| => ToLower(s[i]))
  }

  predicate IsPrefix(p: string, s: string) { |p| <= |s| && s[..|p|] == p }

  predicate EndsWith(s: string, t: string) { |t| <= |s| && s[|s| - |t|..] == t }

  /** `t` occurs in `s` starting at index `i`. */
  predicate OccursAt(s: string, t: string, i: nat) { i + |t| <= |s| && s[i..i + |t|] == t }

  /** Python's substring test `t in s`. */
  predicate Contains(s: string, t: string) {
    exists i: nat :: i <= |s| - |t| && OccursAt(s, t, i)
  }

  /** `s.lstrip(cs)`: the longest prefix of characters in `cs` is dropped. */
  function StripLeft(s: string, cs: set<char>): (r: string)
    ensures |r| <= |s| && r == s[|s| - |r|..]
    ensures forall i :: 0 <= i < |s| - |r| ==> s[i] in cs
    ensures r == [] || r[0] !in cs
  {
    if s != [] && s[0] in cs then StripLeft(s[1..], cs) else s
  }

  /** `s.rstrip(cs)`: the longest suffix of characters in `cs` is dropped. */
  function StripRight(s: string, cs: set<char>): (r: string)
    ensures |r| <= |s| && r == s[..|r|]
    ensures forall i :: |r| <= i < |s| ==> s[i] in cs
    ensures r == [] || r[|r| - 1] !in cs
  {
    if s != [] && s[|s| - 1] in cs then StripRight(s[..|s| - 1], cs) else s
  }

  /** Every character of `s` is in `cs`. */
  predicate AllIn(s: string, cs: set<char>) {
    forall i :: 0 <= i < |s| ==> s[i] in cs
  }

  /** How many characters `s.lstrip(cs)` drops. */
  function StripOffset(s: string, cs: set<char>): nat {
    |s| - |StripLeft(s, cs)|
  }

  /** `s.strip(cs)`: an infix of `s` whose two ends are not in `cs`. */
  function Strip(s: string, cs: set<char>): (r: string)
    ensures StripOffset(s, cs) + |r| <= |s|
    ensures r == s[StripOffset(s, cs)..StripOffset(s, cs) + |r|]
    ensures AllIn(s[..StripOffset(s, cs)], cs) && AllIn(s[StripOffset(s, cs) + |r|..], cs)
    ensures r != [] ==> r[0] !in cs && r[|r| - 1] !in cs
    ensures (s == [] || (s[0] !in cs && s[|s| - 1] !in cs)) ==> r == s
  {
    StripRight(StripLeft(s, cs), cs)
  }

  /**
   * `s.split(c)`: the pieces between occurrences of `c`, so there is always at
   * least one piece and none contains `c`.
   */
  function Split(s: string, c: char): (r: seq<string>)
    ensures |r| >= 1
    ensures forall k :: 0 <= k < |r| ==> c !in r[k]
  {
    if s == [] then [[]]
    else
      var rest := Split(s[1..], c);
      if s[0] == c then [[]] + rest
      else
        var first := [s[0]] + rest[0];
        assert c !in first;
        [first] + rest[1..]
  }

  lemma {:induction false} SplitWithoutSeparator(s: string, c: char)
    requires c !in s
    ensures Split(s, c) == [s]
  {
    if s != [] {
      SplitWithoutSeparator(s[1..], c);
      assert s == [s[0]] + s[1..];
    }
  }

  /** A string with exactly one separator splits into the two sides. */
  lemma {:induction false} SplitAtSeparator(a: string, b: string, c: char)
    requires c !in a && c !in b
    ensures Split(a + [c] + b, c) == [a, b]
  {
    if a == [] {
      assert a + [c] + b == [c] + b;
      assert (a + [c] + b)[1..] == b;
      SplitWithoutSeparator(b, c);
    } else {
      var s := a + [c] + b;
      assert s[1..] == a[1..] + [c] + b;
      SplitAtSeparator(a[1..], b, c);
      assert [a[0]] + a[1..] == a;
    }
  }

  /** `s.split(c)[0]`: everything before the first `c`. */
  function FirstPiece(s: string, c: char): (r: string)
    ensures c !in r
    ensures IsPrefix(r, s)
    ensures |r| < |s| ==> s[|r|] == c
  {
    if s == [] || s[0] == c then [] else [s[0]] + FirstPiece(s[1..], c)
  }

  lemma {:induction false} FirstPieceWithout(s: string, c: char)
    requires c !in s
    ensures FirstPiece(s, c) == s
  {
    if s != [] {
      FirstPieceWithout(s[1..], c);
    }
  }

  /** `s.split(c)[-1]`: everything after the last `c`, or all of `s`. */
  function LastPiece(s: string, c: char): (r: string)
    ensures c !in r
    ensures |r| <= |s| && r == s[|s| - |r|..]
    ensures |r| < |s| ==> s[|s| - |r| - 1] == c
    ensures c in s ==> |r| < |s|
  {
    if s == [] then []
    else if s[|s| - 1] == c then []
    else LastPiece(s[..|s| - 1], c) + [s[|s| - 1]]
  }

  lemma {:induction false} LastPieceAfter(a: string, b: string, c: char)
    requires c !in b
    ensures LastPiece(a + [c] + b, c) == b
  {
    if b != [] {
      var s := a + [c] + b;
      assert s[..|s| - 1] == a + [c] + b[..|b| - 1];
      LastPieceAfter(a, b[..|b| - 1], c);
    } else {
      assert a + [c] + b == a + [c];
    }
  }

  /** When `y` holds a `c`, the piece after the last `c` of `x + y` lies within `y`. */
  lemma {:induction false} LastPieceOfSuffix(x: string, y: string, c: char)
    requires c in y
    ensures LastPiece(x + y, c) == LastPiece(y, c)
    decreases |y|
  {
    var last := y[|y| - 1];
    var init := y[..|y| - 1];
    assert (x + y)[..|x + y| - 1] == x + init;
    assert (x + y)[|x + y| - 1] == last;
    if last != c {
      assert c in init by {
        var k :| 0 <= k < |y| && y[k] == c;
        assert k < |init| && init[k] == c;
      }
      LastPieceOfSuffix(x, init, c);
    }
  }

  /**
   * The piece after the last `c` is shorter than `n` characters exactly when
   * the last `n` characters of `s` hold a `c` or `s` itself is shorter.
   */
  lemma LastPieceShorter(s: string, c: char, n: nat)
    ensures |LastPiece(s, c)| < n <==> |s| < n || c in s[|s| - n..]
  {
    var p := LastPiece(s, c);
    if |p| >= n {
      assert s[|s| - n..] == p[|p| - n..];
    } else if |p| < |s| && |s| >= n {
      assert s[|s| - n..][n - |p| - 1] == c;
    }
  }

  /** `s.rsplit(c, 1)[0]` for an `s` that contains `c`: everything before the last `c`. */
  function BeforeLast(s: string, c: char): (r: string)
    requires c in s
    ensures s == r + [c] + LastPiece(s, c)
  {
    s[..|s| - |LastPiece(s, c)| - 1]
  }

  function DigitValue(c: char): nat
    requires IsDigit(c)
  {
    c as int - '0' as int
  }

  function DigitChar(d: nat): (c: char)
    requires d < 10
    ensures IsDigit(c) && DigitValue(c) == d
  {
    ('0' as int + d) as char
  }

  /** The number a string of decimal digits denotes. */
  function DecimalValue(s: string): nat
    requires AllDigits(s)
  {
    if s == [] then 0 else 10 * DecimalValue(s[..|s| - 1]) + DigitValue(s[|s| - 1])
  }

  /** Python's `str(n)` for a natural number. */
  function NatToDecimal(n: nat): (r: string)
    ensures |r| >= 1 && AllDigits(r) && DecimalValue(r) == n
    ensures r[0] == '0' <==> n == 0
  {
    if n < 10 then [DigitChar(n)]
    else
      var r := NatToDecimal(n / 10) + [DigitChar(n % 10)];
      assert r[..|r| - 1] == NatToDecimal(n / 10);
      assert r[0] == NatToDecimal(n / 10)[0];
      r
  }

  /** A string starting with `a + b` is `a` followed by the rest. */
  lemma PrefixOfPrefix(a: string, b: string, s: string)
    requires IsPrefix(a + b, s)
    ensures |a| <= |s| && s == a + s[|a|..]
  {
    assert s[..|a|] == (a + b)[..|a|] == a;
    assert s == s[..|a|] + s[|a|..];
  }

  lemma AppendAssociates(a: string, b: string, c: string)
    ensures a + (b + c) == a + b + c
  {
  }
}
