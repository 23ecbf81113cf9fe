/**
 * The chapter-selection parser of main.py (`ask_user_for_chapters`), with
 * the listing and the prompt taken out: the user's answer is a parameter.
 * `all` or an empty answer selects every chapter; otherwise the answer is a
 * comma-separated list of numbers and `a-b` ranges, collected into a set and
 * returned sorted. A range that does not parse selects every chapter.
 */
module ChapterSelection {
  import opened Wrappers
  import opened Strings
  import opened Collections

  // ---------------------------------------------------------------------------
  // Python's int() on a string

  /** Digits in groups separated by single underscores, as `int()` accepts them. */
  predicate IsDigitGroups(s: string) {
    && |s| > 0
    && IsDigit(s[0]) && IsDigit(s[|s| - 1])
    && (forall i :: 0 <= i < |s| ==> IsDigit(s[i]) || s[i] == '_')
    && (forall i :: 0 <= i < |s| - 1 ==> s[i] == '_' ==> s[i + 1] != '_')
  }

  function DropUnderscores(s: string): (r: string)
    requires forall i :: 0 <= i < |s| ==> IsDigit(s[i]) || s[i] == '_'
    ensures AllDigits(r)
    ensures AllDigits(s) ==> r == s
  {
    if s == [] then []
    else (if s[0] == '_' then [] else [s[0]]) + DropUnderscores(s[1..])
  }

  /**
   * `int(s)` for ASCII text: surrounding whitespace, an optional sign, then
   * digit groups. `None` stands for the `ValueError` it raises otherwise.
   */
  function ParseInt(s: string): (r: Option<int>)
    ensures var t := Strip(s, Whitespace);
      |t| > 0 && AllDigits(t) ==> r == Some(DecimalValue(t))
    ensures Strip(s, Whitespace) == [] ==> r.None?
    ensures r.Some? <==> IsDigitGroups(SignedBody(Strip(s, Whitespace)))
    ensures r.Some? ==> r.value == SignedValue(Strip(s, Whitespace))
  {
    ParseSigned(Strip(s, Whitespace))
  }

  /** Whether the text starts with a sign. */
  predicate HasSign(t: string) {
    |t| > 0 && (t[0] == '+' || t[0] == '-')
  }

  /** The text after an optional leading sign. */
  function SignedBody(t: string): (r: string)
    ensures HasSign(t) ==> t == [t[0]] + r
    ensures !HasSign(t) ==> r == t
  {
    if HasSign(t) then t[1..] else t
  }

  /** The value of a signed run of digit groups: the digits without underscores, negated after `-`. */
  function SignedValue(t: string): int
    requires IsDigitGroups(SignedBody(t))
  {
    var n: int := DecimalValue(DropUnderscores(SignedBody(t)));
    if HasSign(t) && t[0] == '-' then -n else n
  }

  /** `int()` once the surrounding whitespace is gone. */
  function ParseSigned(t: string): (r: Option<int>)
    ensures r.Some? ==> exists i :: 0 <= i < |t| && IsDigit(t[i])
    ensures t == [] ==> r.None?
    ensures |t| > 0 && AllDigits(t) ==> r == Some(DecimalValue(t))
    ensures |t| > 1 && t[0] == '-' && AllDigits(t[1..]) ==> r == Some(-(DecimalValue(t[1..]) as int))
    ensures |t| > 1 && t[0] == '+' && AllDigits(t[1..]) ==> r == Some(DecimalValue(t[1..]))
    ensures r.Some? <==> IsDigitGroups(SignedBody(t))
    ensures r.Some? ==> r.value == SignedValue(t)
  {
    var body := SignedBody(t);
    DigitsAreGroups(body);
    if IsDigitGroups(body) then
      assert t[|t| - |body|] == body[0];
      Some(SignedValue(t))
    else None
  }

  /** Any character other than a digit or `_` after the sign makes `int()` fail: `int("2x")`, `int("1.5")`. */
  lemma ParseSignedRejectsOther(t: string, k: nat)
    requires k < |SignedBody(t)| && !IsDigit(SignedBody(t)[k]) && SignedBody(t)[k] != '_'
    ensures ParseSigned(t).None?
  {
  }

  /** Two underscores in a row make `int()` fail: `int("1__2")`. */
  lemma ParseSignedRejectsDoubleUnderscore(t: string, k: nat)
    requires k + 1 < |SignedBody(t)| && SignedBody(t)[k] == '_' && SignedBody(t)[k + 1] == '_'
    ensures ParseSigned(t).None?
  {
  }

  /** Underscores between digit groups are dropped: `int("1_0") == 10`. */
  lemma ParseIntGroups()
    ensures ParseInt("1_0") == Some(10)
  {
    var t := "1_0";
    assert t[0] !in Whitespace && t[|t| - 1] !in Whitespace;
    assert Strip(t, Whitespace) == t;
    assert !HasSign(t);
    assert IsDigitGroups(t);
    assert DropUnderscores(t[2..]) == "0";
    assert DropUnderscores(t[1..]) == "0";
    assert DropUnderscores(t) == "10";
    assert "10"[..1] == "1";
    assert DecimalValue("10") == 10;
  }

  /** A minus sign before the digits negates them: `int(" -12 ") == -12`. */
  lemma ParseIntNegative(s: string, digits: string)
    requires Strip(s, Whitespace) == "-" + digits && |digits| > 0 && AllDigits(digits)
    ensures ParseInt(s) == Some(-(DecimalValue(digits) as int))
  {
    NegatedDigits(digits);
  }

  /** `int("-" + digits)` once the whitespace is gone. */
  lemma NegatedDigits(digits: string)
    requires |digits| > 0 && AllDigits(digits)
    ensures ParseSigned("-" + digits) == Some(-(DecimalValue(digits) as int))
  {
    var t := "-" + digits;
    assert t[1..] == digits;
  }

  /** A plus sign before the digits is allowed: `int("+12") == 12`. */
  lemma ParseIntPositive(s: string, digits: string)
    requires Strip(s, Whitespace) == "+" + digits && |digits| > 0 && AllDigits(digits)
    ensures ParseInt(s) == Some(DecimalValue(digits))
  {
    var t := "+" + digits;
    assert t[1..] == digits;
    assert ParseSigned(t) == Some(DecimalValue(digits));
  }

  /** Plain digits are digit groups, with no underscore to drop. */
  lemma DigitsAreGroups(s: string)
    ensures |s| > 0 && AllDigits(s) ==> IsDigitGroups(s) && DropUnderscores(s) == s
  {
  }

  /** `int(str(n))` gives `n` back. */
  lemma ParseIntOfDecimal(n: nat)
    ensures ParseInt(NatToDecimal(n)) == Some(n)
  {
    var d := NatToDecimal(n);
    assert IsDigit(d[0]) && IsDigit(d[|d| - 1]);
    assert d[0] !in Whitespace;
    assert d[|d| - 1] !in Whitespace;
    assert Strip(d, Whitespace) == d;
    assert IsDigitGroups(d);
    assert DropUnderscores(d) == d;
    assert d[0] != '+' && d[0] != '-';
    assert DecimalValue(DropUnderscores(d)) == n;
  }

  // ---------------------------------------------------------------------------
  // One comma-separated part

  /** What one stripped part contributes. `Malformed` is the `ValueError` path. */
  datatype Part = Range(lo: int, hi: int) | Index(n: int) | Ignored | Malformed

  /** Lines 274-279: a part with a dash must be `int-int`; a part without one counts only when all digits. */
  function ClassifyPart(raw: string): (r: Part)
    ensures var part := Strip(raw, Whitespace);
      && (r.Range? || r.Malformed? <==> '-' in part)
      && (r.Index? <==> '-' !in part && |part| > 0 && AllDigits(part))
      && (r.Index? ==> r.n == DecimalValue(part))
  {
    ClassifyStripped(Strip(raw, Whitespace))
  }

  /** `ClassifyPart` once the part has been stripped. */
  function ClassifyStripped(part: string): (r: Part)
    ensures r.Range? || r.Malformed? <==> '-' in part
    ensures r.Index? <==> '-' !in part && |part| > 0 && AllDigits(part)
    ensures r.Index? ==> r.n == DecimalValue(part)
    ensures r.Range? ==> var halves := Split(part, '-');
      |halves| == 2 && ParseInt(halves[0]) == Some(r.lo) && ParseInt(halves[1]) == Some(r.hi)
  {
    if '-' in part then
      var halves := Split(part, '-');
      if |halves| == 2 && ParseInt(halves[0]).Some? && ParseInt(halves[1]).Some? then
        Range(ParseInt(halves[0]).value, ParseInt(halves[1]).value)
      else Malformed
    else if |part| > 0 && AllDigits(part) then Index(DecimalValue(part))
    else Ignored
  }

  /** The set `range(lo, hi + 1)` adds. */
  function RangeSet(lo: int, hi: int): (r: set<int>)
    ensures forall x :: x in r <==> lo <= x <= hi
    decreases hi - lo
  {
    if hi < lo then {} else RangeSet(lo, hi - 1) + {hi}
  }

  /** The chapter numbers a part adds to the selection. */
  function Contribution(p: Part): set<int> {
    match p
    case Range(lo, hi) => RangeSet(lo, hi)
    case Index(n) => {n}
    case Ignored => {}
    case Malformed => {}
  }

  /** The classified parts of an answer that is not `all`. */
  function Parts(selection: string): (ps: seq<Part>)
    ensures |ps| == |Split(selection, ',')|
    ensures forall k :: 0 <= k < |ps| ==> ps[k] == ClassifyPart(Split(selection, ',')[k])
  {
    var pieces := Split(selection, ',');
    seq(|pieces|, k requires 0 <= k < |pieces| => ClassifyPart(pieces[k]))
  }

  /** The union of the parts' contributions, or `None` once a part is malformed. */
  function Selection(parts: seq<Part>): (r: Option<set<int>>)
    ensures r.Some? ==> forall k :: 0 <= k < |parts| ==> !parts[k].Malformed? && Contribution(parts[k]) <= r.value
  {
    if parts == [] then Some({})
    else
      match Selection(parts[..|parts| - 1])
      case None => None
      case Some(chosen) =>
        var last := parts[|parts| - 1];
        if last.Malformed? then None else Some(chosen + Contribution(last))
  }

  /** `list(range(1, n + 1))`. */
  function AllChapters(n: nat): (r: seq<int>)
    ensures |r| == n && forall i :: 0 <= i < n ==> r[i] == i + 1
    ensures StrictlyIncreasing(r)
    ensures forall x :: x in r <==> 1 <= x <= n
  {
    var r := seq(n, i requires 0 <= i < n => i + 1);
    forall x | 1 <= x <= n ensures x in r {
      assert r[x - 1] == x;
    }
    r
  }

  predicate SelectsAll(selection: string) {
    selection == "" || Lower(selection) == "all"
  }

  /** The chapter numbers the answer selects, as a set. */
  function ChosenSet(line: string, chapterCount: nat): (r: set<int>)
    ensures SelectsAll(Strip(line, Whitespace)) ==> r == RangeSet(1, chapterCount)
  {
    var selection := Strip(line, Whitespace);
    if SelectsAll(selection) then RangeSet(1, chapterCount)
    else match Selection(Parts(selection))
      case None => RangeSet(1, chapterCount)
      case Some(chosen) => chosen
  }

  // ---------------------------------------------------------------------------
  // Properties of the specification

  /** The whole answer falls back to all chapters exactly when one of its parts is malformed. */
  lemma {:induction false} MalformedPartSelectsAll(parts: seq<Part>)
    ensures Selection(parts).None? <==> exists k :: 0 <= k < |parts| && parts[k].Malformed?
  {
    if parts != [] {
      var init := parts[..|parts| - 1];
      MalformedPartSelectsAll(init);
      assert forall k :: 0 <= k < |init| ==> init[k] == parts[k];
    }
  }

  /** Otherwise a chapter is selected exactly when some part contributes it. */
  lemma {:induction false} SelectionIsUnion(parts: seq<Part>, x: int)
    requires Selection(parts).Some?
    ensures x in Selection(parts).value <==> exists k :: 0 <= k < |parts| && x in Contribution(parts[k])
  {
    if parts != [] {
      var init := parts[..|parts| - 1];
      SelectionIsUnion(init, x);
      assert forall k :: 0 <= k < |init| ==> init[k] == parts[k];
    }
  }

  /** `left-right` with no other dash splits into its two sides. */
  lemma DashSplit(left: string, right: string)
    requires '-' !in left && '-' !in right
    ensures '-' in left + "-" + right
    ensures Split(left + "-" + right, '-') == [left, right]
  {
    assert left + "-" + right == left + ['-'] + right;
    assert (left + "-" + right)[|left|] == '-';
    SplitAtSeparator(left, right, '-');
  }

  lemma ClassifyRangePart(left: string, right: string, a: int, b: int)
    requires '-' !in left && '-' !in right
    requires ParseInt(left) == Some(a) && ParseInt(right) == Some(b)
    ensures ClassifyStripped(left + "-" + right) == Range(a, b)
  {
    DashSplit(left, right);
  }

  lemma ClassifyRawRange(raw: string, left: string, right: string, a: int, b: int)
    requires Strip(raw, Whitespace) == left + "-" + right
    requires '-' !in left && '-' !in right
    requires ParseInt(left) == Some(a) && ParseInt(right) == Some(b)
    ensures ClassifyPart(raw) == Range(a, b)
  {
    ClassifyRangePart(left, right, a, b);
  }

  lemma RangeContribution(p: Part, a: int, b: int)
    requires p == Range(a, b)
    ensures forall x :: x in Contribution(p) <==> a <= x <= b
    ensures b < a ==> Contribution(p) == {}
  {
  }

  /** A part `a-b` contributes exactly the numbers from `a` to `b`, and none when `b < a`. */
  lemma RangePartContributes(raw: string, left: string, right: string, a: int, b: int)
    requires Strip(raw, Whitespace) == left + "-" + right
    requires '-' !in left && '-' !in right
    requires ParseInt(left) == Some(a) && ParseInt(right) == Some(b)
    ensures forall x :: x in Contribution(ClassifyPart(raw)) <==> a <= x <= b
    ensures b < a ==> Contribution(ClassifyPart(raw)) == {}
  {
    ClassifyRawRange(raw, left, right, a, b);
    RangeContribution(ClassifyPart(raw), a, b);
  }

  /** A part without a dash contributes its number when it is all digits, and nothing otherwise. */
  lemma PlainPartContributes(raw: string)
    requires '-' !in Strip(raw, Whitespace)
    ensures var part := Strip(raw, Whitespace);
      Contribution(ClassifyPart(raw)) ==
        if |part| > 0 && AllDigits(part) then {DecimalValue(part)} else {}
  {
  }

  // ---------------------------------------------------------------------------
  // The parser

  /**
   * The loop of lines 271-282 over the classified parts: the union of their
   * contributions, or `None` as soon as one is malformed.
   */
  method CollectSelection(parts: seq<Part>) returns (chosen: Option<set<int>>)
    ensures chosen == Selection(parts)
  {
    var selected: set<int> := {};
    for i := 0 to |parts|
      invariant Selection(parts[..i]) == Some(selected)
    {
      assert parts[..i + 1][..i] == parts[..i];
      match parts[i]
      case Malformed =>
        MalformedPartSelectsAll(parts);
        return None;
      case Range(lo, hi) =>
        selected := selected + RangeSet(lo, hi);
      case Index(n) =>
        selected := selected + {n};
      case Ignored =>
        assert selected + Contribution(parts[i]) == selected;
    }
    assert parts[..|parts|] == parts;
    return Some(selected);
  }

  /**
   * `ask_user_for_chapters` given the answer `line` and the number of chapters.
   * The result is always strictly increasing.
   */
  method SelectChapters(line: string, chapterCount: nat) returns (r: seq<int>)
    ensures StrictlyIncreasing(r)
    ensures SelectsAll(Strip(line, Whitespace)) ==> r == AllChapters(chapterCount)
    ensures !SelectsAll(Strip(line, Whitespace)) ==>
      match Selection(Parts(Strip(line, Whitespace)))
      case None => r == AllChapters(chapterCount)
      case Some(chosen) => forall x :: x in r <==> x in chosen
    ensures forall x :: x in r <==> x in ChosenSet(line, chapterCount)
  {
    var selection := Strip(line, Whitespace);
    if selection == "" || Lower(selection) == "all" {
      return AllChapters(chapterCount);
    }
    var parts := Parts(selection);
    var chosen := CollectSelection(parts);
    match chosen
    case None =>
      r := AllChapters(chapterCount);
    case Some(selected) =>
      r := SortedElements(selected);
  }
}
