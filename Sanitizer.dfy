/**
 * The filename sanitiser of utlis.py (`sanitize_filename`): drop the
 * characters no filesystem accepts, turn spaces and dots into underscores,
 * cut to a maximum length and trim underscores from both ends.
 */
module Sanitizer {
  import opened Strings

  /** The class `[<>:"/\\|?*]` the sanitiser deletes. */
  const Illegal: set<char> := {'<', '>', ':', '"', '/', '\\', '|', '?', '*'}

  /** The default `max_length`, the one every caller uses. */
  const DefaultMaxLength: nat := 50

  /** `re.sub(class, '', s)`: delete every character of `cs`, keeping the order of the rest. */
  function RemoveChars(s: string, cs: set<char>): (r: string)
    ensures |r| <= |s|
    ensures forall i :: 0 <= i < |r| ==> r[i] !in cs && r[i] in s
    ensures (forall i :: 0 <= i < |s| ==> s[i] !in cs) ==> r == s
  {
    if s == [] then []
    else
      var rest := RemoveChars(s[1..], cs);
      assert forall i :: 0 <= i < |rest| ==> rest[i] in s by {
        forall i | 0 <= i < |rest| ensures rest[i] in s {
          assert rest[i] in s[1..];
        }
      }
      if s[0] in cs then rest else [s[0]] + rest
  }

  /** Deleting from a concatenation deletes from each side: the kept characters stay in order. */
  lemma {:induction false} RemoveCharsAppend(a: string, b: string, cs: set<char>)
    ensures RemoveChars(a + b, cs) == RemoveChars(a, cs) + RemoveChars(b, cs)
  {
    if a != [] {
      assert (a + b)[1..] == a[1..] + b;
      RemoveCharsAppend(a[1..], b, cs);
    } else {
      assert a + b == b;
    }
  }

  /** Every character outside the class is kept as often as it occurs. */
  lemma {:induction false} RemoveCharsCounts(s: string, cs: set<char>, c: char)
    requires c !in cs
    ensures multiset(RemoveChars(s, cs))[c] == multiset(s)[c]
  {
    if s != [] {
      RemoveCharsCounts(s[1..], cs, c);
      assert s == [s[0]] + s[1..];
    }
  }

  /** A single character is kept exactly when it is outside the class. */
  lemma RemoveCharsSingle(c: char, cs: set<char>)
    ensures RemoveChars([c], cs) == if c in cs then [] else [c]
  {
    assert [c][1..] == [];
  }

  /** `s.replace(from, to)` for single characters. */
  function ReplaceChar(s: string, from: char, to: char): (r: string)
    ensures |r| == |s|
    ensures forall i :: 0 <= i < |s| ==> r[i] == if s[i] == from then to else s[i]
  {
    seq(|s|, i requires 0 <= i < |s| => if s[i] == from then to else s[i])
  }

  /** `s[:n]` when `len(s) > n`, else `s`. */
  function Truncate(s: string, n: nat): (r: string)
    ensures |r| <= n && IsPrefix(r, s)
    ensures |s| <= n ==> r == s
    ensures |s| > n ==> |r| == n
  {
    if |s| > n then s[..n] else s
  }

  /** What the sanitiser promises of its output. */
  predicate IsSanitized(s: string, maxLength: nat) {
    && (forall i :: 0 <= i < |s| ==> s[i] !in Illegal && s[i] != ' ' && s[i] != '.')
    && |s| <= maxLength
    && (s != [] ==> s[0] != '_' && s[|s| - 1] != '_')
  }

  /** `sanitize_filename(name, max_length)`. */
  function SanitizeFilename(name: string, maxLength: nat): (r: string)
    ensures forall i :: 0 <= i < |r| ==> r[i] !in Illegal
    ensures forall i :: 0 <= i < |r| ==> r[i] != ' ' && r[i] != '.'
    ensures |r| <= maxLength
    ensures r != [] ==> r[0] != '_' && r[|r| - 1] != '_'
  {
    var legal := RemoveChars(name, Illegal);
    var noSpaces := ReplaceChar(legal, ' ', '_');
    var noDots := ReplaceChar(noSpaces, '.', '_');
    var cut := Truncate(noDots, maxLength);
    assert forall i :: 0 <= i < |cut| ==> cut[i] !in Illegal && cut[i] != ' ' && cut[i] != '.' by {
      forall i | 0 <= i < |cut|
        ensures cut[i] !in Illegal && cut[i] != ' ' && cut[i] != '.'
      {
        assert cut[i] == noDots[i];
      }
    }
    StripKeepsSanitized(cut, maxLength);
    Strip(cut, {'_'})
  }

  /** Trimming underscores from a short string of legal characters gives a sanitised string. */
  lemma StripKeepsSanitized(s: string, maxLength: nat)
    requires |s| <= maxLength
    requires forall i :: 0 <= i < |s| ==> s[i] !in Illegal && s[i] != ' ' && s[i] != '.'
    ensures IsSanitized(Strip(s, {'_'}), maxLength)
  {
    var r := Strip(s, {'_'});
    var k := StripOffset(s, {'_'});
    LegalSlice(s, k, k + |r|);
  }

  /** A slice of a string of legal characters has only legal characters. */
  lemma LegalSlice(s: string, lo: nat, hi: nat)
    requires lo <= hi <= |s|
    requires forall i :: 0 <= i < |s| ==> s[i] !in Illegal && s[i] != ' ' && s[i] != '.'
    ensures forall i :: 0 <= i < hi - lo ==> s[lo..hi][i] !in Illegal && s[lo..hi][i] != ' ' && s[lo..hi][i] != '.'
  {
    forall i | 0 <= i < hi - lo
      ensures s[lo..hi][i] !in Illegal && s[lo..hi][i] != ' ' && s[lo..hi][i] != '.'
    {
      assert s[lo..hi][i] == s[lo + i];
    }
  }

  /** The strings the sanitiser leaves alone are exactly the sanitised ones. */
  lemma SanitizeFixedPoints(s: string, maxLength: nat)
    ensures SanitizeFilename(s, maxLength) == s <==> IsSanitized(s, maxLength)
  {
    if IsSanitized(s, maxLength) {
      SanitizedUnchanged(s, maxLength);
    }
  }

  lemma SanitizedUnchanged(s: string, maxLength: nat)
    requires IsSanitized(s, maxLength)
    ensures SanitizeFilename(s, maxLength) == s
  {
    var legal := RemoveChars(s, Illegal);
    assert legal == s by {
      assert forall i :: 0 <= i < |s| ==> s[i] !in Illegal;
    }
    var noSpaces := ReplaceChar(legal, ' ', '_');
    assert noSpaces == s;
    var noDots := ReplaceChar(noSpaces, '.', '_');
    assert noDots == s;
    assert Truncate(noDots, maxLength) == s;
  }

  /** Sanitising twice is sanitising once. */
  lemma SanitizeIdempotent(s: string, maxLength: nat)
    ensures SanitizeFilename(SanitizeFilename(s, maxLength), maxLength) == SanitizeFilename(s, maxLength)
  {
    SanitizeFixedPoints(SanitizeFilename(s, maxLength), maxLength);
  }
}
