/**
 * The collection idioms the downloader relies on: a dict built by a
 * comprehension keyed on `id` (later records overwrite earlier ones),
 * looking ids up in such a dict while skipping missing ones, and
 * `sorted(list(some_set))`.
 */
module Collections {

  /** `{key(x): x for x in items}`. */
  function IndexBy<T>(items: seq<T>, key: T -> int): (m: map<int, T>)
    ensures forall i :: 0 <= i < |items| ==> key(items[i]) in m
    ensures forall k :: k in m ==> exists i :: 0 <= i < |items| && key(items[i]) == k
  {
    if items == [] then map[]
    else
      var init := items[..|items| - 1];
      var last := items[|items| - 1];
      assert forall i :: 0 <= i < |init| ==> init[i] == items[i];
      IndexBy(init, key)[key(last) := last]
  }

  /** In `IndexBy`, each key holds the LAST record carrying it. */
  lemma {:induction false} IndexByLastWins<T>(items: seq<T>, key: T -> int, i: nat)
    requires i < |items|
    requires forall j :: i < j < |items| ==> key(items[j]) != key(items[i])
    ensures IndexBy(items, key)[key(items[i])] == items[i]
  {
    if i < |items| - 1 {
      var init := items[..|items| - 1];
      assert init[i] == items[i];
      IndexByLastWins(init, key, i);
    }
  }

  /** The ids of `ids` that are keys of `m`, in their order: the ids a lookup loop does not skip. */
  function Present<T>(ids: seq<int>, m: map<int, T>): (r: seq<int>)
    ensures |r| <= |ids|
    ensures forall k :: 0 <= k < |r| ==> r[k] in m
  {
    if ids == [] then []
    else Present(ids[..|ids| - 1], m) + (if ids[|ids| - 1] in m then [ids[|ids| - 1]] else [])
  }

  /** `Present` of a concatenation is the concatenation: the filter keeps the order of `ids`. */
  lemma {:induction false} PresentAppend<T>(a: seq<int>, b: seq<int>, m: map<int, T>)
    ensures Present(a + b, m) == Present(a, m) + Present(b, m)
    decreases |b|
  {
    if b == [] {
      assert a + b == a;
    } else {
      var b' := b[..|b| - 1];
      assert (a + b)[..|a + b| - 1] == a + b';
      PresentAppend(a, b', m);
    }
  }

  /** An id is kept exactly when it occurs in `ids` and is a key of `m`. */
  lemma {:induction false} PresentMembers<T>(ids: seq<int>, m: map<int, T>, x: int)
    ensures x in Present(ids, m) <==> x in ids && x in m
  {
    if ids != [] {
      var init := ids[..|ids| - 1];
      PresentMembers(init, m, x);
      assert ids == init + [ids[|ids| - 1]];
    }
  }

  /** Each kept id is kept as often as it occurs. */
  lemma {:induction false} PresentCounts<T>(ids: seq<int>, m: map<int, T>, x: int)
    requires x in m
    ensures multiset(Present(ids, m))[x] == multiset(ids)[x]
  {
    if ids != [] {
      var init := ids[..|ids| - 1];
      PresentCounts(init, m, x);
      assert ids == init + [ids[|ids| - 1]];
    }
  }

  predicate StrictlyIncreasing(s: seq<int>) {
    forall i, j :: 0 <= i < j < |s| ==> s[i] < s[j]
  }

  lemma HasElement(s: set<int>)
    requires s != {}
    ensures exists x :: x in s
  {
    if forall x :: x !in s { assert false; }
  }

  predicate IsMinimum(m: int, s: set<int>) {
    m in s && forall y :: y in s ==> m <= y
  }

  lemma {:induction false} HasMinimum(s: set<int>)
    requires s != {}
    ensures exists m :: IsMinimum(m, s)
    decreases |s|
  {
    HasElement(s);
    var x :| x in s;
    var rest := s - {x};
    if rest == {} {
      assert s == {x};
      assert IsMinimum(x, s);
    } else {
      HasMinimum(rest);
      var m :| IsMinimum(m, rest);
      assert forall y :: y in s ==> y == x || y in rest;
      if x < m {
        assert IsMinimum(x, s);
      } else {
        assert IsMinimum(m, s);
      }
    }
  }

  /** `sorted(list(s))` for a set of integers: its elements, ascending, each once. */
  method SortedElements(s: set<int>) returns (r: seq<int>)
    ensures StrictlyIncreasing(r)
    ensures forall x :: x in r <==> x in s
    ensures |r| == |s|
  {
    r := [];
    var rest := s;
    while rest != {}
      invariant StrictlyIncreasing(r)
      invariant forall x :: x in s <==> x in r || x in rest
      invariant forall x :: x in r ==> x !in rest
      invariant forall i, y :: 0 <= i < |r| && y in rest ==> r[i] < y
      invariant |r| + |rest| == |s|
      decreases |rest|
    {
      HasMinimum(rest);
      var m :| IsMinimum(m, rest);
      r := r + [m];
      rest := rest - {m};
    }
  }
}
