/** Sequence helpers behind the LINQ pipelines of the core (`Where`, `Distinct`). */
module Seqs {

  predicate NoDuplicates<T(==)>(s: seq<T>) {
    forall i, j :: 0 <= i < j < |s| ==> s[i] != s[j]
  }

  /** `Where`: the elements satisfying `p` (their order is stated by `FilterSnoc`). */
  function Filter<T(==)>(p: T -> bool, s: seq<T>): (r: seq<T>)
    ensures |r| <= |s|
    ensures forall i :: 0 <= i < |r| ==> r[i] in s && p(r[i])
    ensures forall i :: 0 <= i < |s| && p(s[i]) ==> s[i] in r
    ensures (forall i :: 0 <= i < |s| ==> p(s[i])) ==> r == s
  {
    if |s| == 0 then []
    else
      var rest := Filter(p, s[..|s| - 1]);
      assert s == s[..|s| - 1] + [s[|s| - 1]];
      if p(s[|s| - 1]) then rest + [s[|s| - 1]] else rest
  }

  /** Filtering a sequence extended by `x` extends the filtered sequence by `x` when `p` holds of it. */
  lemma FilterSnoc<T>(p: T -> bool, s: seq<T>, x: T)
    ensures Filter(p, s + [x]) == Filter(p, s) + (if p(x) then [x] else [])
  {
    assert (s + [x])[..|s|] == s;
  }

  /** Filtering a prefix gives a prefix of the filtered sequence. */
  lemma {:induction false} FilterPrefix<T>(p: T -> bool, s: seq<T>, k: nat)
    requires k <= |s|
    ensures Filter(p, s[..k]) <= Filter(p, s)
    decreases |s| - k
  {
    if k < |s| {
      var init, x := s[..k], s[k];
      assert s[..k + 1] == init + [x];
      FilterSnoc(p, init, x);
      FilterPrefix(p, s, k + 1);
    } else {
      assert s[..k] == s;
    }
  }

  /** An element `p` keeps sits in the result right after what is kept of the elements before it. */
  lemma FilterKeepsOrder<T>(p: T -> bool, s: seq<T>, k: nat)
    requires k < |s| && p(s[k])
    ensures var r, before := Filter(p, s), |Filter(p, s[..k])|;
      before < |r| && r[before] == s[k]
  {
    assert s[..k + 1] == s[..k] + [s[k]];
    FilterSnoc(p, s[..k], s[k]);
    FilterPrefix(p, s, k + 1);
  }

  /** Filtering keeps the relative order of the kept elements; distinctness survives it. */
  lemma {:induction false} FilterKeepsNoDuplicates<T>(p: T -> bool, s: seq<T>)
    requires NoDuplicates(s)
    ensures NoDuplicates(Filter(p, s))
  {
    if |s| > 0 {
      var init := s[..|s| - 1];
      assert NoDuplicates(init);
      FilterKeepsNoDuplicates(p, init);
      assert s[|s| - 1] !in init;
    }
  }

  /**
   * `Distinct` (ordinal comparer): the first occurrence of every element (their order is
   * stated by `DistinctSnoc` and `DistinctKeepsFirstOccurrence`).
   */
  function Distinct<T(==)>(s: seq<T>): (r: seq<T>)
    ensures |r| <= |s|
    ensures NoDuplicates(r)
    ensures forall i :: 0 <= i < |r| ==> r[i] in s
    ensures forall i :: 0 <= i < |s| ==> s[i] in r
    ensures NoDuplicates(s) ==> r == s
  {
    if |s| == 0 then []
    else
      var init := s[..|s| - 1];
      var rest := Distinct(init);
      assert s == init + [s[|s| - 1]];
      assert NoDuplicates(s) ==> NoDuplicates(init) && s[|s| - 1] !in init;
      if s[|s| - 1] in rest then rest else rest + [s[|s| - 1]]
  }

  /** Extending a sequence by `x` extends its distinct elements by `x` unless `x` was already there. */
  lemma DistinctSnoc<T>(s: seq<T>, x: T)
    ensures Distinct(s + [x]) == Distinct(s) + (if x in s then [] else [x])
  {
    assert (s + [x])[..|s|] == s;
  }

  /** The distinct elements of a prefix are a prefix of the distinct elements. */
  lemma {:induction false} DistinctPrefix<T>(s: seq<T>, k: nat)
    requires k <= |s|
    ensures Distinct(s[..k]) <= Distinct(s)
    decreases |s| - k
  {
    if k < |s| {
      var init, x := s[..k], s[k];
      assert s[..k + 1] == init + [x];
      DistinctSnoc(init, x);
      DistinctPrefix(s, k + 1);
    } else {
      assert s[..k] == s;
    }
  }

  /** The same for a prefix given as a sequence. */
  lemma DistinctPrefixOf<T>(a: seq<T>, b: seq<T>)
    requires a <= b
    ensures Distinct(a) <= Distinct(b)
  {
    assert b[..|a|] == a;
    DistinctPrefix(b, |a|);
  }

  /**
   * The first occurrence of an element sits in the result right after the distinct elements
   * before it: `Distinct` lists first occurrences in input order.
   */
  lemma DistinctKeepsFirstOccurrence<T>(s: seq<T>, k: nat)
    requires k < |s| && s[k] !in s[..k]
    ensures var r, before := Distinct(s), |Distinct(s[..k])|;
      before < |r| && r[before] == s[k]
  {
    assert s[..k + 1] == s[..k] + [s[k]];
    DistinctSnoc(s[..k], s[k]);
    DistinctPrefix(s, k + 1);
  }

  /** The first element always survives `Distinct`. */
  lemma {:induction false} DistinctKeepsFirst<T>(s: seq<T>)
    requires |s| > 0
    ensures |Distinct(s)| > 0 && Distinct(s)[0] == s[0]
  {
    if |s| > 1 {
      DistinctKeepsFirst(s[..|s| - 1]);
    }
  }
}
