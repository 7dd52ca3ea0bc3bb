/** Failure-carrying values and the sequence vocabulary shared by every stage of the
    trade-ledger pipeline: order-preserving filtering, sums, and first-seen de-duplication. */
module Common {

  /** A value that may be missing: pandas' NaN / None in a column. */
  datatype Option<+T> = None | Some(value: T)

  /** The outcome of a stage that can raise. */
  datatype Result<+T, +E> = Ok(value: T) | Err(error: E)

  /** `sub` is obtained from `s` by deleting elements and keeping the order of the rest. */
  predicate IsSubsequence<T(==)>(sub: seq<T>, s: seq<T>)
    decreases |s|
  {
    if |sub| == 0 then true
    else if |s| == 0 then false
    else
      || (sub[|sub| - 1] == s[|s| - 1] && IsSubsequence(sub[..|sub| - 1], s[..|s| - 1]))
      || IsSubsequence(sub, s[..|s| - 1])
  }

  /** Boolean-mask selection (`df[mask]`): the elements satisfying `keep`, in their original order. */
  function Filter<T(==,!new)>(s: seq<T>, keep: T -> bool): (r: seq<T>)
    ensures IsSubsequence(r, s)
    ensures forall i :: 0 <= i < |r| ==> keep(r[i])
    ensures forall x :: multiset(r)[x] == if keep(x) then multiset(s)[x] else 0
    decreases |s|
  {
    if |s| == 0 then []
    else
      var init, last := s[..|s| - 1], s[|s| - 1];
      assert s == init + [last];
      var r0 := Filter(init, keep);
      if keep(last) then
        assert (r0 + [last])[..|r0|] == r0;
        r0 + [last]
      else
        r0
  }

  /** With every element rejected, a filter keeps nothing. */
  lemma FilterNone<T(!new)>(s: seq<T>, keep: T -> bool)
    requires forall i :: 0 <= i < |s| ==> !keep(s[i])
    ensures Filter(s, keep) == []
  {
  }

  /** Every element of a subsequence occurs in the original sequence, at a position that keeps
      the relative order: stated here as membership, which is what callers need. */
  lemma {:induction false} SubsequenceMembers<T>(sub: seq<T>, s: seq<T>)
    requires IsSubsequence(sub, s)
    ensures forall x :: x in sub ==> x in s
    decreases |s|
  {
    if |sub| == 0 {
    } else if sub[|sub| - 1] == s[|s| - 1] && IsSubsequence(sub[..|sub| - 1], s[..|s| - 1]) {
      SubsequenceMembers(sub[..|sub| - 1], s[..|s| - 1]);
      assert sub == sub[..|sub| - 1] + [sub[|sub| - 1]];
      assert s == s[..|s| - 1] + [s[|s| - 1]];
    } else {
      SubsequenceMembers(sub, s[..|s| - 1]);
      assert s == s[..|s| - 1] + [s[|s| - 1]];
    }
  }

  /** `Sum(s, f)` is the column sum `s[f].sum()`. */
  function Sum<T>(s: seq<T>, f: T -> int): int
    decreases |s|
  {
    if |s| == 0 then 0 else Sum(s[..|s| - 1], f) + f(s[|s| - 1])
  }

  lemma SumSingleton<T>(x: T, f: T -> int)
    ensures Sum([x], f) == f(x)
  {
    assert [x][..0] == [];
  }

  /** A sum over a concatenation is the sum of the two parts. */
  lemma {:induction false} SumAppend<T>(a: seq<T>, b: seq<T>, f: T -> int)
    ensures Sum(a + b, f) == Sum(a, f) + Sum(b, f)
    decreases |b|
  {
    if |b| == 0 {
      assert a + b == a;
    } else {
      var b0 := b[..|b| - 1];
      assert (a + b)[..|a + b| - 1] == a + b0;
      SumAppend(a, b0, f);
    }
  }

  /** The order in which the rows are summed does not change the total. */
  lemma {:induction false} SumPermutation<T>(a: seq<T>, b: seq<T>, f: T -> int)
    requires multiset(a) == multiset(b)
    ensures Sum(a, f) == Sum(b, f)
    decreases |a|
  {
    if |a| == 0 {
      assert |b| == |multiset(b)| == 0;
    } else {
      var x := a[|a| - 1];
      var a0 := a[..|a| - 1];
      assert a == a0 + [x];
      assert multiset(a0) == multiset(a) - multiset{x};
      assert x in multiset(b);
      var k := IndexOf(b, x);
      var b0 := b[..k] + b[k + 1..];
      MultisetRemove(b, k);
      SumPermutation(a0, b0, f);
      SumRemove(b, k, f);
    }
  }

  /** Removing the element at position `k` removes one copy of it from the multiset. */
  lemma MultisetRemove<T>(s: seq<T>, k: nat)
    requires k < |s|
    ensures multiset(s[..k] + s[k + 1..]) == multiset(s) - multiset{s[k]}
  {
    assert s == s[..k] + [s[k]] + s[k + 1..];
  }

  /** Removing the element at position `k` removes its term from the sum. */
  lemma {:induction false} SumRemove<T>(s: seq<T>, k: nat, f: T -> int)
    requires k < |s|
    ensures Sum(s, f) == Sum(s[..k] + s[k + 1..], f) + f(s[k])
  {
    var pre, x, post := s[..k], s[k], s[k + 1..];
    assert s == pre + ([x] + post);
    SumAppend(pre, [x] + post, f);
    SumAppend([x], post, f);
    SumSingleton(x, f);
    SumAppend(pre, post, f);
  }


  /** Position of the first element satisfying `bad`, if any. */
  function FirstWhere<T>(s: seq<T>, bad: T -> bool): (r: Option<nat>)
    ensures r.None? <==> forall i :: 0 <= i < |s| ==> !bad(s[i])
    ensures r.Some? ==> r.value < |s| && bad(s[r.value])
    ensures r.Some? ==> forall j :: 0 <= j < r.value ==> !bad(s[j])
    decreases |s|
  {
    if |s| == 0 then None
    else if bad(s[0]) then Some(0)
    else
      match FirstWhere(s[1..], bad)
      case None => None
      case Some(i) => Some(i + 1)
  }

  /** Position of the first occurrence of `x` in `s` (Python's `list.index`). */
  function IndexOf<T(==)>(s: seq<T>, x: T): (i: nat)
    requires x in s
    ensures i < |s| && s[i] == x
    ensures forall j :: 0 <= j < i ==> s[j] != x
  {
    if s[0] == x then 0 else 1 + IndexOf(s[1..], x)
  }

  /** Pairwise distinct elements. */
  predicate Distinct<T(==)>(s: seq<T>) {
    forall i, j :: 0 <= i < j < |s| ==> s[i] != s[j]
  }

  /** `Series.unique()`: every value once, in the order of its first occurrence. */
  function Unique<T(==,!new)>(s: seq<T>): (r: seq<T>)
    ensures Distinct(r)
    ensures forall x :: x in r <==> x in s
    ensures forall i, j :: 0 <= i < j < |r| ==> IndexOf(s, r[i]) < IndexOf(s, r[j])
    decreases |s|
  {
    if |s| == 0 then []
    else
      var init, last := s[..|s| - 1], s[|s| - 1];
      var r0 := Unique(init);
      assert s == init + [last];
      FirstIndexExtends(init, last);
      if last in r0 then r0
      else
        assert last !in init;
        assert IndexOf(s, last) == |init| by {
          FirstIndexAtEnd(init, last);
        }
        r0 + [last]
  }

  /** Appending an element does not move the first occurrence of anything already present. */
  lemma {:induction false} FirstIndexExtends<T>(s: seq<T>, y: T)
    ensures forall x :: x in s ==> IndexOf(s + [y], x) == IndexOf(s, x)
  {
    forall x | x in s
      ensures IndexOf(s + [y], x) == IndexOf(s, x)
    {
      var i := IndexOf(s, x);
      var t := s + [y];
      assert t[i] == x;
      assert forall j :: 0 <= j < i ==> t[j] == s[j];
      FirstIndexUnique(t, x, i);
    }
  }

  /** An element missing from `s` is first found right after it. */
  lemma FirstIndexAtEnd<T>(s: seq<T>, y: T)
    requires y !in s
    ensures IndexOf(s + [y], y) == |s|
  {
    var t := s + [y];
    assert t[|s|] == y;
    assert forall j :: 0 <= j < |s| ==> t[j] == s[j];
    FirstIndexUnique(t, y, |s|);
  }

  /** The first occurrence is characterised by its two properties. */
  lemma FirstIndexUnique<T>(s: seq<T>, x: T, i: nat)
    requires i < |s| && s[i] == x
    requires forall j :: 0 <= j < i ==> s[j] != x
    ensures IndexOf(s, x) == i
  {
  }
}
