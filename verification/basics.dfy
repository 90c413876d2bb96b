/**
  Small building blocks shared by every module of the model: the optional
  and failure-carrying wrappers that stand for JavaScript's `undefined`/`null`
  and thrown errors, and the order-preserving filter that stands for
  `Array.prototype.filter`.
 */
module Basics {

  /** `None` plays the part of a missing (`undefined` or `null`) value. */
  datatype Option<+T> = None | Some(value: T) {

    /** The `x ?? fallback` of the source. */
    function GetOr(fallback: T): T {
      match this
      case Some(v) => v
      case None => fallback
    }
  }

  /** A value, or the error an `async` function would have thrown. */
  datatype Result<+R, +E> = Success(value: R) | Failure(error: E)

  function Min(a: int, b: int): int {
    if a <= b then a else b
  }

  /** No element occurs twice. */
  ghost predicate Distinct<T>(s: seq<T>) {
    forall i, j :: 0 <= i < j < |s| ==> s[i] != s[j]
  }

  /** The elements of `s` satisfying `keep`, in their original order. */
  function Filter<T(!new)>(s: seq<T>, keep: T -> bool): (r: seq<T>)
    ensures |r| <= |s|
    ensures forall x :: x in r <==> x in s && keep(x)
    ensures forall i :: 0 <= i < |r| ==> keep(r[i])
  {
    if |s| == 0 then []
    else
      var rest := Filter(s[1..], keep);
      assert s == [s[0]] + s[1..];
      if keep(s[0]) then [s[0]] + rest else rest
  }

  /** `a` is `b` with some elements deleted: what is left keeps its order. */
  predicate Subseq<T(==)>(a: seq<T>, b: seq<T>)
    decreases |b|
  {
    |a| == 0 ||
    (|b| > 0 && ((a[0] == b[0] && Subseq(a[1..], b[1..])) || Subseq(a, b[1..])))
  }

  /** Filtering only deletes: the kept elements stay in their order. */
  lemma {:induction false} FilterSubseq<T(!new)>(s: seq<T>, keep: T -> bool)
    ensures Subseq(Filter(s, keep), s)
  {
    if |s| > 0 {
      FilterSubseq(s[1..], keep);
    }
  }

  /** Filtering distributes over concatenation. */
  lemma {:induction false} FilterAppend<T(!new)>(a: seq<T>, b: seq<T>, keep: T -> bool)
    ensures Filter(a + b, keep) == Filter(a, keep) + Filter(b, keep)
  {
    if |a| == 0 {
      assert a + b == b;
    } else {
      assert (a + b)[0] == a[0];
      assert (a + b)[1..] == a[1..] + b;
      FilterAppend(a[1..], b, keep);
    }
  }

  /** Each element that passes is kept as often as it occurs; the others
      are all dropped. */
  lemma {:induction false} FilterCount<T(!new)>(s: seq<T>, keep: T -> bool)
    ensures forall x :: multiset(Filter(s, keep))[x] == if keep(x) then multiset(s)[x] else 0
  {
    if |s| > 0 {
      FilterCount(s[1..], keep);
      assert s == [s[0]] + s[1..];
    }
  }

  /** The last element of a list without repetitions occurs nowhere before. */
  lemma DistinctLast<T>(s: seq<T>)
    requires Distinct(s) && |s| > 0
    ensures s == s[..|s| - 1] + [s[|s| - 1]]
    ensures s[|s| - 1] !in s[..|s| - 1]
  {
    var front := s[..|s| - 1];
    forall j | 0 <= j < |front|
      ensures front[j] != s[|s| - 1]
    {
      assert front[j] == s[j];
    }
  }

  /** Filtering a list extended by one element. */
  lemma FilterSnoc<T(!new)>(a: seq<T>, x: T, keep: T -> bool)
    ensures Filter(a + [x], keep) == if keep(x) then Filter(a, keep) + [x] else Filter(a, keep)
  {
    FilterAppend(a, [x], keep);
    assert [x][1..] == [];
  }

  /** Filtering twice with the same test changes nothing more. */
  lemma {:induction false} FilterIdempotent<T(!new)>(s: seq<T>, keep: T -> bool)
    ensures Filter(Filter(s, keep), keep) == Filter(s, keep)
  {
    if |s| > 0 {
      FilterIdempotent(s[1..], keep);
    }
  }

  /** When every element passes, filtering is the identity. */
  lemma {:induction false} FilterAllKept<T(!new)>(s: seq<T>, keep: T -> bool)
    requires forall i :: 0 <= i < |s| ==> keep(s[i])
    ensures Filter(s, keep) == s
  {
    if |s| > 0 {
      FilterAllKept(s[1..], keep);
      assert s == [s[0]] + s[1..];
    }
  }

  /** When nothing passes, nothing is left. */
  lemma {:induction false} FilterNone<T(!new)>(s: seq<T>, keep: T -> bool)
    requires forall i :: 0 <= i < |s| ==> !keep(s[i])
    ensures Filter(s, keep) == []
  {
    if |s| > 0 {
      FilterNone(s[1..], keep);
    }
  }

  /** Two sequences with the same elements counted with multiplicity have
      the same duplicates: a rearrangement of a duplicate-free sequence is
      duplicate-free. */
  lemma DistinctPermutation<T>(s: seq<T>, r: seq<T>)
    requires multiset(s) == multiset(r)
    requires Distinct(s)
    ensures Distinct(r)
  {
    DistinctCounts(s);
    forall i, j | 0 <= i < j < |r|
      ensures r[i] != r[j]
    {
      assert r == r[..j] + r[j..];
      assert r[i] in multiset(r[..j]);
      assert r[j] in multiset(r[j..]);
      assert multiset(r) == multiset(r[..j]) + multiset(r[j..]);
      assert multiset(r)[r[j]] <= 1;
    }
  }

  /** In a duplicate-free sequence nothing is counted twice. */
  lemma {:induction false} DistinctCounts<T>(s: seq<T>)
    requires Distinct(s)
    ensures forall x :: multiset(s)[x] <= 1
  {
    if |s| > 0 {
      var init := s[..|s| - 1];
      assert Distinct(init);
      DistinctCounts(init);
      assert s == init + [s[|s| - 1]];
      assert s[|s| - 1] !in init;
      assert s[|s| - 1] !in multiset(init);
    }
  }

  /** `Array.prototype.reverse`. */
  function Reverse<T>(s: seq<T>): (r: seq<T>)
    ensures |r| == |s|
    ensures forall i :: 0 <= i < |s| ==> r[i] == s[|s| - 1 - i]
  {
    if |s| == 0 then [] else Reverse(s[1..]) + [s[0]]
  }

  /** Reversing twice gives back the sequence, and reversing keeps every
      element with its multiplicity. */
  lemma ReverseReverse<T>(s: seq<T>)
    ensures Reverse(Reverse(s)) == s
    ensures multiset(Reverse(s)) == multiset(s)
  {
    ReverseMultiset(s);
  }

  lemma {:induction false} ReverseMultiset<T>(s: seq<T>)
    ensures multiset(Reverse(s)) == multiset(s)
  {
    if |s| > 0 {
      ReverseMultiset(s[1..]);
      assert s == [s[0]] + s[1..];
    }
  }
}
