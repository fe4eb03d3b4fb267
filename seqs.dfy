/**
 * Sequence algebra used by the dashboard, the store and the user dialog:
 * `filter`, duplicate-freedom, and `Array.from(new Set(xs))`.
 */
module Seqs {

  predicate NoDup<T(==)>(s: seq<T>) {
    forall i, j :: 0 <= i < j < |s| ==> s[i] != s[j]
  }

  lemma AppendAssoc<T>(a: seq<T>, b: seq<T>, c: seq<T>)
    ensures a + (b + c) == (a + b) + c
  {
  }

  /** `s.filter(p)`: the elements satisfying `p`, in their original order. */
  function Filter<T(!new)>(s: seq<T>, p: T -> bool): (r: seq<T>)
    ensures |r| <= |s|
    ensures forall x :: x in r <==> x in s && p(x)
    decreases |s|
  {
    if |s| == 0 then []
    else
      var rest := Filter(s[..|s| - 1], p);
      assert forall x :: x in s <==> x in s[..|s| - 1] || x == s[|s| - 1];
      if p(s[|s| - 1]) then rest + [s[|s| - 1]] else rest
  }

  /** Filtering distributes over concatenation: the order of kept elements is the input order. */
  lemma {:induction false} FilterAppend<T(!new)>(a: seq<T>, b: seq<T>, p: T -> bool)
    ensures Filter(a + b, p) == Filter(a, p) + Filter(b, p)
    decreases |b|
  {
    if |b| == 0 {
      assert a + b == a;
    } else {
      var b' := b[..|b| - 1];
      assert (a + b)[..|a + b| - 1] == a + b';
      FilterAppend(a, b', p);
    }
  }

  /** A filter every element passes keeps the whole sequence; one none passes keeps nothing. */
  lemma {:induction false} FilterAllOrNone<T(!new)>(s: seq<T>, p: T -> bool)
    ensures (forall i :: 0 <= i < |s| ==> p(s[i])) ==> Filter(s, p) == s
    ensures (forall i :: 0 <= i < |s| ==> !p(s[i])) ==> Filter(s, p) == []
    decreases |s|
  {
    if |s| > 0 {
      FilterAllOrNone(s[..|s| - 1], p);
      assert s[..|s| - 1] + [s[|s| - 1]] == s;
    }
  }

  /** The complement of a filter predicate. */
  function Not<T>(p: T -> bool): T -> bool {
    x => !p(x)
  }

  /** One unfolding of `Filter`, as multisets. */
  lemma FilterStep<T(!new)>(s: seq<T>, p: T -> bool)
    requires |s| > 0
    ensures multiset(Filter(s, p)) ==
      multiset(Filter(s[..|s| - 1], p)) + (if p(s[|s| - 1]) then multiset{s[|s| - 1]} else multiset{})
  {
  }

  /** `Filter` keeps every occurrence of a value that passes and none of one that fails. */
  lemma {:induction false} FilterMultiplicity<T(!new)>(s: seq<T>, p: T -> bool, x: T)
    ensures multiset(Filter(s, p))[x] == if p(x) then multiset(s)[x] else 0
    decreases |s|
  {
    if |s| > 0 {
      var s' := s[..|s| - 1];
      FilterMultiplicity(s', p, x);
      FilterStep(s, p);
      assert s == s' + [s[|s| - 1]];
    }
  }

  /**
   * `r` can be obtained from `s` by deleting elements: matching from the back,
   * the last element of `r` is the last element of `s` it equals.
   */
  predicate IsSubsequence<T(==)>(r: seq<T>, s: seq<T>)
    decreases |s|
  {
    if |r| == 0 then true
    else if |s| == 0 then false
    else if r[|r| - 1] == s[|s| - 1] then IsSubsequence(r[..|r| - 1], s[..|s| - 1])
    else IsSubsequence(r, s[..|s| - 1])
  }

  /** `Filter` only deletes: the kept elements stay in their relative order. */
  lemma {:induction false} FilterIsSubsequence<T(!new)>(s: seq<T>, p: T -> bool)
    ensures IsSubsequence(Filter(s, p), s)
    decreases |s|
  {
    if |s| > 0 {
      var s', x := s[..|s| - 1], s[|s| - 1];
      var rest := Filter(s', p);
      FilterIsSubsequence(s', p);
      if p(x) {
        assert Filter(s, p) == rest + [x];
        assert (rest + [x])[..|rest|] == rest;
      } else {
        assert Filter(s, p) == rest;
        if |rest| > 0 {
          assert rest[|rest| - 1] in rest;
        }
      }
    }
  }

  /**
   * What `Filter` means, stated without it: a subsequence of the input that
   * holds every occurrence of each passing value and nothing else.
   */
  lemma FilterMeaning<T(!new)>(s: seq<T>, p: T -> bool)
    ensures IsSubsequence(Filter(s, p), s)
    ensures forall x :: multiset(Filter(s, p))[x] == if p(x) then multiset(s)[x] else 0
  {
    FilterIsSubsequence(s, p);
    forall x
      ensures multiset(Filter(s, p))[x] == if p(x) then multiset(s)[x] else 0
    {
      FilterMultiplicity(s, p, x);
    }
  }

  /** Every sequence is a subsequence of itself. */
  lemma {:induction false} SubsequenceOfSelf<T>(s: seq<T>)
    ensures IsSubsequence(s, s)
    decreases |s|
  {
    if |s| > 0 {
      SubsequenceOfSelf(s[..|s| - 1]);
    }
  }

  lemma {:induction false} FilterNoDup<T(!new)>(s: seq<T>, p: T -> bool)
    requires NoDup(s)
    ensures NoDup(Filter(s, p))
    decreases |s|
  {
    if |s| > 0 {
      var s' := s[..|s| - 1];
      assert NoDup(s');
      FilterNoDup(s', p);
      assert s[|s| - 1] !in s';
    }
  }

  /**
   * `Array.from(new Set(s))`: each value once, at the position of its first
   * occurrence.
   */
  function Dedup<T(==,!new)>(s: seq<T>): (r: seq<T>)
    ensures NoDup(r)
    ensures |r| <= |s|
    ensures forall x :: x in r <==> x in s
    decreases |s|
  {
    if |s| == 0 then []
    else
      var r' := Dedup(s[..|s| - 1]);
      assert forall x :: x in s <==> x in s[..|s| - 1] || x == s[|s| - 1];
      if s[|s| - 1] in r' then r' else r' + [s[|s| - 1]]
  }

  /** A duplicate-free sequence is its own deduplication. */
  lemma {:induction false} DedupOfNoDup<T(!new)>(s: seq<T>)
    requires NoDup(s)
    ensures Dedup(s) == s
    decreases |s|
  {
    if |s| > 0 {
      var s' := s[..|s| - 1];
      assert NoDup(s');
      DedupOfNoDup(s');
      assert s[|s| - 1] !in s';
      assert s == s' + [s[|s| - 1]];
    }
  }

  /** Deduplication keeps first occurrences: deduplicating `a + b` starts with `Dedup(a)`. */
  lemma {:induction false} DedupPrefix<T(!new)>(a: seq<T>, b: seq<T>)
    ensures |Dedup(a)| <= |Dedup(a + b)| && Dedup(a + b)[..|Dedup(a)|] == Dedup(a)
    decreases |b|
  {
    if |b| == 0 {
      assert a + b == a;
    } else {
      var b' := b[..|b| - 1];
      assert (a + b)[..|a + b| - 1] == a + b';
      DedupPrefix(a, b');
    }
  }

  /** A relation that holds between every earlier and later element still holds after filtering. */
  lemma {:induction false} FilterPairwise<T(!new)>(s: seq<T>, p: T -> bool, rel: (T, T) -> bool)
    requires forall i, j :: 0 <= i < j < |s| ==> rel(s[i], s[j])
    ensures forall i, j :: 0 <= i < j < |Filter(s, p)| ==> rel(Filter(s, p)[i], Filter(s, p)[j])
    decreases |s|
  {
    if |s| > 0 {
      var s' := s[..|s| - 1];
      FilterPairwise(s', p, rel);
      var f' := Filter(s', p);
      forall i | 0 <= i < |f'|
        ensures rel(f'[i], s[|s| - 1])
      {
        assert f'[i] in s';
        var k :| 0 <= k < |s'| && s'[k] == f'[i];
        assert s[k] == s'[k];
      }
    }
  }

  /** `[...s].reverse()`: a reversed copy. */
  function Reverse<T>(s: seq<T>): (r: seq<T>)
    ensures |r| == |s|
    ensures forall i :: 0 <= i < |s| ==> r[i] == s[|s| - 1 - i]
  {
    seq(|s|, i requires 0 <= i < |s| => s[|s| - 1 - i])
  }

  /** Membership in `xs`, as a filter predicate. */
  function In<T(==)>(xs: seq<T>): T -> bool {
    x => x in xs
  }

  /** In a duplicate-free sequence every element occurs exactly once. */
  lemma {:induction false} NoDupCount<T>(s: seq<T>, x: T)
    requires NoDup(s)
    ensures multiset(s)[x] == if x in s then 1 else 0
    decreases |s|
  {
    if |s| > 0 {
      var s', last := s[..|s| - 1], s[|s| - 1];
      assert NoDup(s');
      NoDupCount(s', x);
      assert s == s' + [last];
      assert last !in s';
    }
  }

  /** Two duplicate-free sequences with the same elements are permutations of each other. */
  lemma SameElementsPermutation<T>(a: seq<T>, b: seq<T>)
    requires NoDup(a) && NoDup(b)
    requires forall x :: x in a <==> x in b
    ensures multiset(a) == multiset(b)
  {
    forall x | x in multiset(a) || x in multiset(b)
      ensures multiset(a)[x] == multiset(b)[x]
    {
      NoDupCount(a, x);
      NoDupCount(b, x);
    }
  }

  /** Concatenating two duplicate-free sequences with no element in common gives one. */
  lemma NoDupAppend<T>(a: seq<T>, b: seq<T>)
    requires NoDup(a) && NoDup(b)
    requires forall x :: x in a ==> x !in b
    ensures NoDup(a + b)
  {
    forall i, j | 0 <= i < j < |a + b|
      ensures (a + b)[i] != (a + b)[j]
    {
      if j < |a| {
        assert (a + b)[i] == a[i] && (a + b)[j] == a[j];
      } else if i >= |a| {
        assert (a + b)[i] == b[i - |a|] && (a + b)[j] == b[j - |a|];
      } else {
        assert (a + b)[i] in a && (a + b)[j] in b;
      }
    }
  }
}
