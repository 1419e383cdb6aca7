/** Order-preserving selection over sequences: JavaScript's `Array.prototype.filter`. */
module Seqs {

  /** The elements of `s` that satisfy `p`, in their original order. */
  function Filter<T>(s: seq<T>, p: T -> bool): (r: seq<T>)
    ensures |r| <= |s|
    ensures forall x :: x in r ==> x in s && p(x)
  {
    if s == [] then [] else (if p(s[0]) then [s[0]] else []) + Filter(s[1..], p)
  }

  /** `a` is `b` with some elements left out and the rest kept in order. */
  predicate IsSubsequence<T(==)>(a: seq<T>, b: seq<T>)
    decreases |b|
  {
    a == [] || (b != [] && ((a[0] == b[0] && IsSubsequence(a[1..], b[1..])) || IsSubsequence(a, b[1..])))
  }

  lemma {:induction false} FilterIsSubsequence<T>(s: seq<T>, p: T -> bool)
    ensures IsSubsequence(Filter(s, p), s)
  {
    if s != [] {
      FilterIsSubsequence(s[1..], p);
      if p(s[0]) {
        assert Filter(s, p) == [s[0]] + Filter(s[1..], p);
        assert Filter(s, p)[1..] == Filter(s[1..], p);
      } else {
        assert Filter(s, p) == Filter(s[1..], p);
      }
    }
  }

  /** A subsequence adds and duplicates nothing: each element occurs at most as often. */
  lemma {:induction false} SubsequenceMultiset<T>(a: seq<T>, b: seq<T>)
    requires IsSubsequence(a, b)
    ensures multiset(a) <= multiset(b)
    decreases |b|
  {
    if a != [] {
      assert b == [b[0]] + b[1..];
      if a[0] == b[0] && IsSubsequence(a[1..], b[1..]) {
        SubsequenceMultiset(a[1..], b[1..]);
        assert a == [a[0]] + a[1..];
      } else {
        SubsequenceMultiset(a, b[1..]);
      }
    }
  }

  /** Membership in the result: exactly the elements of `s` that satisfy `p`. */
  lemma {:induction false} FilterMembership<T>(s: seq<T>, p: T -> bool, x: T)
    ensures x in Filter(s, p) <==> x in s && p(x)
  {
    if s != [] {
      FilterMembership(s[1..], p, x);
      assert s == [s[0]] + s[1..];
    }
  }

  /** Each passing element occurs as often in the result as in `s`; a failing one not at all. */
  lemma {:induction false} FilterCount<T>(s: seq<T>, p: T -> bool, x: T)
    ensures multiset(Filter(s, p))[x] == if p(x) then multiset(s)[x] else 0
  {
    if s != [] {
      FilterCount(s[1..], p, x);
      assert s == [s[0]] + s[1..];
    }
  }

  /** Filtering two elements keeps each that passes, in order. */
  lemma FilterPair<T>(t: seq<T>, p: T -> bool)
    requires |t| == 2
    ensures Filter(t, p) == (if p(t[0]) then [t[0]] else []) + (if p(t[1]) then [t[1]] else [])
  {
    assert t[1..][1..] == [];
  }

  /** Filtering eight elements of which the predicate holds for the 1st, 3rd and 7th only. */
  lemma KeepsFirstThirdSeventh<T>(s: seq<T>, p: T -> bool)
    requires |s| == 8
    requires p(s[0]) && !p(s[1]) && p(s[2]) && !p(s[3])
    requires !p(s[4]) && !p(s[5]) && p(s[6]) && !p(s[7])
    ensures Filter(s, p) == [s[0], s[2], s[6]]
  {
    FilterAfterPair(s, p);
    KeepsFirstFifth(s[2..], p);
  }

  lemma KeepsFirstFifth<T>(s: seq<T>, p: T -> bool)
    requires |s| == 6
    requires p(s[0]) && !p(s[1]) && !p(s[2]) && !p(s[3]) && p(s[4]) && !p(s[5])
    ensures Filter(s, p) == [s[0], s[4]]
  {
    FilterAfterPair(s, p);
    KeepsThird(s[2..], p);
  }

  lemma KeepsThird<T>(s: seq<T>, p: T -> bool)
    requires |s| == 4
    requires !p(s[0]) && !p(s[1]) && p(s[2]) && !p(s[3])
    ensures Filter(s, p) == [s[2]]
  {
    FilterAfterPair(s, p);
    FilterPair(s[2..], p);
  }

  /** Filtering decided for the first two elements, the rest left to filter. */
  lemma FilterAfterPair<T>(s: seq<T>, p: T -> bool)
    requires |s| >= 2
    ensures Filter(s, p) == (if p(s[0]) then [s[0]] else []) + (if p(s[1]) then [s[1]] else []) + Filter(s[2..], p)
  {
    FilterPair(s[..2], p);
    FilterAppend(s[..2], s[2..], p);
    assert s == s[..2] + s[2..];
  }

  /** Filtering keeps a sequence whole when every element passes. */
  lemma {:induction false} FilterAllPass<T>(s: seq<T>, p: T -> bool)
    requires forall x :: x in s ==> p(x)
    ensures Filter(s, p) == s
  {
    if s != [] {
      assert s[0] in s;
      FilterAllPass(s[1..], p);
      assert s == [s[0]] + s[1..];
    }
  }

  /** Filtering twice by the same predicate changes nothing the second time. */
  lemma FilterIdempotent<T>(s: seq<T>, p: T -> bool)
    ensures Filter(Filter(s, p), p) == Filter(s, p)
  {
    FilterAllPass(Filter(s, p), p);
  }

  /** Two filter passes are one pass by the conjunction `pq` of the two predicates. */
  lemma {:induction false} FilterFuse<T>(s: seq<T>, p: T -> bool, q: T -> bool, pq: T -> bool)
    requires forall x :: pq(x) == (p(x) && q(x))
    ensures Filter(Filter(s, p), q) == Filter(s, pq)
  {
    if s != [] {
      FilterFuse(s[1..], p, q, pq);
      FilterAppend(if p(s[0]) then [s[0]] else [], Filter(s[1..], p), q);
    }
  }

  lemma {:induction false} FilterAppend<T>(a: seq<T>, b: seq<T>, p: T -> bool)
    ensures Filter(a + b, p) == Filter(a, p) + Filter(b, p)
  {
    if a != [] {
      FilterAppend(a[1..], b, p);
      assert (a + b)[0] == a[0] && (a + b)[1..] == a[1..] + b;
      assert Filter(a + b, p) == (if p(a[0]) then [a[0]] else []) + Filter(a[1..] + b, p);
    } else {
      assert a + b == b;
    }
  }

  /** Predicates that agree on the elements of `s` select the same elements. */
  lemma {:induction false} FilterCongruent<T>(s: seq<T>, p: T -> bool, q: T -> bool)
    requires forall x :: x in s ==> (p(x) <==> q(x))
    ensures Filter(s, p) == Filter(s, q)
  {
    if s != [] {
      assert s[0] in s;
      forall x | x in s[1..] ensures p(x) <==> q(x) {
        assert x in s;
      }
      FilterCongruent(s[1..], p, q);
    }
  }

  /**
   * The elements that pass and those that fail together account for all of `s`
   * (`q` is the negation of `p`).
   */
  lemma {:induction false} FilterSplit<T>(s: seq<T>, p: T -> bool, q: T -> bool)
    requires forall x :: q(x) == !p(x)
    ensures |Filter(s, p)| + |Filter(s, q)| == |s|
  {
    if s != [] {
      FilterSplit(s[1..], p, q);
    }
  }

  /** Nothing is dropped exactly when every element passes. */
  lemma {:induction false} FilterKeepsLength<T>(s: seq<T>, p: T -> bool)
    ensures |Filter(s, p)| == |s| <==> forall x :: x in s ==> p(x)
  {
    if s != [] {
      FilterKeepsLength(s[1..], p);
      assert s == [s[0]] + s[1..];
      if !p(s[0]) {
        assert |Filter(s, p)| <= |s| - 1;
      }
    } else {
      assert forall x :: x in s ==> p(x);
    }
  }

  /** Filtering a single element keeps it exactly when it passes. */
  lemma FilterSingle<T>(x: T, p: T -> bool)
    ensures Filter([x], p) == if p(x) then [x] else []
  {
    assert [x][1..] == [];
  }

  /** The positions of `s` whose element satisfies `p`. */
  function Positions<T>(s: seq<T>, p: T -> bool): set<int> {
    set k | 0 <= k < |s| && p(s[k])
  }

  /** A filter keeps one element for each position of `s` whose element passes. */
  lemma {:induction false} FilterLengthCountsIndices<T>(s: seq<T>, p: T -> bool)
    ensures |Filter(s, p)| == |Positions(s, p)|
    decreases |s|
  {
    if s != [] {
      var init, x := s[..|s| - 1], s[|s| - 1];
      assert s == init + [x];
      FilterLengthCountsIndices(init, p);
      FilterSnoc(init, x, p);
      IndicesSnoc(s, init, x, p);
    }
  }

  /** Appending one element adds one to the filter's length exactly when it passes. */
  lemma FilterSnoc<T>(init: seq<T>, x: T, p: T -> bool)
    ensures |Filter(init + [x], p)| == |Filter(init, p)| + (if p(x) then 1 else 0)
  {
    FilterAppend(init, [x], p);
    FilterSingle(x, p);
  }

  /** The passing positions of `init + [x]` are those of `init`, plus the last when `x` passes. */
  lemma IndicesSnoc<T>(s: seq<T>, init: seq<T>, x: T, p: T -> bool)
    requires s == init + [x]
    ensures |Positions(s, p)| == |Positions(init, p)| + (if p(x) then 1 else 0)
  {
    var before := Positions(init, p);
    var after := Positions(s, p);
    if p(x) {
      assert after == before + {|init|};
    } else {
      assert after == before;
    }
  }
}
