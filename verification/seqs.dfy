/**
 * Order-preserving filtering and counting over sequences: `Array.prototype.filter`
 * and `filter(...).length`, which most of the dashboard's list operations are built on.
 */
module Seqs {

  /** `a` can be obtained from `b` by deleting elements (relative order kept). */
  predicate IsSubseq<T(==)>(a: seq<T>, b: seq<T>)
    decreases |b|
  {
    a == [] || (b != [] && ((a[0] == b[0] && IsSubseq(a[1..], b[1..])) || IsSubseq(a, b[1..])))
  }

  /** `xs.filter(p)`. */
  function Filter<T>(xs: seq<T>, p: T -> bool): (r: seq<T>)
    ensures |r| <= |xs|
    ensures forall i :: 0 <= i < |r| ==> p(r[i]) && r[i] in xs
    ensures forall i :: 0 <= i < |xs| && p(xs[i]) ==> xs[i] in r
  {
    if xs == [] then []
    else (if p(xs[0]) then [xs[0]] else []) + Filter(xs[1..], p)
  }

  /** `xs.filter(p).length`, counted directly. */
  function CountIf<T>(xs: seq<T>, p: T -> bool): nat
  {
    if xs == [] then 0 else (if p(xs[0]) then 1 else 0) + CountIf(xs[1..], p)
  }

  lemma {:induction false} FilterIsSubseq<T>(xs: seq<T>, p: T -> bool)
    ensures IsSubseq(Filter(xs, p), xs)
  {
    if xs != [] {
      FilterIsSubseq(xs[1..], p);
      var r := Filter(xs, p);
      if p(xs[0]) {
        assert r[0] == xs[0] && r[1..] == Filter(xs[1..], p);
      } else {
        assert r == Filter(xs[1..], p);
      }
    }
  }

  lemma {:induction false} FilterLength<T>(xs: seq<T>, p: T -> bool)
    ensures |Filter(xs, p)| == CountIf(xs, p)
  {
    if xs != [] {
      FilterLength(xs[1..], p);
    }
  }

  /** A non-empty sequence is its prefix followed by its last element. */
  lemma SnocSplit<T>(xs: seq<T>)
    requires xs != []
    ensures xs[..|xs| - 1] + [xs[|xs| - 1]] == xs
  {
  }

  lemma SplitAround<T>(ys: seq<T>, j: nat)
    requires j < |ys|
    ensures ys == ys[..j] + ([ys[j]] + ys[j + 1..])
  {
  }

  lemma TailOfConcat<T>(xs: seq<T>, ys: seq<T>)
    requires xs != []
    ensures (xs + ys)[0] == xs[0] && (xs + ys)[1..] == xs[1..] + ys
  {
  }

  lemma {:induction false} FilterConcat<T>(xs: seq<T>, ys: seq<T>, p: T -> bool)
    ensures Filter(xs + ys, p) == Filter(xs, p) + Filter(ys, p)
  {
    if xs != [] {
      TailOfConcat(xs, ys);
      FilterConcat(xs[1..], ys, p);
    } else {
      assert xs + ys == ys;
    }
  }

  /** Filtering with a predicate every element satisfies changes nothing. */
  lemma {:induction false} FilterAll<T>(xs: seq<T>, p: T -> bool)
    requires forall i :: 0 <= i < |xs| ==> p(xs[i])
    ensures Filter(xs, p) == xs
  {
    if xs != [] {
      FilterAll(xs[1..], p);
    }
  }

  /** The elements satisfying `p` and those failing it together make up the whole. */
  lemma {:induction false} CountSplit<T>(xs: seq<T>, p: T -> bool, q: T -> bool)
    requires forall x :: q(x) == !p(x)
    ensures CountIf(xs, p) + CountIf(xs, q) == |xs|
  {
    if xs != [] {
      CountSplit(xs[1..], p, q);
    }
  }

  lemma {:induction false} CountConcat<T>(xs: seq<T>, ys: seq<T>, p: T -> bool)
    ensures CountIf(xs + ys, p) == CountIf(xs, p) + CountIf(ys, p)
  {
    if xs != [] {
      TailOfConcat(xs, ys);
      CountConcat(xs[1..], ys, p);
    } else {
      assert xs + ys == ys;
    }
  }

  /** Filtering twice with the same predicate is filtering once. */
  lemma {:induction false} FilterIdempotent<T>(xs: seq<T>, p: T -> bool)
    ensures Filter(Filter(xs, p), p) == Filter(xs, p)
  {
    if xs != [] {
      FilterIdempotent(xs[1..], p);
      var rest := Filter(xs[1..], p);
      var r := Filter(xs, p);
      if p(xs[0]) {
        assert r == [xs[0]] + rest;
        assert r != [] && r[0] == xs[0] && r[1..] == rest;
        assert Filter(r, p) == [xs[0]] + Filter(rest, p);
      } else {
        assert r == [] + rest;
        assert r == rest;
      }
    }
  }

  /** Nothing is counted exactly when no element satisfies the predicate. */
  lemma {:induction false} CountZero<T>(xs: seq<T>, p: T -> bool)
    ensures CountIf(xs, p) == 0 <==> forall i :: 0 <= i < |xs| ==> !p(xs[i])
  {
    if xs != [] {
      CountZero(xs[1..], p);
      assert forall i :: 1 <= i < |xs| ==> xs[i] == xs[1..][i - 1];
    }
  }

  /** Every sequence is a subsequence of itself. */
  lemma {:induction false} SubseqRefl<T>(xs: seq<T>)
    ensures IsSubseq(xs, xs)
  {
    if xs != [] {
      SubseqRefl(xs[1..]);
    }
  }

  /** A one-element sequence of the head is a subsequence. */
  lemma SubseqOfHead<T>(xs: seq<T>)
    requires xs != []
    ensures IsSubseq([xs[0]], xs)
  {
    assert [xs[0]][1..] == [];
  }

  /** A subsequence of a suffix is a subsequence of the whole. */
  lemma {:induction false} SubseqDrop<T>(a: seq<T>, b: seq<T>, k: nat)
    requires k <= |b| && IsSubseq(a, b[k..])
    ensures IsSubseq(a, b)
    decreases k
  {
    if 0 < k {
      assert b[k - 1..][1..] == b[k..];
      SubseqDrop(a, b, k - 1);
    }
  }

  /** Predicates that agree on every element filter alike. */
  lemma {:induction false} FilterAgree<T>(xs: seq<T>, p: T -> bool, q: T -> bool)
    requires forall i :: 0 <= i < |xs| ==> p(xs[i]) == q(xs[i])
    ensures Filter(xs, p) == Filter(xs, q)
  {
    if xs != [] {
      assert forall i :: 1 <= i < |xs| ==> xs[1..][i - 1] == xs[i];
      FilterAgree(xs[1..], p, q);
    }
  }

  /** When every element satisfies the predicate, every element is counted. */
  lemma {:induction false} CountAll<T>(xs: seq<T>, p: T -> bool)
    requires forall i :: 0 <= i < |xs| ==> p(xs[i])
    ensures CountIf(xs, p) == |xs|
  {
    if xs != [] {
      assert forall i :: 1 <= i < |xs| ==> xs[1..][i - 1] == xs[i];
      CountAll(xs[1..], p);
    }
  }

  /** Counting with the union of two exclusive predicates adds the two counts. */
  lemma {:induction false} CountUnion<T>(xs: seq<T>, p: T -> bool, q: T -> bool, pq: T -> bool)
    requires forall x :: pq(x) == (p(x) || q(x)) && !(p(x) && q(x))
    ensures CountIf(xs, pq) == CountIf(xs, p) + CountIf(xs, q)
  {
    if xs != [] {
      CountUnion(xs[1..], p, q, pq);
    }
  }

  /** Counting does not depend on the order of the elements. */
  lemma {:induction false} CountMultiset<T>(xs: seq<T>, ys: seq<T>, p: T -> bool)
    requires multiset(xs) == multiset(ys)
    ensures CountIf(xs, p) == CountIf(ys, p)
    decreases |xs|
  {
    if xs != [] {
      assert xs[0] in multiset(ys);
      var j :| 0 <= j < |ys| && ys[j] == xs[0];
      var rest := ys[..j] + ys[j + 1..];
      MultisetRemove(ys, j);
      assert multiset(xs[1..]) == multiset(xs) - multiset{xs[0]} by {
        assert xs == [xs[0]] + xs[1..];
      }
      CountMultiset(xs[1..], rest, p);
      CountRemove(ys, j, p);
    }
  }

  lemma MultisetRemove<T>(ys: seq<T>, j: nat)
    requires j < |ys|
    ensures multiset(ys[..j] + ys[j + 1..]) == multiset(ys) - multiset{ys[j]}
  {
    assert ys == ys[..j] + [ys[j]] + ys[j + 1..];
    assert multiset(ys) == multiset(ys[..j]) + multiset{ys[j]} + multiset(ys[j + 1..]);
  }

  lemma CountRemove<T>(ys: seq<T>, j: nat, p: T -> bool)
    requires j < |ys|
    ensures CountIf(ys, p) == CountIf(ys[..j] + ys[j + 1..], p) + (if p(ys[j]) then 1 else 0)
  {
    var a, b := ys[..j], ys[j + 1..];
    SplitAround(ys, j);
    CountConcat(a, [ys[j]] + b, p);
    CountCons(ys[j], b, p);
    CountConcat(a, b, p);
  }

  lemma CountCons<T>(y: T, b: seq<T>, p: T -> bool)
    ensures CountIf([y] + b, p) == (if p(y) then 1 else 0) + CountIf(b, p)
  {
    assert ([y] + b)[1..] == b;
  }
}
