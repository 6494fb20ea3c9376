/** Generic sequence operations: order-preserving filtering, subsequences and
    Python's prefix slice `xs[:n]`. */
module Seqs {

  /** `a` can be obtained from `b` by deleting elements (order is kept). */
  predicate IsSubseq<T(==)>(a: seq<T>, b: seq<T>)
    decreases |b|
  {
    |a| == 0 || (|b| > 0 && (if a[0] == b[0] then IsSubseq(a[1..], b[1..]) else IsSubseq(a, b[1..])))
  }

  lemma {:induction false} SubseqRefl<T>(a: seq<T>)
    ensures IsSubseq(a, a)
    decreases |a|
  {
    if |a| > 0 {
      SubseqRefl(a[1..]);
    }
  }

  /** A subsequence is never longer, and every element it holds comes from the original. */
  lemma {:induction false} SubseqBounds<T>(a: seq<T>, b: seq<T>)
    requires IsSubseq(a, b)
    ensures |a| <= |b|
    ensures forall x :: x in a ==> x in b
    decreases |b|
  {
    if |a| > 0 {
      if a[0] == b[0] {
        SubseqBounds(a[1..], b[1..]);
        forall x | x in a ensures x in b {
          if x != a[0] {
            assert x in a[1..];
          }
        }
      } else {
        SubseqBounds(a, b[1..]);
      }
    }
  }

  lemma {:induction false} SubseqOfTail<T>(a: seq<T>, b: seq<T>)
    requires |b| > 0 && IsSubseq(a, b[1..])
    ensures IsSubseq(a, b)
    decreases |b|, 0
  {
    if |a| > 0 && a[0] == b[0] {
      SubseqDropFirst(a, b[1..]);
    }
  }

  lemma {:induction false} SubseqDropFirst<T>(a: seq<T>, b: seq<T>)
    requires |a| > 0 && IsSubseq(a, b)
    ensures IsSubseq(a[1..], b)
    decreases |b|, 1
  {
    if a[0] == b[0] {
      SubseqOfTail(a[1..], b);
    } else {
      SubseqDropFirst(a, b[1..]);
      SubseqOfTail(a[1..], b);
    }
  }

  /** Deleting elements twice is deleting elements. */
  lemma {:induction false} SubseqTrans<T>(a: seq<T>, b: seq<T>, c: seq<T>)
    requires IsSubseq(a, b) && IsSubseq(b, c)
    ensures IsSubseq(a, c)
    decreases |c|
  {
    if |a| == 0 {
    } else if |b| == 0 {
    } else if b[0] == c[0] {
      if a[0] == b[0] {
        SubseqTrans(a[1..], b[1..], c[1..]);
      } else {
        SubseqTrans(a, b[1..], c[1..]);
      }
    } else {
      SubseqTrans(a, b, c[1..]);
      SubseqOfTail(a, c);
    }
  }

  /** Every prefix is a subsequence. */
  lemma {:induction false} PrefixIsSubseq<T>(xs: seq<T>, n: nat)
    requires n <= |xs|
    ensures IsSubseq(xs[..n], xs)
    decreases n
  {
    if n > 0 {
      PrefixIsSubseq(xs[1..], n - 1);
      assert xs[..n][1..] == xs[1..][..n - 1];
    }
  }

  /** The elements of `xs` satisfying `p`, in their original order. */
  function Filter<T>(p: T -> bool, xs: seq<T>): (r: seq<T>)
    ensures |r| <= |xs|
    ensures forall i :: 0 <= i < |r| ==> p(r[i])
    ensures forall x :: x in xs && p(x) ==> x in r
    ensures forall x :: x in r ==> x in xs
    ensures multiset(r) <= multiset(xs)
    ensures forall x :: x in xs ==> multiset(r)[x] == if p(x) then multiset(xs)[x] else 0
    decreases |xs|
  {
    if |xs| == 0 then []
    else
      var rest := Filter(p, xs[1..]);
      assert xs == [xs[0]] + xs[1..];
      assert multiset(xs) == multiset{xs[0]} + multiset(xs[1..]);
      if p(xs[0]) then [xs[0]] + rest else rest
  }

  /** The filtered sequence is a subsequence of the input. */
  lemma {:induction false} FilterIsSubseq<T>(p: T -> bool, xs: seq<T>)
    ensures IsSubseq(Filter(p, xs), xs)
    decreases |xs|
  {
    if |xs| > 0 {
      FilterIsSubseq(p, xs[1..]);
      if p(xs[0]) {
        assert Filter(p, xs) == [xs[0]] + Filter(p, xs[1..]);
      } else {
        SubseqOfTail(Filter(p, xs), xs);
      }
    }
  }

  /** Filtering keeps everything exactly when every element passes. */
  lemma {:induction false} FilterAll<T>(p: T -> bool, xs: seq<T>)
    ensures Filter(p, xs) == xs <==> forall i :: 0 <= i < |xs| ==> p(xs[i])
    decreases |xs|
  {
    if |xs| > 0 {
      FilterAll(p, xs[1..]);
      if !p(xs[0]) {
        assert |Filter(p, xs)| < |xs|;
      } else {
        assert Filter(p, xs) == [xs[0]] + Filter(p, xs[1..]);
        if Filter(p, xs) == xs {
          assert Filter(p, xs[1..]) == xs[1..];
        }
        if forall i :: 0 <= i < |xs| ==> p(xs[i]) {
          assert forall i :: 0 <= i < |xs[1..]| ==> p(xs[1..][i]) by {
            forall i | 0 <= i < |xs[1..]| ensures p(xs[1..][i]) {
              assert xs[1..][i] == xs[i + 1];
            }
          }
        }
      }
    }
  }

  /** Filtering a concatenation filters each part. */
  lemma {:induction false} FilterAppend<T>(p: T -> bool, a: seq<T>, b: seq<T>)
    ensures Filter(p, a + b) == Filter(p, a) + Filter(p, b)
    decreases |a|
  {
    if |a| == 0 {
      assert a + b == b;
    } else {
      var ab := a + b;
      assert ab[0] == a[0];
      assert ab[1..] == a[1..] + b;
      FilterAppend(p, a[1..], b);
      if p(a[0]) {
        calc {
          Filter(p, ab);
          [a[0]] + Filter(p, a[1..] + b);
          [a[0]] + (Filter(p, a[1..]) + Filter(p, b));
          ([a[0]] + Filter(p, a[1..])) + Filter(p, b);
        }
      }
    }
  }

  function Min(a: int, b: int): int { if a <= b then a else b }

  function Max(a: int, b: int): int { if a >= b then a else b }

  /** Python's `xs[:n]` for any integer `n`: the first `n` elements when `n`
      is non-negative, and all but the last `-n` when it is negative. */
  function Take<T>(xs: seq<T>, n: int): (r: seq<T>)
    ensures 0 <= n ==> |r| == Min(|xs|, n)
    ensures n < 0 ==> |r| == Max(0, |xs| + n)
    ensures |r| <= |xs| && r == xs[..|r|]
  {
    if n >= |xs| then xs
    else if n >= 0 then xs[..n]
    else if |xs| + n >= 0 then xs[..|xs| + n]
    else []
  }

  /** A slice is a subsequence, and keeps everything once the bound covers the input. */
  lemma TakeIsSubseq<T>(xs: seq<T>, n: int)
    ensures IsSubseq(Take(xs, n), xs)
    ensures n >= |xs| ==> Take(xs, n) == xs
  {
    PrefixIsSubseq(xs, |Take(xs, n)|);
  }
}
