/** `list.sort(key=date, reverse=True)` on news items: newest first, and
    items with equal dates keep their relative order. */
module Sorting {
  import opened News
  import opened Order

  /** Newest first: no item is dated later than an item before it. */
  predicate SortedDesc(xs: seq<Item>) {
    forall i, j :: 0 <= i < j < |xs| ==> LexLe(xs[j].date, xs[i].date)
  }

  /** The items of `xs` dated `d`, in their order in `xs`. */
  function WithDate(xs: seq<Item>, d: string): seq<Item>
    decreases |xs|
  {
    if |xs| == 0 then []
    else (if xs[0].date == d then [xs[0]] else []) + WithDate(xs[1..], d)
  }

  /** Places `x` before the first item of `s` that is not newer than it. */
  function Insert(x: Item, s: seq<Item>): (r: seq<Item>)
    ensures |r| == |s| + 1
    ensures multiset(r) == multiset(s) + multiset{x}
    decreases |s|
  {
    if |s| == 0 || LexLe(s[0].date, x.date) then [x] + s
    else
      assert s == [s[0]] + s[1..];
      [s[0]] + Insert(x, s[1..])
  }

  /** Insertion sort from the back: each item goes in front of the sorted rest
      before every item of the same date, which keeps the sort stable. */
  function SortByDateDesc(xs: seq<Item>): (r: seq<Item>)
    ensures |r| == |xs|
    ensures multiset(r) == multiset(xs)
    decreases |xs|
  {
    if |xs| == 0 then []
    else
      assert xs == [xs[0]] + xs[1..];
      Insert(xs[0], SortByDateDesc(xs[1..]))
  }

  lemma {:induction false} InsertSorted(x: Item, s: seq<Item>)
    requires SortedDesc(s)
    ensures SortedDesc(Insert(x, s))
    decreases |s|
  {
    if |s| > 0 && !LexLe(s[0].date, x.date) {
      LexTotal(s[0].date, x.date);
      InsertSorted(x, s[1..]);
      var r := Insert(x, s);
      var t := Insert(x, s[1..]);
      assert r == [s[0]] + t;
      forall j | 0 < j < |r| ensures LexLe(r[j].date, s[0].date) {
        assert r[j] in multiset(t);
        assert r[j] in multiset(s[1..]) + multiset{x};
        if r[j] != x {
          assert r[j] in s[1..];
          var k :| 0 <= k < |s[1..]| && s[1..][k] == r[j];
          assert s[k + 1] == r[j];
        }
      }
    } else if |s| > 0 {
      var r := Insert(x, s);
      forall i, j | 0 <= i < j < |r| ensures LexLe(r[j].date, r[i].date) {
        if i == 0 {
          if j > 1 {
            LexTransitive(r[j].date, s[0].date, x.date);
          }
        }
      }
    }
  }

  /** The result is newest first. */
  lemma {:induction false} SortIsSorted(xs: seq<Item>)
    ensures SortedDesc(SortByDateDesc(xs))
    decreases |xs|
  {
    if |xs| > 0 {
      SortIsSorted(xs[1..]);
      InsertSorted(xs[0], SortByDateDesc(xs[1..]));
    }
  }

  /** The items of date `d` are exactly the members of `xs` dated `d`. */
  lemma {:induction false} WithDateMembers(xs: seq<Item>, d: string, x: Item)
    ensures x in WithDate(xs, d) <==> x in xs && x.date == d
    decreases |xs|
  {
    if |xs| > 0 {
      WithDateMembers(xs[1..], d, x);
      assert xs == [xs[0]] + xs[1..];
    }
  }

  lemma {:induction false} WithDateAppend(a: seq<Item>, b: seq<Item>, d: string)
    ensures WithDate(a + b, d) == WithDate(a, d) + WithDate(b, d)
    decreases |a|
  {
    if |a| == 0 {
      assert a + b == b;
    } else {
      assert (a + b)[1..] == a[1..] + b;
      WithDateAppend(a[1..], b, d);
    }
  }

  /** Inserting `x` adds it in front of the items of its own date and leaves
      every other date's items as they were. */
  lemma {:induction false} InsertWithDate(x: Item, s: seq<Item>, d: string)
    ensures WithDate(Insert(x, s), d) == (if x.date == d then [x] else []) + WithDate(s, d)
    decreases |s|
  {
    if |s| > 0 && !LexLe(s[0].date, x.date) {
      LexReflexive(x.date);
      var t := Insert(x, s[1..]);
      InsertWithDate(x, s[1..], d);
      var r := [s[0]] + t;
      assert Insert(x, s) == r;
      assert r[0] == s[0] && r[1..] == t;
      assert WithDate(r, d) == (if s[0].date == d then [s[0]] else []) + WithDate(t, d);
      assert WithDate(s, d) == (if s[0].date == d then [s[0]] else []) + WithDate(s[1..], d);
    }
  }

  /** Stability: for every date, the items of that date appear in the sorted
      result in the same order as in the input. */
  lemma {:induction false} SortIsStable(xs: seq<Item>, d: string)
    ensures WithDate(SortByDateDesc(xs), d) == WithDate(xs, d)
    decreases |xs|
  {
    if |xs| > 0 {
      SortIsStable(xs[1..], d);
      InsertWithDate(xs[0], SortByDateDesc(xs[1..]), d);
    }
  }

  /** Two newest-first sequences that agree on the items of every date are equal. */
  lemma {:induction false} SortedUnique(r: seq<Item>, s: seq<Item>)
    requires SortedDesc(r) && SortedDesc(s)
    requires forall d :: WithDate(r, d) == WithDate(s, d)
    ensures r == s
    decreases |r| + |s|
  {
    if |r| == 0 || |s| == 0 {
      if |r| > 0 {
        WithDateMembers(r, r[0].date, r[0]);
        WithDateMembers(s, r[0].date, r[0]);
      } else if |s| > 0 {
        WithDateMembers(r, s[0].date, s[0]);
        WithDateMembers(s, s[0].date, s[0]);
      }
    } else {
      var a, b := r[0], s[0];
      WithDateMembers(r, a.date, a);
      WithDateMembers(s, a.date, a);
      var j :| 0 <= j < |s| && s[j] == a;
      if j > 0 {
        assert LexLe(a.date, b.date);
      } else {
        LexReflexive(a.date);
      }
      WithDateMembers(r, b.date, b);
      WithDateMembers(s, b.date, b);
      var i :| 0 <= i < |r| && r[i] == b;
      if i > 0 {
        assert LexLe(b.date, a.date);
      } else {
        LexReflexive(b.date);
      }
      LexAntisymmetric(a.date, b.date);
      assert WithDate(r, a.date)[0] == a && WithDate(s, a.date)[0] == b;
      assert a == b;
      forall d ensures WithDate(r[1..], d) == WithDate(s[1..], d) {
        var front := if a.date == d then [a] else [];
        assert WithDate(r, d) == front + WithDate(r[1..], d);
        assert WithDate(s, d) == front + WithDate(s[1..], d);
        assert WithDate(r[1..], d) == (front + WithDate(r[1..], d))[|front|..];
        assert WithDate(s[1..], d) == (front + WithDate(s[1..], d))[|front|..];
      }
      assert SortedDesc(r[1..]) && SortedDesc(s[1..]) by {
        forall i, j | 0 <= i < j < |r| - 1 ensures LexLe(r[1..][j].date, r[1..][i].date) {
          assert r[1..][j] == r[j + 1] && r[1..][i] == r[i + 1];
        }
        forall i, j | 0 <= i < j < |s| - 1 ensures LexLe(s[1..][j].date, s[1..][i].date) {
          assert s[1..][j] == s[j + 1] && s[1..][i] == s[i + 1];
        }
      }
      SortedUnique(r[1..], s[1..]);
      assert r == [a] + r[1..] && s == [b] + s[1..];
    }
  }

  /** `r` is newest first and agrees with `xs` on the items of every date. */
  ghost predicate StableDescendingOf(r: seq<Item>, xs: seq<Item>) {
    SortedDesc(r) && forall d :: WithDate(r, d) == WithDate(xs, d)
  }

  /** The sort is characterised by its two promises: `r` is the sorted input
      exactly when it is newest first and agrees with the input on the items
      of every date (which also makes it a permutation of the input). */
  lemma SortCharacterisation(xs: seq<Item>, r: seq<Item>)
    ensures r == SortByDateDesc(xs) <==> StableDescendingOf(r, xs)
  {
    var sorted := SortByDateDesc(xs);
    SortIsSorted(xs);
    forall d ensures WithDate(sorted, d) == WithDate(xs, d) {
      SortIsStable(xs, d);
    }
    assert StableDescendingOf(sorted, xs);
    if StableDescendingOf(r, xs) {
      SortedUnique(r, sorted);
    }
  }
}
