/** Selecting the k largest of a sequence of naturals, the work that
    `Itertools::k_smallest(k)` does on `Reverse`-wrapped values: it keeps
    the k largest values met so far and offers each new value to them.
    The reference definition is "sort in descending order and take the
    first k". */
module Selection {
  import opened Text

  predicate SortedDesc(s: seq<nat>)
  {
    forall i, j :: 0 <= i < j < |s| ==> s[i] >= s[j]
  }

  /** `x` put into a descending sequence at its place. */
  function Insert(x: nat, s: seq<nat>): (r: seq<nat>)
    ensures |r| == |s| + 1
  {
    if s == [] then [x]
    else if x >= s[0] then [x] + s
    else [s[0]] + Insert(x, s[1..])
  }

  lemma {:induction false} InsertElements(x: nat, s: seq<nat>)
    ensures multiset(Insert(x, s)) == multiset(s) + multiset{x}
    decreases |s|
  {
    if s != [] && x < s[0] {
      InsertElements(x, s[1..]);
      assert s == [s[0]] + s[1..];
    }
  }

  /** The head of an insertion is the larger of `x` and the old head. */
  lemma InsertHead(x: nat, s: seq<nat>)
    ensures Insert(x, s)[0] == if s == [] || x >= s[0] then x else s[0]
  {
  }

  /** A value no smaller than the head of a descending sequence can go in
      front of it. */
  lemma ConsSorted(h: nat, t: seq<nat>)
    requires SortedDesc(t) && (t != [] ==> t[0] <= h)
    ensures SortedDesc([h] + t)
  {
    var r := [h] + t;
    forall i, j | 0 <= i < j < |r| ensures r[i] >= r[j] {
      if i == 0 {
        assert r[j] == t[j - 1] <= t[0];
      } else {
        assert r[i] == t[i - 1] && r[j] == t[j - 1];
      }
    }
  }

  lemma {:induction false} InsertSorted(x: nat, s: seq<nat>)
    requires SortedDesc(s)
    ensures SortedDesc(Insert(x, s))
    decreases |s|
  {
    if s != [] && x < s[0] {
      var rest := s[1..];
      var tail := Insert(x, rest);
      InsertSorted(x, rest);
      InsertHead(x, rest);
      assert rest != [] ==> rest[0] == s[1];
      ConsSorted(s[0], tail);
      assert Insert(x, s) == [s[0]] + tail;
    }
  }

  /** Insertion sort, descending: the elements are inserted in the order
      they come. */
  function SortDesc(s: seq<nat>): (r: seq<nat>)
    ensures |r| == |s|
  {
    if s == [] then [] else Insert(s[|s| - 1], SortDesc(s[..|s| - 1]))
  }

  /** The insertion sort keeps every element. */
  lemma {:induction false} SortDescElements(s: seq<nat>)
    ensures multiset(SortDesc(s)) == multiset(s)
    decreases |s|
  {
    if s != [] {
      var init := s[..|s| - 1];
      SortDescElements(init);
      InsertElements(s[|s| - 1], SortDesc(init));
      assert s == init + [s[|s| - 1]];
    }
  }

  /** The insertion sort sorts. */
  lemma {:induction false} SortDescSorted(s: seq<nat>)
    ensures SortedDesc(SortDesc(s))
    decreases |s|
  {
    if s != [] {
      SortDescSorted(s[..|s| - 1]);
      InsertSorted(s[|s| - 1], SortDesc(s[..|s| - 1]));
    }
  }

  /** The insertion sort sorts, and keeps every element. */
  lemma SortDescCorrect(s: seq<nat>)
    ensures SortedDesc(SortDesc(s))
    ensures multiset(SortDesc(s)) == multiset(s)
  {
    SortDescSorted(s);
    SortDescElements(s);
  }

  /** The first `k` elements, or all of them when there are fewer. */
  function Take(k: nat, s: seq<nat>): (r: seq<nat>)
    ensures |r| == if k <= |s| then k else |s|
    ensures forall i :: 0 <= i < |r| ==> r[i] == s[i]
  {
    if k <= |s| then s[..k] else s
  }

  /** The selector: the bounded descending list of the `k` largest values
      seen so far, updated by inserting each new value and dropping what
      falls off the end. */
  function KLargest(k: nat, s: seq<nat>): (r: seq<nat>)
    ensures |r| <= k && |r| <= |s|
  {
    if s == [] then []
    else Take(k, Insert(s[|s| - 1], KLargest(k, s[..|s| - 1])))
  }

  /** Dropping the tail before an insertion changes nothing in the first
      `k` positions. */
  lemma {:induction false} TakeInsertTake(k: nat, x: nat, s: seq<nat>)
    ensures Take(k, Insert(x, Take(k, s))) == Take(k, Insert(x, s))
    decreases |s|
  {
    if k == 0 || s == [] {
    } else if k > |s| {
    } else if x >= s[0] {
      assert Take(k, s) == [s[0]] + Take(k - 1, s[1..]);
    } else {
      assert Take(k, s) == [s[0]] + Take(k - 1, s[1..]);
      TakeInsertTake(k - 1, x, s[1..]);
    }
  }

  /** The selector agrees with the reference: its list is the first `k`
      elements of the sequence sorted in descending order. */
  lemma {:induction false} KLargestIsSortedPrefix(k: nat, s: seq<nat>)
    ensures KLargest(k, s) == Take(k, SortDesc(s))
    decreases |s|
  {
    if s != [] {
      KLargestIsSortedPrefix(k, s[..|s| - 1]);
      TakeInsertTake(k, s[|s| - 1], SortDesc(s[..|s| - 1]));
    }
  }

  /** Sum of the `k` largest elements (all of them when there are fewer). */
  function TopSum(k: nat, s: seq<nat>): nat
  {
    Sum(KLargest(k, s))
  }

  /** What `TopSum` picks: elements of the input, in descending order, and
      none of the elements left out is larger than any picked one. */
  lemma TopSumPicksLargest(k: nat, s: seq<nat>)
    ensures var top := KLargest(k, s);
      && SortedDesc(top)
      && multiset(top) <= multiset(s)
      && |top| == (if k <= |s| then k else |s|)
      && forall i, j :: 0 <= i < |top| && k <= j < |s| ==> top[i] >= SortDesc(s)[j]
  {
    KLargestIsSortedPrefix(k, s);
    SortDescSorted(s);
    TopElements(k, s);
    var sorted := SortDesc(s);
    var top := KLargest(k, s);
    assert forall i :: 0 <= i < |top| ==> top[i] == sorted[i];
  }

  /** The first element of a descending sequence is its largest. */
  lemma FirstIsLargest(a: seq<nat>, x: nat)
    requires SortedDesc(a) && x in multiset(a)
    ensures x <= a[0]
  {
    assert x in a;
    var i :| 0 <= i < |a| && a[i] == x;
    if i != 0 {
      assert a[0] >= a[i];
    }
  }

  /** Two descending sequences with the same elements are equal. */
  lemma {:induction false} SortedDescUnique(a: seq<nat>, b: seq<nat>)
    requires SortedDesc(a) && SortedDesc(b) && multiset(a) == multiset(b)
    ensures a == b
    decreases |a|
  {
    assert |a| == |multiset(a)| == |b|;
    if a != [] {
      FirstIsLargest(a, b[0]);
      FirstIsLargest(b, a[0]);
      assert a == [a[0]] + a[1..] && b == [b[0]] + b[1..];
      assert a[0] == b[0];
      assert multiset(a[1..]) == multiset(b[1..]) by {
        assert a == [a[0]] + a[1..] && b == [b[0]] + b[1..];
        assert multiset(a) == multiset{a[0]} + multiset(a[1..]);
        assert multiset(b) == multiset{b[0]} + multiset(b[1..]);
        assert multiset(a[1..]) == multiset(a) - multiset{a[0]};
        assert multiset(b[1..]) == multiset(b) - multiset{b[0]};
      }
      assert SortedDesc(a[1..]) && SortedDesc(b[1..]);
      SortedDescUnique(a[1..], b[1..]);
    }
  }

  /** The order of the input does not matter. */
  lemma TopSumReorder(k: nat, a: seq<nat>, b: seq<nat>)
    requires multiset(a) == multiset(b)
    ensures TopSum(k, a) == TopSum(k, b)
  {
    KLargestIsSortedPrefix(k, a);
    KLargestIsSortedPrefix(k, b);
    SortDescCorrect(a);
    SortDescCorrect(b);
    SortedDescUnique(SortDesc(a), SortDesc(b));
  }

  lemma {:induction false} SumInsert(x: nat, s: seq<nat>)
    ensures Sum(Insert(x, s)) == x + Sum(s)
    decreases |s|
  {
    if s == [] {
      assert Sum([x]) == Sum([]) + x;
    } else if x >= s[0] {
      SumCons(x, s);
    } else {
      SumInsert(x, s[1..]);
      SumCons(s[0], Insert(x, s[1..]));
      SumCons(s[0], s[1..]);
      assert s == [s[0]] + s[1..];
    }
  }

  lemma {:induction false} SumSortDesc(s: seq<nat>)
    ensures Sum(SortDesc(s)) == Sum(s)
    decreases |s|
  {
    if s != [] {
      SumSortDesc(s[..|s| - 1]);
      SumInsert(s[|s| - 1], SortDesc(s[..|s| - 1]));
    }
  }

  /** With no more than `k` values, all of them are picked. */
  lemma TopSumOfFew(k: nat, s: seq<nat>)
    requires |s| <= k
    ensures TopSum(k, s) == Sum(s)
  {
    KLargestIsSortedPrefix(k, s);
    assert Take(k, SortDesc(s)) == SortDesc(s);
    SumSortDesc(s);
  }

  /** The largest element of a non-empty sequence (`Iterator::max`). */
  function Max(s: seq<nat>): (m: nat)
    requires s != []
    ensures m in s
    ensures forall i :: 0 <= i < |s| ==> s[i] <= m
  {
    if |s| == 1 then s[0]
    else
      var m := Max(s[..|s| - 1]);
      assert s == s[..|s| - 1] + [s[|s| - 1]];
      if s[|s| - 1] > m then s[|s| - 1] else m
  }

  /** The maximum is the first of the sorted sequence, so it is the first
      value `KLargest` keeps. */
  lemma MaxIsFirstOfTop(k: nat, s: seq<nat>)
    requires s != [] && 0 < k
    ensures KLargest(k, s)[0] == Max(s)
  {
    KLargestIsSortedPrefix(k, s);
    SortDescCorrect(s);
    var sorted := SortDesc(s);
    assert sorted[0] in multiset(s) by {
      assert sorted[0] in multiset(sorted);
    }
    assert Max(s) in multiset(sorted);
    var i :| 0 <= i < |sorted| && sorted[i] == Max(s);
    assert sorted[0] >= sorted[i];
  }

  /** The picked values are values of the input. */
  lemma TopElements(k: nat, s: seq<nat>)
    ensures multiset(KLargest(k, s)) <= multiset(s)
  {
    KLargestIsSortedPrefix(k, s);
    SortDescCorrect(s);
    var sorted := SortDesc(s);
    var top := KLargest(k, s);
    assert sorted == top + sorted[|top|..];
  }

  lemma MulMonotone(m: nat, a: nat, b: nat)
    requires a <= b
    ensures m * a <= m * b
  {
  }

  /** The largest value is among the picked ones, and no picked value is
      larger than it: `Max(s) <= TopSum(k, s) <= k * Max(s)`. */
  lemma TopSumBounds(k: nat, s: seq<nat>)
    requires s != [] && 0 < k
    ensures Max(s) <= TopSum(k, s) <= k * Max(s)
  {
    var top := KLargest(k, s);
    var m := Max(s);
    MaxIsFirstOfTop(k, s);
    TopElements(k, s);
    SumCons(top[0], top[1..]);
    assert top == [top[0]] + top[1..];
    forall i | 0 <= i < |top| ensures top[i] <= m {
      assert top[i] in multiset(top);
    }
    SumBounds(top, 0, m);
    MulMonotone(m, |top|, k);
  }

  /** The maximum depends only on the elements, not on their order. */
  lemma MaxReorder(a: seq<nat>, b: seq<nat>)
    requires a != [] && b != [] && multiset(a) == multiset(b)
    ensures Max(a) == Max(b)
  {
    assert Max(a) in multiset(b) by { assert Max(a) in multiset(a); }
    assert Max(b) in multiset(a) by { assert Max(b) in multiset(b); }
  }
}
