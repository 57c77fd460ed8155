/** Python built-ins over lists used by the helpers: `range`, `set` on a
    list of ids, and the stable `sorted` (with a `key`), given here by
    insertion sort with its defining properties proved. */
module Sequences {

  /** `range(lo, hi)` */
  function Range(lo: int, hi: int): (r: seq<int>)
    ensures |r| == if lo <= hi then hi - lo else 0
    ensures forall i :: 0 <= i < |r| ==> r[i] == lo + i
    decreases hi - lo
  {
    if lo >= hi then [] else [lo] + Range(lo + 1, hi)
  }

  lemma RangeMember(lo: int, hi: int, x: int)
    ensures x in Range(lo, hi) <==> lo <= x < hi
  {
    if lo <= x < hi {
      assert Range(lo, hi)[x - lo] == x;
    }
  }

  lemma FirstIsMember<T>(xs: seq<T>)
    ensures xs == [] || xs[0] in xs
  {
  }

  /** The list without repetitions, first occurrences kept. */
  function Dedup<T(==,!new)>(xs: seq<T>): (r: seq<T>)
    ensures forall x :: x in r <==> x in xs
    ensures forall i, j :: 0 <= i < j < |r| ==> r[i] != r[j]
  {
    if xs == [] then []
    else
      var r := Dedup(xs[..|xs| - 1]);
      var last := xs[|xs| - 1];
      assert forall x :: x in xs <==> x in xs[..|xs| - 1] || x == last by {
        assert xs == xs[..|xs| - 1] + [last];
      }
      if last in r then r else r + [last]
  }

  /** `le` orders all values and is transitive. */
  ghost predicate TotalPreorder<T(!new)>(le: (T, T) -> bool) {
    && (forall x, y :: le(x, y) || le(y, x))
    && (forall x, y, z :: le(x, y) && le(y, z) ==> le(x, z))
  }

  predicate SortedBy<T>(xs: seq<T>, le: (T, T) -> bool) {
    forall i, j :: 0 <= i < j < |xs| ==> le(xs[i], xs[j])
  }

  /** Insert `x` after every leading element not greater than it. */
  function InsertBy<T>(x: T, xs: seq<T>, le: (T, T) -> bool): (r: seq<T>)
    ensures multiset(r) == multiset(xs) + multiset{x}
  {
    if xs == [] then [x]
    else if le(xs[0], x) then
      var r := [xs[0]] + InsertBy(x, xs[1..], le);
      assert xs == [xs[0]] + xs[1..];
      r
    else [x] + xs
  }

  /** `sorted(xs, key=...)`: a stable insertion sort. */
  function SortBy<T>(xs: seq<T>, le: (T, T) -> bool): (r: seq<T>)
    ensures multiset(r) == multiset(xs)
  {
    if xs == [] then []
    else
      var init := xs[..|xs| - 1];
      assert xs == init + [xs[|xs| - 1]];
      InsertBy(xs[|xs| - 1], SortBy(init, le), le)
  }

  lemma {:induction false} InsertBySorted<T(!new)>(x: T, xs: seq<T>, le: (T, T) -> bool)
    requires TotalPreorder(le) && SortedBy(xs, le)
    ensures SortedBy(InsertBy(x, xs, le), le)
  {
    if xs != [] && le(xs[0], x) {
      var tail := xs[1..];
      assert SortedBy(tail, le);
      InsertBySorted(x, tail, le);
      var r := InsertBy(x, tail, le);
      assert multiset(r) == multiset(tail) + multiset{x};
      forall y | y in r ensures le(xs[0], y) {
        assert y in multiset(r);
        if y != x {
          assert y in tail;
        }
      }
    } else if xs != [] {
      assert le(x, xs[0]);
      forall j | 0 <= j < |xs| ensures le(x, xs[j]) {
        if j > 0 {
          assert le(xs[0], xs[j]);
        }
      }
    }
  }

  /** The result is ordered and, for a total preorder, a permutation. */
  lemma {:induction false} SortBySorted<T(!new)>(xs: seq<T>, le: (T, T) -> bool)
    requires TotalPreorder(le)
    ensures SortedBy(SortBy(xs, le), le)
  {
    if xs != [] {
      SortBySorted(xs[..|xs| - 1], le);
      InsertBySorted(xs[|xs| - 1], SortBy(xs[..|xs| - 1], le), le);
    }
  }

  /** Inserting an element that no element exceeds appends it. */
  lemma {:induction false} InsertByLast<T>(x: T, xs: seq<T>, le: (T, T) -> bool)
    requires forall y :: y in xs ==> le(y, x)
    ensures InsertBy(x, xs, le) == xs + [x]
  {
    if xs != [] {
      InsertByLast(x, xs[1..], le);
      assert xs == [xs[0]] + xs[1..];
    }
  }

  /** Sorting an already ordered list changes nothing (stability). */
  lemma {:induction false} SortByOfSorted<T>(xs: seq<T>, le: (T, T) -> bool)
    requires SortedBy(xs, le)
    ensures SortBy(xs, le) == xs
  {
    if xs != [] {
      var init := xs[..|xs| - 1];
      assert SortedBy(init, le);
      SortByOfSorted(init, le);
      forall y | y in init ensures le(y, xs[|xs| - 1]) {
      }
      InsertByLast(xs[|xs| - 1], init, le);
    }
  }

  /** The order of ints. */
  function IntLe(): (int, int) -> bool {
    (a: int, b: int) => a <= b
  }

  lemma IntLeTotal()
    ensures TotalPreorder(IntLe())
  {
  }

  /** `sorted(set(xs))` on ints: strictly increasing, with the elements of
      `xs`. */
  function SortedSet(xs: seq<int>): (r: seq<int>)
    ensures forall x :: x in r <==> x in xs
  {
    var r := SortBy(Dedup(xs), IntLe());
    assert forall x :: x in r <==> x in multiset(r);
    r
  }

  lemma SortedSetIncreasing(xs: seq<int>)
    ensures forall i, j :: 0 <= i < j < |SortedSet(xs)| ==> SortedSet(xs)[i] < SortedSet(xs)[j]
  {
    var d := Dedup(xs);
    var r := SortedSet(xs);
    IntLeTotal();
    SortBySorted(d, IntLe());
    assert multiset(r) == multiset(d);
    forall i, j | 0 <= i < j < |r| ensures r[i] < r[j] {
      assert r[i] <= r[j];
      DistinctCount(d, r[j]);
      SingleOccurrence(r, i, j);
    }
  }

  lemma SingleOccurrence<T>(s: seq<T>, i: nat, j: nat)
    requires i < j < |s| && multiset(s)[s[j]] <= 1
    ensures s[i] != s[j]
  {
    assert s == s[..j] + [s[j]] + s[j + 1..];
    assert multiset(s)[s[j]] >= multiset(s[..j])[s[j]] + 1;
    assert s[i] in multiset(s[..j]);
  }

  lemma {:induction false} DistinctCount<T>(xs: seq<T>, x: T)
    requires forall i, j :: 0 <= i < j < |xs| ==> xs[i] != xs[j]
    ensures multiset(xs)[x] <= 1
  {
    if xs != [] {
      var init := xs[..|xs| - 1];
      DistinctCount(init, x);
      assert xs == init + [xs[|xs| - 1]];
      assert xs[|xs| - 1] !in init;
    }
  }

  /** A strictly increasing list whose last element exceeds its first by one
      less than its length is the range between them. */
  lemma ContiguousIsRange(ids: seq<int>)
    requires |ids| > 0
    requires forall i, j :: 0 <= i < j < |ids| ==> ids[i] < ids[j]
    requires ids[|ids| - 1] - ids[0] + 1 == |ids|
    ensures ids == Range(ids[0], ids[|ids| - 1] + 1)
  {
    forall i | 0 <= i < |ids| ensures ids[i] == ids[0] + i {
      Gap(ids, 0, i);
      Gap(ids, i, |ids| - 1);
    }
  }

  lemma {:induction false} Gap(ids: seq<int>, i: nat, j: nat)
    requires i <= j < |ids|
    requires forall i, j :: 0 <= i < j < |ids| ==> ids[i] < ids[j]
    ensures ids[j] - ids[i] >= j - i
    decreases j - i
  {
    if i < j {
      Gap(ids, i + 1, j);
    }
  }
}
