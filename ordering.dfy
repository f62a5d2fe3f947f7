/** `Series.unique()` and Python's `sorted()` on the integer values of a column. */
module Ordering {

  predicate Distinct<T(==)>(s: seq<T>)
  {
    forall i, j :: 0 <= i < j < |s| ==> s[i] != s[j]
  }

  predicate Ascending(s: seq<int>)
  {
    forall i, j :: 0 <= i < j < |s| ==> s[i] <= s[j]
  }

  predicate StrictlyAscending(s: seq<int>)
  {
    forall i, j :: 0 <= i < j < |s| ==> s[i] < s[j]
  }

  /** The position where `x` first occurs in `s`. */
  function FirstIndex<T(==)>(s: seq<T>, x: T): (k: nat)
    requires x in s
    ensures k < |s| && s[k] == x && x !in s[..k]
  {
    if s[0] == x then 0
    else
      var k := 1 + FirstIndex(s[1..], x);
      assert s[..k] == [s[0]] + s[1..][..k - 1];
      k
  }

  /** Appending a value leaves the first positions of earlier values where they were, and
      puts a new value's first position at the end. */
  lemma FirstIndexAppend<T>(init: seq<T>, last: T)
    ensures forall x :: x in init ==> FirstIndex(init + [last], x) == FirstIndex(init, x)
    ensures last !in init ==> FirstIndex(init + [last], last) == |init|
  {
    var s := init + [last];
    forall x | x in init
      ensures FirstIndex(s, x) == FirstIndex(init, x)
    {
      var k, k' := FirstIndex(s, x), FirstIndex(init, x);
      assert s[k'] == x;
    }
  }

  /** The distinct values of `s` in order of first appearance, as pandas' `unique` gives them. */
  function Unique<T(==,!new)>(s: seq<T>): (r: seq<T>)
    ensures Distinct(r)
    ensures forall x :: x in r <==> x in s
    ensures forall i, j :: 0 <= i < j < |r| ==> r[i] in s && r[j] in s && FirstIndex(s, r[i]) < FirstIndex(s, r[j])
  {
    if s == [] then []
    else
      var init, last := s[..|s| - 1], s[|s| - 1];
      assert s == init + [last];
      var u := Unique(init);
      FirstIndexAppend(init, last);
      if last in u then u
      else
        var r := u + [last];
        assert forall i :: 0 <= i < |u| ==> r[i] == u[i] && u[i] in init;
        r
  }

  /** The first value of a non-empty column comes first in its `unique`. */
  lemma {:induction false} UniqueStartsWithFirst<T(!new)>(s: seq<T>)
    requires s != []
    ensures Unique(s) != [] && Unique(s)[0] == s[0]
  {
    if |s| > 1 {
      var init := s[..|s| - 1];
      UniqueStartsWithFirst(init);
    }
  }

  /** Inserting `x` into an ascending list before the first element not below it. */
  function Insert(x: int, s: seq<int>): (r: seq<int>)
    ensures multiset(r) == multiset(s) + multiset{x}
  {
    if s == [] || x <= s[0] then [x] + s
    else
      assert s == [s[0]] + s[1..];
      [s[0]] + Insert(x, s[1..])
  }

  /** `sorted(s)`: insertion sort. */
  function SortAscending(s: seq<int>): (r: seq<int>)
    ensures multiset(r) == multiset(s)
  {
    if s == [] then []
    else
      assert s == [s[0]] + s[1..];
      Insert(s[0], SortAscending(s[1..]))
  }

  lemma {:induction false} InsertKeepsOrder(x: int, s: seq<int>)
    requires Ascending(s)
    ensures Ascending(Insert(x, s))
    ensures StrictlyAscending(s) && x !in s ==> StrictlyAscending(Insert(x, s))
  {
    if s == [] || x <= s[0] {
      assert Insert(x, s) == [x] + s;
    } else {
      var tail := Insert(x, s[1..]);
      InsertKeepsOrder(x, s[1..]);
      TailAbove(x, s, tail);
      assert Insert(x, s) == [s[0]] + tail;
    }
  }

  /** After the first element of an ascending list, inserting a larger `x` into the rest
      yields only values not below that first element. */
  lemma TailAbove(x: int, s: seq<int>, tail: seq<int>)
    requires Ascending(s) && s != [] && x > s[0]
    requires multiset(tail) == multiset(s[1..]) + multiset{x}
    ensures forall j :: 0 <= j < |tail| ==> s[0] <= tail[j]
    ensures StrictlyAscending(s) ==> forall j :: 0 <= j < |tail| ==> s[0] < tail[j]
  {
    forall j | 0 <= j < |tail|
      ensures s[0] <= tail[j]
      ensures StrictlyAscending(s) ==> s[0] < tail[j]
    {
      assert tail[j] in multiset(tail);
      if tail[j] != x {
        assert tail[j] in multiset(s[1..]);
        var k :| 0 <= k < |s[1..]| && s[1..][k] == tail[j];
        assert s[k + 1] == tail[j];
      }
    }
  }

  /** `sorted` gives an ascending list, strictly ascending when the input has no repeats. */
  lemma {:induction false} SortIsOrdered(s: seq<int>)
    ensures Ascending(SortAscending(s))
    ensures Distinct(s) ==> StrictlyAscending(SortAscending(s))
  {
    if s != [] {
      var rest := SortAscending(s[1..]);
      SortIsOrdered(s[1..]);
      InsertKeepsOrder(s[0], rest);
      if Distinct(s) {
        assert Distinct(s[1..]);
        assert s[0] !in s[1..] by {
          forall k | 0 <= k < |s[1..]| ensures s[1..][k] != s[0] {
            assert s[1..][k] == s[k + 1];
          }
        }
        assert s[0] !in multiset(rest);
      }
    }
  }
}
