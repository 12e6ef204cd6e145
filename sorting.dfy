/**
 * JavaScript's `Array.prototype.sort` with a comparator: a stable sort. Here `le(a, b)` stands
 * for "the comparator does not put `b` before `a`" (`compare(a, b) <= 0`), and Sort is the
 * stable insertion sort: each element is placed after every earlier element it does not come
 * before.
 */
module Sorting {

  /** A comparator that is consistent: any two elements compare, and the order is transitive. */
  ghost predicate TotalPreorder<T(!new)>(le: (T, T) -> bool) {
    && (forall a, b :: le(a, b) || le(b, a))
    && (forall a, b, c :: le(a, b) && le(b, c) ==> le(a, c))
  }

  ghost predicate Sorted<T>(s: seq<T>, le: (T, T) -> bool) {
    forall i, j :: 0 <= i < j < |s| ==> le(s[i], s[j])
  }

  /** `t` with `x` placed after the last element that does not come after it. */
  function InsertLast<T>(t: seq<T>, x: T, le: (T, T) -> bool): (r: seq<T>)
    ensures multiset(r) == multiset(t) + multiset{x}
    ensures |r| == |t| + 1
  {
    if t == [] || le(t[|t| - 1], x) then t + [x]
    else
      assert t == t[..|t| - 1] + [t[|t| - 1]];
      InsertLast(t[..|t| - 1], x, le) + [t[|t| - 1]]
  }

  /** `s.sort(compare)`. */
  function Sort<T>(s: seq<T>, le: (T, T) -> bool): (r: seq<T>)
    ensures multiset(r) == multiset(s)
    ensures |r| == |s|
  {
    if s == [] then []
    else
      assert s == s[..|s| - 1] + [s[|s| - 1]];
      InsertLast(Sort(s[..|s| - 1], le), s[|s| - 1], le)
  }

  lemma {:induction false} InsertLastSorted<T(!new)>(t: seq<T>, x: T, le: (T, T) -> bool)
    requires TotalPreorder(le) && Sorted(t, le)
    ensures Sorted(InsertLast(t, x, le), le)
    decreases |t|
  {
    if t != [] && !le(t[|t| - 1], x) {
      var init := t[..|t| - 1];
      var last := t[|t| - 1];
      assert Sorted(init, le);
      InsertLastSorted(init, x, le);
      var u := InsertLast(init, x, le);
      // every element of u comes no later than the last element of t
      forall i | 0 <= i < |u| ensures le(u[i], last) {
        assert u[i] in multiset(u);
        if u[i] == x {
        } else {
          assert u[i] in multiset(init);
          var k :| 0 <= k < |init| && init[k] == u[i];
          assert le(t[k], last);
        }
      }
    }
  }

  /** Sort returns its input, rearranged into the comparator's order. */
  lemma {:induction false} SortSorted<T(!new)>(s: seq<T>, le: (T, T) -> bool)
    requires TotalPreorder(le)
    ensures Sorted(Sort(s, le), le)
    decreases |s|
  {
    if s != [] {
      SortSorted(s[..|s| - 1], le);
      InsertLastSorted(Sort(s[..|s| - 1], le), s[|s| - 1], le);
    }
  }

  /** Sorting what is already in order changes nothing. */
  lemma {:induction false} SortOfSorted<T(!new)>(t: seq<T>, le: (T, T) -> bool)
    requires Sorted(t, le)
    ensures Sort(t, le) == t
    decreases |t|
  {
    if t != [] {
      var init, last := t[..|t| - 1], t[|t| - 1];
      forall i, j | 0 <= i < j < |init| ensures le(init[i], init[j]) {
        assert init[i] == t[i] && init[j] == t[j];
      }
      SortOfSorted(init, le);
      SortSnoc(t, le);
      if init != [] {
        assert init[|init| - 1] == t[|t| - 2];
      }
      InsertLastAfter(init, last, le);
      assert t == init + [last];
    }
  }

  lemma SortSnoc<T>(t: seq<T>, le: (T, T) -> bool)
    requires t != []
    ensures Sort(t, le) == InsertLast(Sort(t[..|t| - 1], le), t[|t| - 1], le)
  {
  }

  lemma InsertLastAfter<T>(t: seq<T>, x: T, le: (T, T) -> bool)
    requires t == [] || le(t[|t| - 1], x)
    ensures InsertLast(t, x, le) == t + [x]
  {
  }

  /**
   * Appending to a sorted list and sorting again (what `push` then `sort` does) gives the
   * sorted order of everything pushed so far.
   */
  lemma PushThenSort<T(!new)>(s: seq<T>, x: T, le: (T, T) -> bool)
    requires TotalPreorder(le)
    ensures Sort(Sort(s, le) + [x], le) == Sort(s + [x], le)
  {
    var t := Sort(s, le);
    SortSorted(s, le);
    SortOfSorted(t, le);
    assert (t + [x])[..|t|] == t;
    assert (s + [x])[..|s|] == s;
  }
}
