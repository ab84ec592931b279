/** A stable insertion sort over any total preorder, used for the search's
    ranking of candidate moves and for ordering server groups by name. */
module Sorting {

  /** `le` is total and transitive on the elements of `s`. */
  predicate TotalPreorderOn<T(==)>(s: seq<T>, le: (T, T) -> bool) {
    && (forall a, b :: a in s && b in s ==> le(a, b) || le(b, a))
    && (forall a, b, c :: a in s && b in s && c in s && le(a, b) && le(b, c) ==> le(a, c))
  }

  predicate SortedBy<T(==)>(s: seq<T>, le: (T, T) -> bool) {
    forall i, j :: 0 <= i < j < |s| ==> le(s[i], s[j])
  }

  /** Insert `x` after every element `e` with `le(e, x)`: elements that rank
      equal keep their order of arrival. */
  function Insert<T(==)>(x: T, s: seq<T>, le: (T, T) -> bool): (r: seq<T>)
    ensures multiset(r) == multiset(s) + multiset{x}
  {
    if s == [] then [x]
    else if le(s[0], x) then
      assert s == [s[0]] + s[1..];
      [s[0]] + Insert(x, s[1..], le)
    else [x] + s
  }

  /** A preorder on a sequence is one on any sequence drawn from it. */
  lemma PreorderWithin<T>(small: seq<T>, big: seq<T>, le: (T, T) -> bool)
    requires TotalPreorderOn(big, le) && forall e :: e in small ==> e in big
    ensures TotalPreorderOn(small, le)
  {
  }

  /** A head ranked at or below every element of a sorted tail. */
  lemma ConsSorted<T>(h: T, t: seq<T>, le: (T, T) -> bool)
    requires SortedBy(t, le) && forall j :: 0 <= j < |t| ==> le(h, t[j])
    ensures SortedBy([h] + t, le)
  {
    var r := [h] + t;
    forall i, j | 0 <= i < j < |r|
      ensures le(r[i], r[j])
    {
      if i == 0 {
        assert r[j] == t[j - 1];
      } else {
        assert r[i] == t[i - 1] && r[j] == t[j - 1];
      }
    }
  }

  /** Inserting into the tail of a sorted sequence keeps its head first. */
  lemma HeadStaysFirst<T>(x: T, s: seq<T>, le: (T, T) -> bool)
    requires s != [] && SortedBy(s, le) && le(s[0], x)
    ensures forall j :: 0 <= j < |Insert(x, s[1..], le)| ==> le(s[0], Insert(x, s[1..], le)[j])
  {
    var rest := s[1..];
    var tail := Insert(x, rest, le);
    forall j | 0 <= j < |tail|
      ensures le(s[0], tail[j])
    {
      assert tail[j] in multiset(tail);
      assert tail[j] in multiset(rest) || tail[j] == x;
      if tail[j] != x {
        var k :| 0 <= k < |rest| && rest[k] == tail[j];
        assert s[k + 1] == tail[j];
      }
    }
  }

  lemma {:induction false} InsertSorted<T>(x: T, s: seq<T>, le: (T, T) -> bool)
    requires SortedBy(s, le) && TotalPreorderOn(s + [x], le)
    ensures SortedBy(Insert(x, s, le), le)
  {
    if s != [] {
      var all := s + [x];
      assert s[0] in all && x in all;
      if le(s[0], x) {
        var rest := s[1..];
        assert rest + [x] == all[1..];
        PreorderWithin(rest + [x], all, le);
        InsertSorted(x, rest, le);
        HeadStaysFirst(x, s, le);
        ConsSorted(s[0], Insert(x, rest, le), le);
      } else {
        forall j | 0 <= j < |s|
          ensures le(x, s[j])
        {
          assert s[j] in all;
        }
        ConsSorted(x, s, le);
      }
    }
  }


  /** Sort `s` by `le`; elements that rank equal stay in input order. The
      result is sorted whenever `le` is a total preorder on the elements. */
  function InsertionSort<T(==)>(s: seq<T>, le: (T, T) -> bool): (r: seq<T>)
    ensures multiset(r) == multiset(s)
    ensures TotalPreorderOn(s, le) ==> SortedBy(r, le)
  {
    if s == [] then []
    else
      var front := s[..|s| - 1];
      var x := s[|s| - 1];
      assert s == front + [x];
      var sorted := InsertionSort(front, le);
      var r := Insert(x, sorted, le);
      assert TotalPreorderOn(s, le) ==> SortedBy(r, le) by {
        if TotalPreorderOn(s, le) {
          assert forall e :: e in front ==> e in s;
          PreorderWithin(front, s, le);
          assert forall e :: e in sorted + [x] ==> e in s by {
            forall e | e in sorted + [x]
              ensures e in s
            {
              if e != x {
                assert e in multiset(sorted);
              }
            }
          }
          PreorderWithin(sorted + [x], s, le);
          InsertSorted(x, sorted, le);
        }
      }
      r
  }

  /** An element ranked after everything already there goes to the end. */
  lemma {:induction false} InsertLast<T>(x: T, s: seq<T>, le: (T, T) -> bool)
    requires forall i :: 0 <= i < |s| ==> le(s[i], x)
    ensures Insert(x, s, le) == s + [x]
  {
    if s != [] {
      InsertLast(x, s[1..], le);
      assert s == [s[0]] + s[1..];
    }
  }

  /** Sorting an already sorted sequence gives it back unchanged. */
  lemma {:induction false} SortedStays<T>(s: seq<T>, le: (T, T) -> bool)
    requires SortedBy(s, le)
    ensures InsertionSort(s, le) == s
  {
    if s != [] {
      var front := s[..|s| - 1];
      var x := s[|s| - 1];
      SortedFront(s, le);
      SortedStays(front, le);
      InsertLast(x, front, le);
      assert front + [x] == s;
    }
  }

  /** Dropping the last element of a sorted sequence keeps it sorted, and
      every remaining element ranks at most the dropped one. */
  lemma SortedFront<T>(s: seq<T>, le: (T, T) -> bool)
    requires s != [] && SortedBy(s, le)
    ensures var front := s[..|s| - 1];
      && SortedBy(front, le)
      && forall i :: 0 <= i < |front| ==> le(front[i], s[|s| - 1])
  {
  }
}
