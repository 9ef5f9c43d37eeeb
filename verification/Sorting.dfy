/**
 * list.sort with a tuple key: the order of keys and the stable sort.
 */
module Sorting {
  import opened Prelude

  /** A sort key: two numbers, then text compared by code points. */
  datatype Rank = Rank(major: int, minor: int, text: string)

  predicate TextLess(a: string, b: string) {
    b != "" && (a == "" || a[0] < b[0] || (a[0] == b[0] && TextLess(a[1..], b[1..])))
  }

  predicate Less(a: Rank, b: Rank) {
    || a.major < b.major
    || (a.major == b.major && (a.minor < b.minor || (a.minor == b.minor && TextLess(a.text, b.text))))
  }

  lemma {:induction false} TextTotal(a: string, b: string)
    ensures TextLess(a, b) || a == b || TextLess(b, a)
    ensures !(TextLess(a, b) && TextLess(b, a))
    ensures a == b ==> !TextLess(a, b)
  {
    if a != "" && b != "" {
      TextTotal(a[1..], b[1..]);
      assert a == [a[0]] + a[1..] && b == [b[0]] + b[1..];
    }
  }

  lemma {:induction false} TextTransitive(a: string, b: string, c: string)
    requires TextLess(a, b) && TextLess(b, c)
    ensures TextLess(a, c)
  {
    if a != "" && a[0] == b[0] == c[0] {
      TextTransitive(a[1..], b[1..], c[1..]);
    }
  }

  /** Not less: a may stand before b. */
  predicate Before(a: Rank, b: Rank) {
    !Less(b, a)
  }

  lemma BeforeTotal(a: Rank, b: Rank)
    ensures Before(a, b) || Before(b, a)
    ensures Before(a, b) && Before(b, a) ==> a == b
    ensures Before(a, a)
  {
    TextTotal(a.text, b.text);
    TextTotal(a.text, a.text);
  }

  lemma BeforeTransitive(a: Rank, b: Rank, c: Rank)
    requires Before(a, b) && Before(b, c)
    ensures Before(a, c)
  {
    TextTotal(a.text, b.text);
    TextTotal(b.text, c.text);
    TextTotal(a.text, c.text);
    if a != b && b != c {
      if a.major == b.major == c.major && a.minor == b.minor == c.minor {
        TextTransitive(a.text, b.text, c.text);
      }
    }
  }

  /** Put x after everything that may stand before it. */
  function Insert<T>(s: seq<T>, x: T, rank: T -> Rank): seq<T> {
    if s == [] then [x]
    else if Less(rank(x), rank(s[|s| - 1])) then Insert(s[..|s| - 1], x, rank) + [s[|s| - 1]]
    else s + [x]
  }

  function SortBy<T>(s: seq<T>, rank: T -> Rank): seq<T> {
    if s == [] then [] else Insert(SortBy(s[..|s| - 1], rank), s[|s| - 1], rank)
  }

  predicate Sorted<T>(s: seq<T>, rank: T -> Rank) {
    forall i, j :: 0 <= i < j < |s| ==> Before(rank(s[i]), rank(s[j]))
  }

  /** The items of one rank, in their order. */
  function OfRank<T>(s: seq<T>, rank: T -> Rank, r: Rank): seq<T> {
    if s == [] then []
    else
      var before := OfRank(s[..|s| - 1], rank, r);
      if rank(s[|s| - 1]) == r then before + [s[|s| - 1]] else before
  }

  lemma {:induction false} InsertMembers<T>(s: seq<T>, x: T, rank: T -> Rank)
    ensures multiset(Insert(s, x, rank)) == multiset(s) + multiset{x}
  {
    if s != [] {
      var n := |s| - 1;
      InsertMembers(s[..n], x, rank);
      assert s == s[..n] + [s[n]];
    }
  }

  lemma {:induction false} InsertKeepsSorted<T>(s: seq<T>, x: T, rank: T -> Rank)
    requires Sorted(s, rank)
    ensures Sorted(Insert(s, x, rank), rank)
  {
    if s == [] {
    } else {
      var n := |s| - 1;
      BeforeTotal(rank(x), rank(s[n]));
      if Less(rank(x), rank(s[n])) {
        InsertKeepsSorted(s[..n], x, rank);
        var front := Insert(s[..n], x, rank);
        InsertMembers(s[..n], x, rank);
        forall i | 0 <= i < |front| ensures Before(rank(front[i]), rank(s[n])) {
          assert front[i] in multiset(front);
          assert front[i] in multiset(s[..n]) + multiset{x};
          assert front[i] == x || front[i] in s[..n];
        }
      } else {
        forall i | 0 <= i < |s| ensures Before(rank(s[i]), rank(x)) {
          if i < n { BeforeTransitive(rank(s[i]), rank(s[n]), rank(x)); }
        }
      }
    }
  }

  lemma {:induction false} InsertIsStable<T>(s: seq<T>, x: T, rank: T -> Rank, r: Rank)
    requires Sorted(s, rank)
    ensures OfRank(Insert(s, x, rank), rank, r) == if rank(x) == r then OfRank(s, rank, r) + [x] else OfRank(s, rank, r)
  {
    var n := |s| - 1;
    if s != [] && Less(rank(x), rank(s[n])) {
      InsertIsStable(s[..n], x, rank, r);
      var after := Insert(s, x, rank);
      assert after[..|after| - 1] == Insert(s[..n], x, rank);
      BeforeTotal(rank(x), rank(s[n]));
    } else {
      assert (s + [x])[..|s|] == s;
      assert Insert(s, x, rank) == s + [x];
    }
  }

  lemma {:induction false} SortKeepsMembers<T>(s: seq<T>, rank: T -> Rank)
    ensures multiset(SortBy(s, rank)) == multiset(s)
  {
    if s != [] {
      var n := |s| - 1;
      SortKeepsMembers(s[..n], rank);
      InsertMembers(SortBy(s[..n], rank), s[n], rank);
      assert s == s[..n] + [s[n]];
    }
  }

  lemma {:induction false} SortSorts<T>(s: seq<T>, rank: T -> Rank)
    ensures Sorted(SortBy(s, rank), rank)
  {
    if s != [] {
      var n := |s| - 1;
      SortSorts(s[..n], rank);
      InsertKeepsSorted(SortBy(s[..n], rank), s[n], rank);
    }
  }

  /** Items of equal rank keep the order they had. */
  lemma {:induction false} SortIsStable<T>(s: seq<T>, rank: T -> Rank, r: Rank)
    ensures OfRank(SortBy(s, rank), rank, r) == OfRank(s, rank, r)
  {
    if s != [] {
      var n := |s| - 1;
      SortIsStable(s[..n], rank, r);
      SortSorts(s[..n], rank);
      InsertIsStable(SortBy(s[..n], rank), s[n], rank, r);
    }
  }
}
