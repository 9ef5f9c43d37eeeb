/**
 * Keyset pagination over (time, id), newest first.
 */
module Pagination {
  import opened Prelude

  /** A row's place in the listing; ids are unique, so it identifies the row. */
  datatype Spot = Spot(ms: int, id: int)

  /** a is listed before b. */
  predicate Above(a: Spot, b: Spot) {
    a.ms > b.ms || (a.ms == b.ms && a.id > b.id)
  }

  predicate Descends(s: seq<Spot>) {
    forall i, j :: 0 <= i < j < |s| ==> Above(s[i], s[j])
  }

  lemma {:induction false} HasGreatest(rows: set<Spot>)
    requires rows != {}
    ensures exists r :: r in rows && IsGreatest(rows, r)
  {
    var x :| x in rows;
    if rows == {x} {
      assert IsGreatest(rows, x);
    } else {
      HasGreatest(rows - {x});
      var r :| r in rows - {x} && IsGreatest(rows - {x}, r);
      var best := if Above(x, r) then x else r;
      forall s | s in rows ensures s == best || Above(best, s) {
        assert s == x || s in rows - {x};
      }
      assert IsGreatest(rows, best);
    }
  }

  predicate IsGreatest(rows: set<Spot>, r: Spot) {
    forall s :: s in rows ==> s == r || Above(r, s)
  }

  ghost function Greatest(rows: set<Spot>): (r: Spot)
    requires rows != {}
    ensures r in rows && IsGreatest(rows, r)
  {
    HasGreatest(rows);
    var r :| r in rows && IsGreatest(rows, r);
    r
  }

  /** ORDER BY occurrence_timestamp_ms DESC, id DESC. */
  ghost function Ordered(rows: set<Spot>): seq<Spot>
    decreases |rows|
  {
    if rows == {} then [] else [Greatest(rows)] + Ordered(rows - {Greatest(rows)})
  }

  lemma {:induction false} OrderedHas(rows: set<Spot>, s: Spot)
    ensures s in Ordered(rows) <==> s in rows
    decreases |rows|
  {
    if rows != {} {
      OrderedHas(rows - {Greatest(rows)}, s);
    }
  }

  lemma {:induction false} OrderedDescends(rows: set<Spot>)
    ensures Descends(Ordered(rows)) && |Ordered(rows)| == |rows|
    decreases |rows|
  {
    if rows != {} {
      var g := Greatest(rows);
      var rest := Ordered(rows - {g});
      OrderedDescends(rows - {g});
      forall i | 0 <= i < |rest| ensures Above(g, rest[i]) {
        OrderedHas(rows - {g}, rest[i]);
      }
    }
  }

  /** All rows, each once, newest first. */
  lemma OrderedListsAll(rows: set<Spot>)
    ensures forall s :: s in Ordered(rows) <==> s in rows
    ensures Descends(Ordered(rows)) && |Ordered(rows)| == |rows|
  {
    OrderedDescends(rows);
    forall s ensures s in Ordered(rows) <==> s in rows {
      OrderedHas(rows, s);
    }
  }

  /** Rows after the cursor. */
  ghost function After(rows: set<Spot>, cursor: Option<Spot>): set<Spot> {
    set s | s in rows && (cursor.Some? ==> Above(cursor.value, s))
  }

  datatype Page = Page(items: seq<Spot>, more: bool) {
    /** The next cursor names the last item, when there is more. */
    function Next(): Option<Spot> {
      if more && items != [] then Some(items[|items| - 1]) else None
    }
  }

  /** list_scoped_events: fetch one row more than the limit to learn whether there is more. */
  ghost function Fetch(rows: set<Spot>, cursor: Option<Spot>, limit: nat): Page {
    var got := Take(Ordered(After(rows, cursor)), limit + 1);
    Page(Take(got, limit), |got| > limit)
  }

  lemma AfterGreatest(rows: set<Spot>, g: Spot)
    requires g in rows && IsGreatest(rows, g)
    ensures After(rows, Some(g)) == rows - {g}
  {
  }

  lemma AfterSkips(rows: set<Spot>, g: Spot, last: Spot)
    requires IsGreatest(rows, g) && last in rows - {g}
    ensures After(rows, Some(last)) == After(rows - {g}, Some(last))
  {
    assert Above(g, last);
  }

  lemma {:induction false} TailIsAfter(rows: set<Spot>, n: nat)
    requires 0 < n <= |Ordered(rows)|
    ensures Ordered(rows)[n..] == Ordered(After(rows, Some(Ordered(rows)[n - 1])))
    decreases |rows|
  {
    var g := Greatest(rows);
    var rest := Ordered(rows - {g});
    assert Ordered(rows) == [g] + rest;
    if n == 1 {
      AfterGreatest(rows, g);
    } else {
      TailIsAfter(rows - {g}, n - 1);
      var last := rest[n - 2];
      OrderedHas(rows - {g}, last);
      AfterSkips(rows, g, last);
      assert Ordered(rows)[n..] == rest[n - 1..];
    }
  }

  lemma AfterAfter(rows: set<Spot>, cursor: Option<Spot>, last: Spot)
    requires cursor.Some? ==> Above(cursor.value, last)
    ensures After(After(rows, cursor), Some(last)) == After(rows, Some(last))
  {
  }

  /** The first n rows of an ordering, and the rows after the n-th. */
  lemma Cut(rows: set<Spot>, cursor: Option<Spot>, n: nat)
    requires 0 < n < |Ordered(After(rows, cursor))|
    ensures var all := Ordered(After(rows, cursor));
            all[n..] == Ordered(After(rows, Some(all[n - 1]))) && |After(rows, Some(all[n - 1]))| < |After(rows, cursor)|
  {
    var all := Ordered(After(rows, cursor));
    OrderedListsAll(After(rows, cursor));
    TailIsAfter(After(rows, cursor), n);
    assert all[n - 1] in all;
    AfterAfter(rows, cursor, all[n - 1]);
    OrderedListsAll(After(rows, Some(all[n - 1])));
  }

  /** What one page holds, and what the next cursor leaves. */
  lemma FetchSplits(rows: set<Spot>, cursor: Option<Spot>, limit: nat)
    requires limit >= 1
    ensures var page := Fetch(rows, cursor, limit);
            var all := Ordered(After(rows, cursor));
            && page.more == page.Next().Some? && |page.items| == Min(limit, |all|)
            && (!page.more ==> page.items == all)
            && (page.more ==> && all == page.items + Ordered(After(rows, page.Next()))
                              && |After(rows, page.Next())| < |After(rows, cursor)|)
  {
    var all := Ordered(After(rows, cursor));
    var page := Fetch(rows, cursor, limit);
    if |all| > limit {
      assert page.items == all[..limit];
      assert page.Next() == Some(all[limit - 1]);
      Cut(rows, cursor, limit);
    } else {
      assert page.items == all;
    }
  }

  // ----- a fixed table -----

  /** The items seen by following next_cursor to the end. */
  ghost function Follow(rows: set<Spot>, cursor: Option<Spot>, limit: nat): seq<Spot>
    requires limit >= 1
    decreases |After(rows, cursor)|
  {
    FetchSplits(rows, cursor, limit);
    var page := Fetch(rows, cursor, limit);
    if page.Next().None? then page.items else page.items + Follow(rows, page.Next(), limit)
  }

  lemma {:induction false} FollowIsOrdered(rows: set<Spot>, cursor: Option<Spot>, limit: nat)
    requires limit >= 1
    ensures Follow(rows, cursor, limit) == Ordered(After(rows, cursor))
    decreases |After(rows, cursor)|
  {
    FetchSplits(rows, cursor, limit);
    var page := Fetch(rows, cursor, limit);
    if page.more { FollowIsOrdered(rows, page.Next(), limit); }
  }

  /** From the first page, following cursors returns exactly the rows, each once, newest first. */
  lemma FollowReturnsAll(rows: set<Spot>, limit: nat)
    requires limit >= 1
    ensures var seen := Follow(rows, None, limit);
            Descends(seen) && |seen| == |rows| && forall s :: s in seen <==> s in rows
  {
    FollowIsOrdered(rows, None, limit);
    assert After(rows, None) == rows;
    OrderedListsAll(rows);
  }

  // ----- insertions between pages -----

  /** One request per table state, in order, until there is no next cursor or no further request. */
  datatype Walk = Walk(seen: seq<Spot>, next: Option<Spot>, finished: bool)

  ghost function WalkPages(tables: seq<set<Spot>>, cursor: Option<Spot>, limit: nat): Walk {
    if tables == [] then Walk([], cursor, false)
    else
      var page := Fetch(tables[0], cursor, limit);
      if page.Next().None? then Walk(page.items, None, true)
      else
        var rest := WalkPages(tables[1..], page.Next(), limit);
        rest.(seen := page.items + rest.seen)
  }

  predicate Grows(tables: seq<set<Spot>>) {
    forall i, j :: 0 <= i < j < |tables| ==> tables[i] <= tables[j]
  }

  /** A row is accounted for when it was seen, or still lies after the cursor to come. */
  predicate Accounted(walk: Walk, s: Spot) {
    s in walk.seen || (!walk.finished && (walk.next.Some? ==> Above(walk.next.value, s)))
  }

  predicate Below(cursor: Option<Spot>, seen: seq<Spot>) {
    cursor.Some? ==> forall i :: 0 <= i < |seen| ==> Above(cursor.value, seen[i])
  }

  lemma PageIsBelow(rows: set<Spot>, cursor: Option<Spot>, limit: nat)
    requires limit >= 1
    ensures var page := Fetch(rows, cursor, limit);
            && Descends(page.items) && Below(cursor, page.items)
            && (page.Next().Some? ==> forall i :: 0 <= i < |page.items| - 1 ==> Above(page.items[i], page.Next().value))
  {
    OrderedListsAll(After(rows, cursor));
    var all := Ordered(After(rows, cursor));
    forall i | 0 <= i < |all| ensures cursor.Some? ==> Above(cursor.value, all[i]) { assert all[i] in all; }
    FetchSplits(rows, cursor, limit);
  }

  lemma JoinDescends(a: seq<Spot>, b: seq<Spot>)
    requires a != [] && Descends(a) && Descends(b) && Below(Some(a[|a| - 1]), b)
    ensures Descends(a + b)
  {
    var s := a + b;
    forall i, j | 0 <= i < j < |s| ensures Above(s[i], s[j]) {
      if i < |a| <= j { assert i == |a| - 1 || Above(a[i], a[|a| - 1]); assert Above(a[|a| - 1], b[j - |a|]); }
    }
  }

  /** Nothing repeats, whatever is inserted between the requests. */
  lemma {:induction false} WalkNeverRepeats(tables: seq<set<Spot>>, cursor: Option<Spot>, limit: nat)
    requires limit >= 1
    ensures var walk := WalkPages(tables, cursor, limit); Descends(walk.seen) && Below(cursor, walk.seen)
  {
    if tables != [] {
      var page := Fetch(tables[0], cursor, limit);
      PageIsBelow(tables[0], cursor, limit);
      if page.Next().Some? {
        var rest := WalkPages(tables[1..], page.Next(), limit).seen;
        WalkNeverRepeats(tables[1..], page.Next(), limit);
        JoinDescends(page.items, rest);
        var last := |page.items| - 1;
        assert cursor.Some? ==> Above(cursor.value, page.items[last]);
        forall i | 0 <= i < |page.items + rest| && cursor.Some? ensures Above(cursor.value, (page.items + rest)[i]) {}
      }
    }
  }

  lemma SeenOrAfter(rows: set<Spot>, cursor: Option<Spot>, limit: nat, s: Spot)
    requires limit >= 1 && s in After(rows, cursor)
    ensures var page := Fetch(rows, cursor, limit);
            s in page.items || (page.Next().Some? && Above(page.Next().value, s))
  {
    FetchSplits(rows, cursor, limit);
    OrderedListsAll(After(rows, cursor));
    var page := Fetch(rows, cursor, limit);
    assert s in Ordered(After(rows, cursor));
    if page.more {
      OrderedListsAll(After(rows, page.Next()));
      assert s in page.items || s in Ordered(After(rows, page.Next()));
    }
  }

  /** No row that was there at the start is skipped. */
  lemma {:induction false} WalkSkipsNothing(tables: seq<set<Spot>>, cursor: Option<Spot>, limit: nat, s: Spot)
    requires limit >= 1 && Grows(tables) && tables != [] && s in After(tables[0], cursor)
    ensures Accounted(WalkPages(tables, cursor, limit), s)
  {
    var page := Fetch(tables[0], cursor, limit);
    SeenOrAfter(tables[0], cursor, limit, s);
    if page.Next().Some? && s !in page.items {
      if |tables| > 1 {
        assert s in tables[1];
        WalkSkipsNothing(tables[1..], page.Next(), limit, s);
      } else {
        assert tables[1..] == [];
      }
    }
  }
}
