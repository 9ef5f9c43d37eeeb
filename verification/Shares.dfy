/**
 * Breakdowns share out the events they break down, and ranked lists are ranked.
 */
module Shares {
  import opened Prelude
  import opened Facts
  import opened Metrics
  import opened Sorting
  import opened ReleaseHealth
  import opened Issues
  import DQ = DataQuality
  import opened QueryLoops

  predicate NoDuplicates(keys: seq<Key>) {
    forall i, j :: 0 <= i < j < |keys| ==> keys[i] != keys[j]
  }

  lemma {:induction false} KeysDiffer(w: Window, fs: seq<Fact>, dim: Dimension)
    ensures NoDuplicates(Keys(w, fs, dim))
  {
    if fs != [] {
      KeysDiffer(w, fs[..|fs| - 1], dim);
    }
  }

  /** The events of the listed keys. */
  function SumKeys(w: Window, fs: seq<Fact>, dim: Dimension, keys: seq<Key>): nat {
    if keys == [] then 0
    else SumKeys(w, fs, dim, keys[..|keys| - 1]) + Samples(w, Select(w, fs, KeyIs(dim, keys[|keys| - 1])))
  }

  lemma {:induction false} SumKeysSnoc(w: Window, fs: seq<Fact>, f: Fact, dim: Dimension, k: Key, keys: seq<Key>)
    requires k == KeyOf(dim, f) && NoDuplicates(keys)
    ensures SumKeys(w, fs + [f], dim, keys) == SumKeys(w, fs, dim, keys) + (if k in keys then f.weight else 0)
  {
    if keys != [] {
      var n := |keys| - 1;
      var last := keys[n];
      SumKeysSnoc(w, fs, f, dim, k, keys[..n]);
      KeySelectSnoc(w, fs, f, dim, k, last);
      SamplesSnoc(w, Select(w, fs, KeyIs(dim, last)), f);
      assert keys == keys[..n] + [last];
      assert k == last ==> k !in keys[..n];
    }
  }

  /** Every event is counted under exactly one key. */
  lemma {:induction false} KeysShareEvents(w: Window, fs: seq<Fact>, dim: Dimension)
    ensures SumKeys(w, fs, dim, Keys(w, fs, dim)) == Samples(w, fs)
  {
    if fs != [] {
      var n := |fs| - 1;
      var front, f, k := fs[..n], fs[n], KeyOf(dim, fs[n]);
      var keys := Keys(w, front, dim);
      assert front + [f] == fs;
      KeysShareEvents(w, front, dim);
      KeysDiffer(w, front, dim);
      KeysSnoc(w, front, f, dim, k);
      SamplesSnoc(w, front, f);
      SumKeysSnoc(w, front, f, dim, k, keys);
      if k !in keys {
        KeySelectSnoc(w, front, f, dim, k, k);
        UnknownKeySelectsNothing(w, front, dim, k);
        SamplesSnoc(w, [], f);
        assert (keys + [k])[..|keys|] == keys;
      }
    }
  }

  function CounterTotal(entries: seq<DQ.CountEntry>): nat {
    if entries == [] then 0 else CounterTotal(entries[..|entries| - 1]) + entries[|entries| - 1].events
  }

  lemma {:induction false} CounterTotals(w: Window, fs: seq<Fact>, dim: Dimension, keys: seq<Key>)
    ensures CounterTotal(DQ.Counter(w, fs, dim, keys)) == SumKeys(w, fs, dim, keys)
  {
    if keys != [] {
      CounterTotals(w, fs, dim, keys[..|keys| - 1]);
      var c := DQ.Counter(w, fs, dim, keys);
      assert c[..|c| - 1] == DQ.Counter(w, fs, dim, keys[..|keys| - 1]);
    }
  }

  /** The protocol, schema and status counters each add up to the sample count. */
  lemma CountersAddUp(w: Window, fs: seq<Fact>, dim: Dimension)
    ensures CounterTotal(DQ.Counter(w, fs, dim, Keys(w, fs, dim))) == Samples(w, fs)
  {
    CounterTotals(w, fs, dim, Keys(w, fs, dim));
    KeysShareEvents(w, fs, dim);
  }

  function ItemTotal(items: seq<FingerprintItem>): nat {
    if items == [] then 0 else ItemTotal(items[..|items| - 1]) + items[|items| - 1].events
  }

  lemma {:induction false} ItemTotals(w: Window, fs: seq<Fact>, keys: seq<Key>, reason: Option<Reason>)
    ensures ItemTotal(FingerprintItems(w, fs, keys, reason)) == SumKeys(w, fs, ByIssue, keys)
  {
    if keys != [] {
      ItemTotals(w, fs, keys[..|keys| - 1], reason);
      var c := FingerprintItems(w, fs, keys, reason);
      assert c[..|c| - 1] == FingerprintItems(w, fs, keys[..|keys| - 1], reason);
    }
  }

  /** All issue items of a release, before the limit. */
  function AllItems(w: Window, fs: seq<Fact>, release: string): seq<FingerprintItem> {
    var printed := Select(w, Incidents(w, fs, release), Fingerprinted);
    FingerprintItems(w, printed, Keys(w, printed, ByIssue), Continuity(w, Eligible(w, fs, release)))
  }

  /** The first items of a sorted list, and what they leave. */
  ghost predicate IsTop<T(!new)>(page: seq<T>, rest: seq<T>, all: seq<T>, limit: nat, rank: T -> Rank) {
    && |page| == Min(limit, |all|)
    && multiset(page) + multiset(rest) == multiset(all)
    && Sorted(page, rank)
    && (forall p, r :: p in page && r in rest ==> Before(rank(p), rank(r)))
  }

  lemma CutIsOrdered<T(!new)>(sorted: seq<T>, n: nat, rank: T -> Rank, p: T, r: T)
    requires n <= |sorted| && Sorted(sorted, rank) && p in sorted[..n] && r in sorted[n..]
    ensures Before(rank(p), rank(r))
  {
    var i :| 0 <= i < n && sorted[i] == p;
    var j :| n <= j < |sorted| && sorted[j] == r;
  }

  lemma CutIsTop<T(!new)>(sorted: seq<T>, all: seq<T>, n: nat, limit: nat, rank: T -> Rank)
    requires Sorted(sorted, rank) && multiset(sorted) == multiset(all) && n == Min(limit, |all|) && |sorted| == |all|
    ensures IsTop(sorted[..n], sorted[n..], all, limit, rank)
  {
    assert sorted == sorted[..n] + sorted[n..];
    forall p, r | p in sorted[..n] && r in sorted[n..] ensures Before(rank(p), rank(r)) {
      CutIsOrdered(sorted, n, rank, p, r);
    }
  }

  lemma TakeIsTop<T(!new)>(all: seq<T>, limit: nat, rank: T -> Rank)
    ensures exists rest :: IsTop(Take(SortBy(all, rank), limit), rest, all, limit, rank)
  {
    var sorted := SortBy(all, rank);
    var n := Min(limit, |all|);
    SortSorts(all, rank);
    SortKeepsMembers(all, rank);
    SameSize(sorted, all);
    CutIsTop(sorted, all, n, limit, rank);
    assert Take(sorted, limit) == sorted[..n];
  }

  lemma PageIsTaken(w: Window, fs: seq<Fact>, release: string, limit: nat)
    ensures TopFingerprints(w, fs, release, limit).items == Take(SortBy(AllItems(w, fs, release), FingerprintRank), limit)
  {
  }

  lemma ItemsShareIncidents(w: Window, fs: seq<Fact>, release: string)
    ensures ItemTotal(AllItems(w, fs, release)) == Samples(w, Select(w, Incidents(w, fs, release), Fingerprinted))
  {
    var printed := Select(w, Incidents(w, fs, release), Fingerprinted);
    ItemTotals(w, printed, Keys(w, printed, ByIssue), Continuity(w, Eligible(w, fs, release)));
    KeysShareEvents(w, printed, ByIssue);
  }

  /**
   * The page holds the best-ranked items in rank order, every item off the page ranks no better, and
   * all items together account for every fingerprinted incident exactly once.
   */
  lemma PageIsTop(w: Window, fs: seq<Fact>, release: string, limit: nat)
    ensures var all := AllItems(w, fs, release);
            && (exists rest :: IsTop(TopFingerprints(w, fs, release, limit).items, rest, all, limit, FingerprintRank))
            && ItemTotal(all) == Samples(w, Select(w, Incidents(w, fs, release), Fingerprinted))
  {
    TakeIsTop(AllItems(w, fs, release), limit, FingerprintRank);
    PageIsTaken(w, fs, release, limit);
    ItemsShareIncidents(w, fs, release);
  }

  lemma SameSize<T>(a: seq<T>, b: seq<T>)
    requires multiset(a) == multiset(b)
    ensures |a| == |b|
  {
    assert |multiset(a)| == |a| && |multiset(b)| == |b|;
  }
}
