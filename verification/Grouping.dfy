/**
 * What GROUP BY means, said without an algorithm, and the proof that the reduction does it.
 */
module Grouping {
  import opened Prelude
  import opened Facts

  predicate BelowInt(a: Option<int>, b: Option<int>) {
    a.None? || (b.Some? && a.value <= b.value)
  }

  predicate BelowReal(a: Option<real>, b: Option<real>) {
    a.None? || (b.Some? && a.value <= b.value)
  }

  predicate InGroup(fs: seq<Fact>, d: Dims, k: int) {
    0 <= k < |fs| && fs[k].dims == d
  }

  function GroupWeight(fs: seq<Fact>, d: Dims): nat {
    if fs == [] then 0
    else GroupWeight(fs[..|fs| - 1], d) + (if fs[|fs| - 1].dims == d then fs[|fs| - 1].weight else 0)
  }

  /** count(*), min and max over the members of one group. */
  ghost predicate Aggregates(g: Fact, fs: seq<Fact>) {
    && g.weight == GroupWeight(fs, g.dims)
    && (forall k :: InGroup(fs, g.dims, k) ==>
          && g.id <= fs[k].id && g.first <= fs[k].first && fs[k].last <= g.last
          && BelowInt(fs[k].drops, g.drops) && BelowReal(fs[k].rate, g.rate))
    && (exists k :: InGroup(fs, g.dims, k) && fs[k].id == g.id)
    && (exists k :: InGroup(fs, g.dims, k) && fs[k].first == g.first)
    && (exists k :: InGroup(fs, g.dims, k) && fs[k].last == g.last)
    && (exists k :: InGroup(fs, g.dims, k) && fs[k].drops == g.drops)
    && (exists k :: InGroup(fs, g.dims, k) && fs[k].rate == g.rate)
  }

  predicate AscendingIds(fs: seq<Fact>) {
    forall i, j :: 0 <= i < j < |fs| ==> fs[i].id < fs[j].id
  }

  lemma AggregatesFirst(fs: seq<Fact>, f: Fact)
    requires !KnownDims(fs, f.dims)
    ensures Aggregates(AsGroup(f), fs + [f])
  {
    var all := fs + [f];
    assert all[..|fs|] == fs;
    NoWeight(fs, f.dims);
    assert InGroup(all, f.dims, |fs|);
    forall k | 0 <= k < |fs| ensures fs[k].dims != f.dims {}
  }

  lemma {:induction false} NoWeight(fs: seq<Fact>, d: Dims)
    requires !KnownDims(fs, d)
    ensures GroupWeight(fs, d) == 0
  {
    if fs != [] {
      var n := |fs| - 1;
      forall i | 0 <= i < n ensures fs[..n][i].dims != d { assert fs[i].dims != d; }
      NoWeight(fs[..n], d);
      assert fs[n].dims != d;
    }
  }

  lemma AggregatesOther(g: Fact, fs: seq<Fact>, f: Fact)
    requires Aggregates(g, fs) && g.dims != f.dims
    ensures Aggregates(g, fs + [f])
  {
    var all := fs + [f];
    assert all[..|fs|] == fs;
    forall k | InGroup(fs, g.dims, k) ensures InGroup(all, g.dims, k) && all[k] == fs[k] {}
    forall k | InGroup(all, g.dims, k) ensures InGroup(fs, g.dims, k) && all[k] == fs[k] {}
  }

  lemma AggregatesMore(g: Fact, fs: seq<Fact>, f: Fact)
    requires Aggregates(g, fs) && g.dims == f.dims
    ensures Aggregates(Merge(g, f), fs + [f])
  {
    var all, m := fs + [f], Merge(g, f);
    assert all[..|fs|] == fs;
    forall k | InGroup(fs, g.dims, k) ensures InGroup(all, g.dims, k) && all[k] == fs[k] {}
    assert InGroup(all, g.dims, |fs|);
    forall k | InGroup(all, g.dims, k)
      ensures && m.id <= all[k].id && m.first <= all[k].first && all[k].last <= m.last
              && BelowInt(all[k].drops, m.drops) && BelowReal(all[k].rate, m.rate)
    {
      if k < |fs| { assert InGroup(fs, g.dims, k); }
    }
  }

  predicate DistinctDims(gs: seq<Fact>) {
    forall i, j :: 0 <= i < j < |gs| ==> gs[i].dims != gs[j].dims
  }

  predicate Covers(gs: seq<Fact>, fs: seq<Fact>) {
    forall k :: 0 <= k < |fs| ==> KnownDims(gs, fs[k].dims)
  }

  ghost predicate AllAggregate(gs: seq<Fact>, fs: seq<Fact>) {
    forall i :: 0 <= i < |gs| ==> Aggregates(gs[i], fs)
  }

  /** One row per combination of dimensions that occurs, aggregating exactly its events. */
  ghost predicate IsGrouping(gs: seq<Fact>, fs: seq<Fact>) {
    DistinctDims(gs) && Covers(gs, fs) && AllAggregate(gs, fs)
  }

  lemma SameDimsCover(gs: seq<Fact>, after: seq<Fact>, fs: seq<Fact>, f: Fact)
    requires Covers(gs, fs) && |gs| <= |after| && forall i :: 0 <= i < |gs| ==> after[i].dims == gs[i].dims
    requires KnownDims(after, f.dims)
    ensures Covers(after, fs + [f])
  {
    forall k | 0 <= k < |fs + [f]| ensures KnownDims(after, (fs + [f])[k].dims) {
      if k < |fs| {
        assert KnownDims(gs, fs[k].dims);
        var j :| 0 <= j < |gs| && gs[j].dims == fs[k].dims;
        assert after[j].dims == fs[k].dims;
      }
    }
  }

  lemma OldAggregates(gs: seq<Fact>, fs: seq<Fact>, f: Fact, i: nat)
    requires DistinctDims(gs) && AllAggregate(gs, fs) && i < |gs| && gs[i].dims == f.dims
    ensures AllAggregate(gs[i := Merge(gs[i], f)], fs + [f])
  {
    var after := gs[i := Merge(gs[i], f)];
    forall j | 0 <= j < |after| ensures Aggregates(after[j], fs + [f]) {
      if j == i {
        AggregatesMore(gs[i], fs, f);
      } else {
        assert gs[j].dims != gs[i].dims;
        AggregatesOther(gs[j], fs, f);
      }
    }
  }

  lemma NewAggregates(gs: seq<Fact>, fs: seq<Fact>, f: Fact)
    requires IsGrouping(gs, fs) && !KnownDims(gs, f.dims)
    ensures AllAggregate(gs + [AsGroup(f)], fs + [f])
  {
    var after := gs + [AsGroup(f)];
    assert !KnownDims(fs, f.dims);
    forall i | 0 <= i < |after| ensures Aggregates(after[i], fs + [f]) {
      if i < |gs| {
        assert gs[i].dims != f.dims;
        AggregatesOther(gs[i], fs, f);
      } else {
        AggregatesFirst(fs, f);
      }
    }
  }

  lemma AbsorbInPlace(gs: seq<Fact>, f: Fact, i: nat)
    requires DistinctDims(gs) && i < |gs| && gs[i].dims == f.dims
    ensures Absorb(gs, f) == gs[i := Merge(gs[i], f)]
    ensures DistinctDims(Absorb(gs, f)) && KnownDims(Absorb(gs, f), f.dims)
  {
    var k := Find(gs, f.dims);
    assert KnownDims(gs, f.dims);
    assert k == i;
    assert Absorb(gs, f)[i].dims == f.dims;
  }

  lemma AbsorbOld(gs: seq<Fact>, fs: seq<Fact>, f: Fact, i: nat)
    requires IsGrouping(gs, fs) && i < |gs| && gs[i].dims == f.dims
    ensures IsGrouping(Absorb(gs, f), fs + [f])
  {
    AbsorbInPlace(gs, f, i);
    SameDimsCover(gs, Absorb(gs, f), fs, f);
    OldAggregates(gs, fs, f, i);
  }

  lemma AbsorbAtEnd(gs: seq<Fact>, f: Fact)
    requires DistinctDims(gs) && !KnownDims(gs, f.dims)
    ensures Absorb(gs, f) == gs + [AsGroup(f)]
    ensures DistinctDims(Absorb(gs, f)) && KnownDims(Absorb(gs, f), f.dims)
  {
    assert Absorb(gs, f)[|gs|].dims == f.dims;
  }

  lemma AbsorbNew(gs: seq<Fact>, fs: seq<Fact>, f: Fact)
    requires IsGrouping(gs, fs) && !KnownDims(gs, f.dims)
    ensures IsGrouping(Absorb(gs, f), fs + [f])
  {
    AbsorbAtEnd(gs, f);
    SameDimsCover(gs, Absorb(gs, f), fs, f);
    NewAggregates(gs, fs, f);
  }

  lemma AbsorbKeepsGrouping(gs: seq<Fact>, fs: seq<Fact>, f: Fact)
    requires IsGrouping(gs, fs)
    ensures IsGrouping(Absorb(gs, f), fs + [f])
  {
    if KnownDims(gs, f.dims) {
      var i :| 0 <= i < |gs| && gs[i].dims == f.dims;
      AbsorbOld(gs, fs, f, i);
    } else {
      AbsorbNew(gs, fs, f);
    }
  }

  predicate OlderThan(gs: seq<Fact>, id: nat) {
    forall i :: 0 <= i < |gs| ==> gs[i].id < id
  }

  lemma GroupsAreOlder(gs: seq<Fact>, fs: seq<Fact>, f: Fact)
    requires AllAggregate(gs, fs) && OlderThan(fs, f.id)
    ensures OlderThan(gs, f.id)
  {
    forall i | 0 <= i < |gs| ensures gs[i].id < f.id {
      assert Aggregates(gs[i], fs);
      var k :| InGroup(fs, gs[i].dims, k) && fs[k].id == gs[i].id;
    }
  }

  lemma AbsorbKeepsOrder(gs: seq<Fact>, f: Fact)
    requires DistinctDims(gs) && AscendingIds(gs) && OlderThan(gs, f.id)
    ensures AscendingIds(Absorb(gs, f))
  {
    if KnownDims(gs, f.dims) {
      var i :| 0 <= i < |gs| && gs[i].dims == f.dims;
      AbsorbInPlace(gs, f, i);
    } else {
      AbsorbAtEnd(gs, f);
    }
  }

  /** The reduction is SQL's GROUP BY, its rows in the order of their smallest ids. */
  lemma {:induction false} GroupByIsGrouping(fs: seq<Fact>)
    requires AscendingIds(fs)
    ensures IsGrouping(GroupBy(fs), fs)
    ensures AscendingIds(GroupBy(fs))
  {
    if fs != [] {
      var n := |fs| - 1;
      GroupByIsGrouping(fs[..n]);
      assert fs[..n] + [fs[n]] == fs;
      GroupsAreOlder(GroupBy(fs[..n]), fs[..n], fs[n]);
      AbsorbKeepsOrder(GroupBy(fs[..n]), fs[n]);
      AbsorbKeepsGrouping(GroupBy(fs[..n]), fs[..n], fs[n]);
    }
  }
}
