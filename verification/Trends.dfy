/**
 * Trend counts add up to the totals.
 */
module Trends {
  import opened Prelude
  import opened Facts
  import opened Metrics
  import opened Buckets
  import opened ReleaseHealth
  import opened Issues

  function CountIn(w: Window, fs: seq<Fact>, sel: Sel, i: int): nat {
    TallyOf(w, fs, And(InBucket(i), sel)).count
  }

  /** The events of buckets 0 .. n - 1. */
  function SumBuckets(w: Window, fs: seq<Fact>, sel: Sel, n: nat): nat {
    if n == 0 then 0 else SumBuckets(w, fs, sel, n - 1) + CountIn(w, fs, sel, n - 1)
  }

  lemma {:induction false} SumSplits(w: Window, fs: seq<Fact>, sel: Sel, n: nat)
    requires fs != []
    ensures SumBuckets(w, fs, sel, n)
            == SumBuckets(w, fs[..|fs| - 1], sel, n)
               + var f := fs[|fs| - 1]; if Holds(w, sel, f) && 0 <= BucketOf(w, f.first) < n then f.weight else 0
  {
    if n > 0 {
      SumSplits(w, fs, sel, n - 1);
    }
  }

  lemma {:induction false} SumEmpty(w: Window, sel: Sel, n: nat)
    ensures SumBuckets(w, [], sel, n) == 0
  {
    if n > 0 { SumEmpty(w, sel, n - 1); }
  }

  /** Over a window the buckets share out the events of any selection. */
  lemma {:induction false} BucketsShareEvents(w: Window, fs: seq<Fact>, sel: Sel)
    requires AllFair(w, fs) && w.fromMs < w.toMs
    ensures BucketCount(w) >= 1
    ensures SumBuckets(w, fs, sel, BucketCount(w)) == TallyOf(w, fs, sel).count
  {
    BucketsTile(w);
    if fs == [] {
      SumEmpty(w, sel, BucketCount(w));
    } else {
      var f := fs[|fs| - 1];
      assert Fair(w, f);
      BucketsShareEvents(w, fs[..|fs| - 1], sel);
      SumSplits(w, fs, sel, BucketCount(w));
      ExactlyOneBucket(w, f.first);
    }
  }

  lemma {:induction false} TallyCongruent(w: Window, fs: seq<Fact>, s: Sel, t: Sel)
    requires forall f :: f in fs ==> Holds(w, s, f) == Holds(w, t, f)
    ensures TallyOf(w, fs, s) == TallyOf(w, fs, t)
  {
    if fs != [] {
      var n := |fs| - 1;
      assert forall f :: f in fs[..n] ==> f in fs;
      TallyCongruent(w, fs[..n], s, t);
      assert fs[n] in fs;
    }
  }

  function Concrete(n: Option<nat>): nat {
    if n.Some? then n.value else 0
  }

  // ----- issue trend -----

  /** The non-null counts of the first n points. */
  function IssueSum(points: seq<IssuePoint>, n: nat): nat
    requires n <= |points|
  {
    if n == 0 then 0 else IssueSum(points, n - 1) + Concrete(points[n - 1].events)
  }

  lemma IssuePointCount(w: Window, group: seq<Fact>, reason: Option<Reason>, i: int)
    ensures Concrete(IssuePointOf(w, group, reason, i).events) == Samples(w, group)
  {
  }

  lemma {:induction false} IssueSumIs(w: Window, fs: seq<Fact>, points: seq<IssuePoint>, reason: Option<Reason>, n: nat)
    requires n <= |points|
    requires forall i :: 0 <= i < |points| ==> points[i] == IssuePointOf(w, Select(w, fs, InBucket(i)), reason, i)
    ensures IssueSum(points, n) == SumBuckets(w, fs, Every, n)
  {
    if n > 0 {
      IssueSumIs(w, fs, points, reason, n - 1);
      SelectTally(w, fs, InBucket(n - 1), Every);
      IssuePointCount(w, Select(w, fs, InBucket(n - 1)), reason, n - 1);
    }
  }

  /** The non-null counts of an issue's trend sum to the issue's event count. */
  lemma IssueTrendSums(w: Window, fs: seq<Fact>, fingerprint: string)
    requires AllFair(w, fs) && w.fromMs < w.toMs
    ensures var d := DetailOf(w, fs, fingerprint);
            1 <= |d.trend| <= MAX_BUCKETS && IssueSum(d.trend, |d.trend|) == d.events
  {
    var eligible := Select(w, IssueFacts(w, fs, fingerprint), Bound);
    SelectFair(w, fs, FingerprintIs(fingerprint));
    SelectFair(w, Select(w, fs, FingerprintIs(fingerprint)), Incident);
    SelectFair(w, IssueFacts(w, fs, fingerprint), Bound);
    BucketsTile(w);
    BucketsShareEvents(w, eligible, Every);
    IssueSumIs(w, eligible, IssueTrend(w, eligible), Continuity(w, eligible), BucketCount(w));
  }

  // ----- release trend -----

  datatype Series = NewJava | NewAnr | BaselineJava | BaselineAnr

  function CountAt(p: TrendPoint, s: Series): Option<nat> {
    match s
    case NewJava => p.newJava
    case NewAnr => p.newAnr
    case BaselineJava => p.baselineJava
    case BaselineAnr => p.baselineAnr
  }

  function SeriesSum(points: seq<TrendPoint>, s: Series, n: nat): nat
    requires n <= |points|
  {
    if n == 0 then 0 else SeriesSum(points, s, n - 1) + Concrete(CountAt(points[n - 1], s))
  }

  function ReleaseOf(s: Series, newRelease: string, baseline: string): string {
    if s == NewJava || s == NewAnr then newRelease else baseline
  }

  function EventOf(s: Series): Atom {
    if s == NewJava || s == BaselineJava then OfFamily(JavaCrash) else OfFamily(Anr)
  }

  /** The selection a series counts within a bucket's facts. */
  function Counted(release: string, event: Atom): Sel {
    And(Release(release), And(Bound, And(event, Every)))
  }

  lemma ThreeSelects(w: Window, fs: seq<Fact>, release: string, event: Atom)
    ensures Samples(w, Select(w, Select(w, Select(w, fs, Release(release)), Bound), event)) == TallyOf(w, fs, Counted(release, event)).count
  {
    SelectTally(w, Select(w, Select(w, fs, Release(release)), Bound), event, Every);
    SelectTally(w, Select(w, fs, Release(release)), Bound, And(event, Every));
    SelectTally(w, fs, Release(release), And(Bound, And(event, Every)));
  }

  /** A null bucket count stands for no eligible event. */
  lemma BucketCounts(w: Window, bucket: seq<Fact>, release: string)
    ensures Concrete(BucketIncidents(w, bucket, release).java) == TallyOf(w, bucket, Counted(release, OfFamily(JavaCrash))).count
    ensures Concrete(BucketIncidents(w, bucket, release).anr) == TallyOf(w, bucket, Counted(release, OfFamily(Anr))).count
  {
    ThreeSelects(w, bucket, release, OfFamily(JavaCrash));
    ThreeSelects(w, bucket, release, OfFamily(Anr));
  }

  lemma PointCounts(w: Window, fs: seq<Fact>, newRelease: string, baseline: string, s: Series, i: int)
    ensures Concrete(CountAt(PointOf(w, BucketFacts(w, fs, newRelease, baseline, i), newRelease, baseline, i), s))
            == CountIn(w, Select(w, fs, EitherRelease(newRelease, baseline)), Counted(ReleaseOf(s, newRelease, baseline), EventOf(s)), i)
  {
    var bucket := BucketFacts(w, fs, newRelease, baseline, i);
    BucketCounts(w, bucket, newRelease);
    BucketCounts(w, bucket, baseline);
    SelectTally(w, Select(w, fs, EitherRelease(newRelease, baseline)), InBucket(i),
                Counted(ReleaseOf(s, newRelease, baseline), EventOf(s)));
  }

  predicate PointIs(w: Window, fs: seq<Fact>, sel: Sel, points: seq<TrendPoint>, s: Series, i: nat) {
    i < |points| && Concrete(CountAt(points[i], s)) == CountIn(w, fs, sel, i)
  }

  lemma {:induction false} SumOfPoints(w: Window, fs: seq<Fact>, sel: Sel, points: seq<TrendPoint>, s: Series, n: nat)
    requires n <= |points| && forall i :: 0 <= i < n ==> PointIs(w, fs, sel, points, s, i)
    ensures SeriesSum(points, s, n) == SumBuckets(w, fs, sel, n)
  {
    if n > 0 {
      SumOfPoints(w, fs, sel, points, s, n - 1);
      assert PointIs(w, fs, sel, points, s, n - 1);
    }
  }

  lemma SeriesSumIs(w: Window, fs: seq<Fact>, newRelease: string, baseline: string, s: Series, n: nat)
    requires n <= |IncidentTrend(w, fs, newRelease, baseline)|
    ensures SeriesSum(IncidentTrend(w, fs, newRelease, baseline), s, n)
            == SumBuckets(w, Select(w, fs, EitherRelease(newRelease, baseline)), Counted(ReleaseOf(s, newRelease, baseline), EventOf(s)), n)
  {
    var points, chosen := IncidentTrend(w, fs, newRelease, baseline), Select(w, fs, EitherRelease(newRelease, baseline));
    var sel := Counted(ReleaseOf(s, newRelease, baseline), EventOf(s));
    forall i: nat | i < n ensures PointIs(w, chosen, sel, points, s, i) {
      PointCounts(w, fs, newRelease, baseline, s, i);
    }
    SumOfPoints(w, chosen, sel, points, s, n);
  }

  function TotalOf(c: SliceCounts, s: Series): nat {
    if s == NewJava || s == BaselineJava then c.java else c.anr
  }

  /** The selection the slice's total counts. */
  function Totalled(release: string, event: Atom): Sel {
    And(Release(release), And(Bound, And(Incident, And(event, Every))))
  }

  lemma FourSelects(w: Window, fs: seq<Fact>, release: string, event: Atom)
    ensures Samples(w, Select(w, Incidents(w, fs, release), event)) == TallyOf(w, fs, Totalled(release, event)).count
  {
    SelectTally(w, Incidents(w, fs, release), event, Every);
    SelectTally(w, Eligible(w, fs, release), Incident, And(event, Every));
    SelectTally(w, Declared(w, fs, release), Bound, And(Incident, And(event, Every)));
    SelectTally(w, fs, Release(release), And(Bound, And(Incident, And(event, Every))));
  }

  lemma SameEvents(w: Window, newRelease: string, baseline: string, s: Series, f: Fact)
    ensures var release := ReleaseOf(s, newRelease, baseline);
            Holds(w, Totalled(release, EventOf(s)), f)
            == Holds(w, And(EitherRelease(newRelease, baseline), Counted(release, EventOf(s))), f)
  {
    var event := And(EventOf(s), Every);
    assert Holds(w, event, f) ==> HoldsAtom(w, Incident, f);
    assert Holds(w, And(Incident, event), f) == Holds(w, event, f);
    assert Holds(w, And(Bound, And(Incident, event)), f) == Holds(w, And(Bound, event), f);
  }

  lemma TotalIs(w: Window, fs: seq<Fact>, newRelease: string, baseline: string, s: Series, release: string)
    requires release == ReleaseOf(s, newRelease, baseline)
    ensures Samples(w, Select(w, Incidents(w, fs, release), EventOf(s)))
            == TallyOf(w, Select(w, fs, EitherRelease(newRelease, baseline)), Counted(release, EventOf(s))).count
  {
    FourSelects(w, fs, release, EventOf(s));
    SelectTally(w, fs, EitherRelease(newRelease, baseline), Counted(release, EventOf(s)));
    forall f | f in fs
      ensures Holds(w, Totalled(release, EventOf(s)), f)
              == Holds(w, And(EitherRelease(newRelease, baseline), Counted(release, EventOf(s))), f)
    {
      SameEvents(w, newRelease, baseline, s, f);
    }
    TallyCongruent(w, fs, Totalled(release, EventOf(s)), And(EitherRelease(newRelease, baseline), Counted(release, EventOf(s))));
  }

  /** Each series of the release trend sums, over its non-null counts, to the slice's total. */
  lemma ReleaseTrendSums(w: Window, fs: seq<Fact>, newRelease: string, baseline: string, s: Series)
    requires AllFair(w, fs) && w.fromMs < w.toMs
    ensures var trend := IncidentTrend(w, fs, newRelease, baseline);
            && 1 <= |trend| <= MAX_BUCKETS
            && SeriesSum(trend, s, |trend|) == TotalOf(CountsOf(w, fs, ReleaseOf(s, newRelease, baseline)), s)
  {
    var either := Select(w, fs, EitherRelease(newRelease, baseline));
    SelectFair(w, fs, EitherRelease(newRelease, baseline));
    BucketsTile(w);
    BucketsShareEvents(w, either, Counted(ReleaseOf(s, newRelease, baseline), EventOf(s)));
    SeriesSumIs(w, fs, newRelease, baseline, s, BucketCount(w));
    TotalIs(w, fs, newRelease, baseline, s, ReleaseOf(s, newRelease, baseline));
  }
}
