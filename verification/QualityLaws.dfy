/** What data quality and the trends say about the facts they are built from. */
module QualityLaws {
  import opened Prelude
  import opened Facts
  import opened Metrics
  import opened Buckets
  import opened Sorting
  import opened ReleaseHealth
  import opened FactLaws
  import opened DataQuality
  import Issues
  import IssueLaws
  import RatioGate
  import Shares

  // ----- data quality -----

  lemma SelectedAre(w: Window, fs: seq<Fact>, release: Option<string>, f: Fact)
    ensures f in Selected(w, fs, release) <==> f in fs && (release != None ==> f.dims.core.appVersion == release)
  {
    if release.Some? { SelectHas(w, fs, Release(release.value), f); }
  }

  predicate Bounded(f: Fact) { f.dims.core.releaseQuality == OCCURRENCE_BOUND }

  predicate Pseudonymous(f: Fact) { f.dims.core.hmac != None }

  predicate Reports(f: Fact) { f.dims.core.family == SdkHealth }

  ghost predicate AnyBound(x: seq<Fact>) { exists f :: f in x && Bounded(f) }

  ghost predicate AnyUnbound(x: seq<Fact>) { exists f :: f in x && !Bounded(f) }

  ghost predicate AnyAnonymous(x: seq<Fact>) { exists f :: f in x && Bounded(f) && !Pseudonymous(f) }

  ghost predicate AnyDrop(x: seq<Fact>) { exists f :: f in x && Reports(f) && Dropping(f) }

  ghost predicate AnyLate(x: seq<Fact>) { exists f :: f in x && f.dims.core.late }

  /** The SDK reported, and every report is usable. */
  ghost predicate SdkUsable(x: seq<Fact>) {
    (exists f :: f in x && Reports(f)) && forall f :: f in x && Reports(f) ==> Usable(f)
  }

  lemma SomeCounted(w: Window, x: seq<Fact>, a: Atom)
    requires AllCounted(x)
    ensures Samples(w, Select(w, x, a)) == 0 <==> forall f :: f in x ==> !HoldsAtom(w, a, f)
  {
    RatioGate.NoSamplesIff(w, x, a);
  }

  lemma AllBound(w: Window, x: seq<Fact>)
    requires AllCounted(x)
    ensures Samples(w, Select(w, x, Bound)) < Samples(w, x) <==> exists f :: f in x && !Bounded(f)
    ensures Samples(w, Select(w, x, Bound)) <= Samples(w, x)
  {
    RatioGate.AllSamplesIff(w, x, Bound, NotBound);
  }

  lemma AllIdentified(w: Window, x: seq<Fact>)
    requires AllCounted(x)
    ensures Samples(w, Select(w, x, Identified)) < Samples(w, x) <==> exists f :: f in x && !Pseudonymous(f)
  {
    RatioGate.AllSamplesIff(w, x, Identified, NotIdentified);
  }

  lemma SdkMembers(w: Window, x: seq<Fact>, f: Fact)
    ensures f in Select(w, x, OfFamily(SdkHealth)) <==> f in x && Reports(f)
    ensures f in Select(w, x, Bound) <==> f in x && Bounded(f)
  {
    SelectHas(w, x, OfFamily(SdkHealth), f);
    SelectHas(w, x, Bound, f);
  }

  lemma BoundCounts(w: Window, x: seq<Fact>)
    requires AllCounted(x)
    ensures Samples(w, Select(w, x, Bound)) == 0 <==> !AnyBound(x)
    ensures Samples(w, Select(w, x, Bound)) < Samples(w, x) <==> AnyUnbound(x)
  {
    SomeCounted(w, x, Bound);
    AllBound(w, x);
  }

  lemma IdentifiedCounts(w: Window, x: seq<Fact>)
    requires AllCounted(x)
    ensures var bound := Select(w, x, Bound);
            Samples(w, Select(w, bound, Identified)) < Samples(w, bound) <==> AnyAnonymous(x)
  {
    var bound := Select(w, x, Bound);
    RatioGate.SelectCounted(w, x, Bound);
    AllIdentified(w, bound);
    forall f { SdkMembers(w, x, f); }
  }

  lemma LateCounts(w: Window, x: seq<Fact>)
    requires AllCounted(x)
    ensures Samples(w, Select(w, x, Late)) > 0 <==> AnyLate(x)
  {
    SomeCounted(w, x, Late);
  }

  lemma SdkVerdicts(w: Window, x: seq<Fact>)
    ensures var sdk := Select(w, x, OfFamily(SdkHealth));
            && (TallyOf(w, sdk, Every).dropped <==> AnyDrop(x))
            && (SdkHealthMetric(w, sdk).state != UNAVAILABLE <==> SdkUsable(x))
  {
    var sdk := Select(w, x, OfFamily(SdkHealth));
    forall f ensures f in sdk <==> f in x && Reports(f) { SdkMembers(w, x, f); }
    TallyMeans(w, sdk, Every);
    forall f ensures Hit(w, sdk, Every, f) <==> f in sdk {}
    SdkHealthMeans(w, sdk);
    if sdk != [] { assert sdk[0] in sdk; }
  }

  /** The verdict on a list of facts: causes in order of rank. */
  lemma QualityRanks(w: Window, x: seq<Fact>)
    requires AllCounted(x)
    ensures var state := SelectedQuality(w, x).state;
            if x == [] then state == NO_DATA
            else if !OneKeyEpoch(x) || !AnyBound(x) then state == UNAVAILABLE
            else if AnyUnbound(x) || AnyAnonymous(x) || AnyDrop(x) then state == DEGRADED
            else if AnyLate(x) then state == LATE
            else if !SdkUsable(x) then state == UNAVAILABLE
            else state == PRESENT
  {
    ContinuityIffOneEpoch(w, x);
    BoundCounts(w, x);
    IdentifiedCounts(w, x);
    LateCounts(w, x);
    SdkVerdicts(w, x);
  }

  /** A part of a whole: missing when nobody has it, degraded when some do, present when all do. */
  lemma CoverageMeans(numerator: nat, denominator: nat, asOf: int, missing: Reason)
    requires numerator <= denominator
    ensures var m := CoverageMetric(numerator, denominator, asOf, missing);
            && m.asOf == asOf && m.samples == denominator
            && (m.state == NO_DATA <==> denominator == 0) && (m.state == UNAVAILABLE <==> numerator == 0 < denominator)
            && (m.state == DEGRADED <==> 0 < numerator < denominator) && (m.state == PRESENT <==> 0 < numerator == denominator)
            && (0 < denominator ==> m.numerator == Some(numerator) && m.denominator == Some(denominator)
                                    && m.coverage == Some(numerator as real / denominator as real))
            && m.value == (if 0 < numerator then Some(Fraction(numerator as real / denominator as real)) else None)
            && m.reason == (if numerator == 0 < denominator then Some(missing)
                            else if 0 < numerator < denominator then Some(IdentityCoverageIncomplete) else None)
  {
  }

  /** The metrics of data quality: who is bound, who of those is identified, what is late, how the SDK fares. */
  lemma QualityMetricsAre(w: Window, x: seq<Fact>)
    requires AllCounted(x)
    ensures var d := SelectedQuality(w, x);
            var samples, bound := Sum(w, x, Every), Sum(w, x, And(Bound, Every));
            var identified, late := Sum(w, x, And(Bound, And(Identified, Every))), Sum(w, x, And(Late, Every));
            && d.samples == samples
            && d.releaseIdentity == CoverageMetric(bound, samples, w.toMs, OccurrenceIdentityNotProvided)
            && d.installationIdentity == (if x != [] && !OneKeyEpoch(x) then Bare(UNAVAILABLE, w.toMs, samples, Continuity(w, x))
                                          else CoverageMetric(identified, bound, w.toMs, InstallationIdentityNotProvided))
            && d.sdkHealth == (if x == [] then Bare(NO_DATA, w.toMs, 0, None) else SdkHealthMetric(w, Select(w, x, OfFamily(SdkHealth))))
            && d.protocols == SortedCounts(w, x, ByProtocol) && d.schemas == SortedCounts(w, x, BySchema)
            && d.statuses == SortedCounts(w, x, ByStatus)
            && (x != [] ==> 0 < samples)
            && d.lateData == (if x == [] then Bare(NO_DATA, w.toMs, 0, None)
                              else Metric(if 0 < late then LATE else ZERO, w.toMs, samples, Some(Fraction(late as real / samples as real)),
                                          Some(late), Some(samples), None, None))
  {
    ContinuityIffOneEpoch(w, x);
    EmptyIffNoSamples(w, x);
    TallyMeans(w, x, Every);
    SelectTally(w, x, Bound, Every);
    TallyMeans(w, x, And(Bound, Every));
    SelectTally(w, Select(w, x, Bound), Identified, Every);
    SelectTally(w, x, Bound, And(Identified, Every));
    TallyMeans(w, x, And(Bound, And(Identified, Every)));
    SelectTally(w, x, Late, Every);
    TallyMeans(w, x, And(Late, Every));
  }

  // ----- counters -----

  lemma {:induction false} CounterAt(w: Window, fs: seq<Fact>, dim: Dimension, keys: seq<Key>, i: nat)
    requires i < |keys|
    ensures |Counter(w, fs, dim, keys)| == |keys|
    ensures Counter(w, fs, dim, keys)[i] == CountEntry(NameOfKey(keys[i]), Samples(w, Select(w, fs, KeyIs(dim, keys[i]))))
  {
    var n := |keys| - 1;
    CounterLength(w, fs, dim, keys[..n]);
    if i < n { CounterAt(w, fs, dim, keys[..n], i); }
  }

  lemma {:induction false} CounterLength(w: Window, fs: seq<Fact>, dim: Dimension, keys: seq<Key>)
    ensures |Counter(w, fs, dim, keys)| == |keys|
  {
    if keys != [] { CounterLength(w, fs, dim, keys[..|keys| - 1]); }
  }

  predicate ColumnDimension(dim: Dimension) {
    dim == ByProtocol || dim == BySchema || dim == ByStatus
  }

  function ColumnOf(dim: Dimension, f: Fact): string
    requires ColumnDimension(dim)
  {
    match dim case ByProtocol => f.dims.core.protocol case BySchema => f.dims.core.schemaVersion case _ => f.dims.core.status
  }

  lemma ColumnKeys(w: Window, fs: seq<Fact>, dim: Dimension)
    requires ColumnDimension(dim)
    ensures forall k :: k in Keys(w, fs, dim) ==> k.Text? && exists f :: f in fs && ColumnOf(dim, f) == k.text
    ensures forall f :: f in fs ==> Text(ColumnOf(dim, f)) in Keys(w, fs, dim)
  {
    KeysListTheSet(w, fs, dim);
    forall f | f in fs ensures Text(ColumnOf(dim, f)) in Keys(w, fs, dim) { assert KeyOf(dim, f) in KeySet(fs, dim); }
  }

  /** An entry counts the facts with its value. */
  lemma EntryCounts(w: Window, fs: seq<Fact>, dim: Dimension, e: CountEntry)
    requires ColumnDimension(dim) && e in SortedCounts(w, fs, dim)
    ensures e.events == Sum(w, fs, And(KeyIs(dim, Text(e.key)), Every)) && exists f :: f in fs && ColumnOf(dim, f) == e.key
  {
    var keys := Keys(w, fs, dim);
    var entries := Counter(w, fs, dim, keys);
    SortKeepsMembers(entries, EntryRank);
    assert e in multiset(SortedCounts(w, fs, dim));
    assert e in entries;
    var i :| 0 <= i < |entries| && entries[i] == e;
    CounterLength(w, fs, dim, keys);
    CounterAt(w, fs, dim, keys, i);
    ColumnKeys(w, fs, dim);
    assert keys[i] in keys;
    SelectTally(w, fs, KeyIs(dim, keys[i]), Every);
    TallyMeans(w, fs, And(KeyIs(dim, keys[i]), Every));
  }

  /** Every value that occurs has an entry, and the entries stand in dictionary order of their values. */
  lemma EntriesAreSorted(w: Window, fs: seq<Fact>, dim: Dimension, f: Fact)
    requires ColumnDimension(dim) && f in fs
    ensures exists e :: e in SortedCounts(w, fs, dim) && e.key == ColumnOf(dim, f)
    ensures var all := SortedCounts(w, fs, dim); forall i, j :: 0 <= i < j < |all| ==> !IssueLaws.Earlier(all[j].key, all[i].key)
  {
    var keys := Keys(w, fs, dim);
    var entries, all := Counter(w, fs, dim, keys), SortedCounts(w, fs, dim);
    ColumnKeys(w, fs, dim);
    var k :| 0 <= k < |keys| && keys[k] == Text(ColumnOf(dim, f));
    CounterAt(w, fs, dim, keys, k);
    SortKeepsMembers(entries, EntryRank);
    assert entries[k] in multiset(all);
    SortSorts(entries, EntryRank);
    forall i, j | 0 <= i < j < |all| ensures !IssueLaws.Earlier(all[j].key, all[i].key) {
      assert Before(EntryRank(all[i]), EntryRank(all[j]));
      IssueLaws.TextLessIsDictionary(all[j].key, all[i].key);
    }
  }

  // ----- trends -----

  /** A fact of the release that begins in the bucket. */
  predicate InSlot(w: Window, f: Fact, release: string, i: int) {
    f.dims.core.appVersion == Some(release) && BucketOf(w, f.first) == i
  }

  ghost predicate SlotDeclared(w: Window, fs: seq<Fact>, release: string, i: int) { exists f :: f in fs && InSlot(w, f, release, i) }

  ghost predicate SlotBound(w: Window, fs: seq<Fact>, release: string, i: int) { exists f :: f in fs && InSlot(w, f, release, i) && Bounded(f) }

  ghost predicate SlotUnbound(w: Window, fs: seq<Fact>, release: string, i: int) { exists f :: f in fs && InSlot(w, f, release, i) && !Bounded(f) }

  function SlotCount(w: Window, fs: seq<Fact>, release: string, i: int, family: Family): nat {
    Sum(w, fs, And(EitherRelease(release, release), And(InBucket(i), And(Release(release), And(Bound, And(OfFamily(family), Every))))))
  }

  /** Counts of one release in one bucket: shown once an event there is bound, with a verdict of their own. */
  ghost predicate SlotMeans(w: Window, fs: seq<Fact>, release: string, i: int, java: Option<nat>, anr: Option<nat>, state: State) {
    && (java != None <==> SlotBound(w, fs, release, i)) && (anr != None <==> SlotBound(w, fs, release, i))
    && (java != None ==> java.value == SlotCount(w, fs, release, i, JavaCrash))
    && (anr != None ==> anr.value == SlotCount(w, fs, release, i, Anr))
    && state == (if !SlotDeclared(w, fs, release, i) then NO_DATA
                 else if !SlotBound(w, fs, release, i) then UNAVAILABLE
                 else if SlotUnbound(w, fs, release, i) then DEGRADED
                 else if 0 < SlotCount(w, fs, release, i, JavaCrash) || 0 < SlotCount(w, fs, release, i, Anr) then PRESENT
                 else ZERO)
  }

  lemma BucketMember(w: Window, fs: seq<Fact>, newRelease: string, baseline: string, release: string, i: int, f: Fact)
    requires release == newRelease || release == baseline
    ensures var declared := Select(w, BucketFacts(w, fs, newRelease, baseline, i), Release(release));
            && (f in declared <==> f in fs && InSlot(w, f, release, i))
            && (f in Select(w, declared, Bound) <==> f in fs && InSlot(w, f, release, i) && Bounded(f))
  {
    var either := Select(w, fs, EitherRelease(newRelease, baseline));
    var declared := Select(w, BucketFacts(w, fs, newRelease, baseline, i), Release(release));
    SelectHas(w, declared, Bound, f);
    SelectHas(w, BucketFacts(w, fs, newRelease, baseline, i), Release(release), f);
    SelectHas(w, either, InBucket(i), f);
    SelectHas(w, fs, EitherRelease(newRelease, baseline), f);
  }

  lemma {:induction false} SlotSums(w: Window, fs: seq<Fact>, newRelease: string, baseline: string, release: string, i: int, family: Family)
    requires release == newRelease || release == baseline
    ensures Sum(w, fs, And(EitherRelease(newRelease, baseline), And(InBucket(i), And(Release(release), And(Bound, And(OfFamily(family), Every))))))
            == SlotCount(w, fs, release, i, family)
  {
    if fs != [] {
      SlotSums(w, fs[..|fs| - 1], newRelease, baseline, release, i, family);
      var f := fs[|fs| - 1];
      var own := And(Release(release), And(Bound, And(OfFamily(family), Every)));
      assert Holds(w, own, f) == (HoldsAtom(w, Release(release), f) && Holds(w, And(Bound, And(OfFamily(family), Every)), f));
      assert Holds(w, And(InBucket(i), own), f) == (HoldsAtom(w, InBucket(i), f) && Holds(w, own, f));
    }
  }

  lemma SlotTotal(w: Window, fs: seq<Fact>, newRelease: string, baseline: string, release: string, i: int, family: Family)
    requires release == newRelease || release == baseline
    ensures Samples(w, Select(w, Select(w, Select(w, BucketFacts(w, fs, newRelease, baseline, i), Release(release)), Bound), OfFamily(family)))
            == SlotCount(w, fs, release, i, family)
  {
    var either := Select(w, fs, EitherRelease(newRelease, baseline));
    var bucket := BucketFacts(w, fs, newRelease, baseline, i);
    var last := And(OfFamily(family), Every);
    SelectTally(w, Select(w, Select(w, bucket, Release(release)), Bound), OfFamily(family), Every);
    SelectTally(w, Select(w, bucket, Release(release)), Bound, last);
    SelectTally(w, bucket, Release(release), And(Bound, last));
    SelectTally(w, either, InBucket(i), And(Release(release), And(Bound, last)));
    SelectTally(w, fs, EitherRelease(newRelease, baseline), And(InBucket(i), And(Release(release), And(Bound, last))));
    TallyMeans(w, fs, And(EitherRelease(newRelease, baseline), And(InBucket(i), And(Release(release), And(Bound, last)))));
    SlotSums(w, fs, newRelease, baseline, release, i, family);
  }

  lemma {:induction false} SelectSplits(w: Window, fs: seq<Fact>, a: Atom)
    ensures |Select(w, fs, a)| <= |fs|
    ensures |Select(w, fs, a)| == |fs| <==> forall f :: f in fs ==> HoldsAtom(w, a, f)
  {
    if fs != [] {
      var n := |fs| - 1;
      SelectSplits(w, fs[..n], a);
      assert fs == fs[..n] + [fs[n]];
    }
  }

  /** One release in one bucket of the trend. */
  lemma BucketMeans(w: Window, fs: seq<Fact>, newRelease: string, baseline: string, release: string, i: int)
    requires release == newRelease || release == baseline
    ensures var b := BucketIncidents(w, BucketFacts(w, fs, newRelease, baseline, i), release);
            SlotMeans(w, fs, release, i, b.java, b.anr, b.state)
  {
    var declared := Select(w, BucketFacts(w, fs, newRelease, baseline, i), Release(release));
    var bound := Select(w, declared, Bound);
    forall f { BucketMember(w, fs, newRelease, baseline, release, i, f); }
    SelectSplits(w, declared, Bound);
    SlotTotal(w, fs, newRelease, baseline, release, i, JavaCrash);
    SlotTotal(w, fs, newRelease, baseline, release, i, Anr);
    if declared != [] { assert declared[0] in declared; }
    if bound != [] { assert bound[0] in bound; }
  }

  /** Every point of the release trend: its bucket, and both releases there. */
  lemma TrendMeans(w: Window, fs: seq<Fact>, newRelease: string, baseline: string, i: nat)
    requires i < |IncidentTrend(w, fs, newRelease, baseline)|
    ensures var p := IncidentTrend(w, fs, newRelease, baseline)[i];
            && p.startMs == w.fromMs + i * BucketMs(w) && p.endMs == Min(p.startMs + BucketMs(w), w.toMs)
            && SlotMeans(w, fs, newRelease, i, p.newJava, p.newAnr, p.newState)
            && SlotMeans(w, fs, baseline, i, p.baselineJava, p.baselineAnr, p.baselineState)
  {
    BucketMeans(w, fs, newRelease, baseline, newRelease, i);
    BucketMeans(w, fs, newRelease, baseline, baseline, i);
  }

  /** Every point of an issue's trend: nothing is claimed for a bucket without an event. */
  lemma IssueTrendMeans(w: Window, fs: seq<Fact>, i: nat)
    requires i < |Issues.IssueTrend(w, fs)|
    ensures var p := Issues.IssueTrend(w, fs)[i];
            && p.startMs == w.fromMs + i * BucketMs(w) && p.endMs == Min(p.startMs + BucketMs(w), w.toMs)
            && (p.events != None <==> exists f :: f in fs && BucketOf(w, f.first) == i)
            && (p.events != None ==> p.events.value == Sum(w, fs, And(InBucket(i), Every)))
            && p.installations == (if p.events == None then None else InstallationCount(w, Select(w, fs, InBucket(i)), Continuity(w, fs)))
  {
    var group := Select(w, fs, InBucket(i));
    forall f ensures f in group <==> f in fs && BucketOf(w, f.first) == i { SelectHas(w, fs, InBucket(i), f); }
    if group != [] { assert group[0] in group; }
    SelectTally(w, fs, InBucket(i), Every);
    TallyMeans(w, fs, And(InBucket(i), Every));
  }
}
