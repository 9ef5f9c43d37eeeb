/**
 * Data quality: identity, SDK-health, late-data and inbox coverage of one window.
 */
module DataQuality {
  import opened Prelude
  import opened Facts
  import opened Metrics
  import opened Sorting
  import opened ReleaseHealth

  datatype CountEntry = CountEntry(key: string, events: nat)

  datatype Quality = Quality(
    state: State, samples: nat, protocols: seq<CountEntry>, schemas: seq<CountEntry>, statuses: seq<CountEntry>,
    releaseIdentity: Metric, installationIdentity: Metric, sdkHealth: Metric, lateData: Metric)

  function EntryRank(e: CountEntry): Rank {
    Rank(0, 0, e.key)
  }

  /** The counter after the loop: one entry per value, in order of first appearance. */
  function Counter(w: Window, fs: seq<Fact>, dim: Dimension, keys: seq<Key>): seq<CountEntry> {
    if keys == [] then []
    else
      var n := |keys| - 1;
      Counter(w, fs, dim, keys[..n]) + [CountEntry(NameOfKey(keys[n]), Samples(w, Select(w, fs, KeyIs(dim, keys[n]))))]
  }

  /** dict(sorted(_fact_counts(...).items())). */
  function SortedCounts(w: Window, fs: seq<Fact>, dim: Dimension): seq<CountEntry> {
    SortBy(Counter(w, fs, dim, Keys(w, fs, dim)), EntryRank)
  }

  function Selected(w: Window, fs: seq<Fact>, release: Option<string>): seq<Fact> {
    if release.Some? then Select(w, fs, Release(release.value)) else fs
  }

  function QualityOf(w: Window, fs: seq<Fact>, release: Option<string>): Quality {
    SelectedQuality(w, Selected(w, fs, release))
  }

  function SelectedQuality(w: Window, selected: seq<Fact>): Quality {
    var bound := Select(w, selected, Bound);
    var sdkFacts := Select(w, selected, OfFamily(SdkHealth));
    var samples := Samples(w, selected);
    var occurrences := Samples(w, bound);
    var installations := Samples(w, Select(w, bound, Identified));
    var late := Samples(w, Select(w, selected, Late));
    var dropped := TallyOf(w, sdkFacts, Every).dropped;
    var reason := Continuity(w, selected);
    var broken := reason.Some? && selected != [];
    var sdk := if selected == [] then Bare(NO_DATA, w.toMs, 0, None) else SdkHealthMetric(w, sdkFacts);
    var lateMetric := if selected == [] then Bare(NO_DATA, w.toMs, 0, None)
                      else Metric(if late > 0 then LATE else ZERO, w.toMs, samples, AsFraction(Share(late, samples)),
                                  Some(late), Some(samples), None, None);
    var state := if broken then UNAVAILABLE
                 else if selected == [] then NO_DATA
                 else if occurrences == 0 then UNAVAILABLE
                 else if occurrences < samples || installations < occurrences || dropped then DEGRADED
                 else if late > 0 then LATE
                 else if sdk.state == UNAVAILABLE then UNAVAILABLE
                 else PRESENT;
    Quality(
      state, samples, SortedCounts(w, selected, ByProtocol), SortedCounts(w, selected, BySchema), SortedCounts(w, selected, ByStatus),
      CoverageMetric(occurrences, samples, w.toMs, OccurrenceIdentityNotProvided),
      if broken then Bare(UNAVAILABLE, w.toMs, samples, reason)
      else CoverageMetric(installations, occurrences, w.toMs, InstallationIdentityNotProvided),
      sdk, lateMetric)
  }

  lemma {:induction false} SameCounter(w: Window, a: seq<Fact>, b: seq<Fact>, scenes: bool, dim: Dimension, keys: seq<Key>)
    requires SameView(w, a, b, scenes) && !dim.ByScene?
    ensures Counter(w, a, dim, keys) == Counter(w, b, dim, keys)
  {
    if keys != [] {
      SameCounter(w, a, b, scenes, dim, keys[..|keys| - 1]);
      SameSelect(w, a, b, scenes, KeyIs(dim, keys[|keys| - 1]));
    }
  }

  lemma SameSortedCounts(w: Window, a: seq<Fact>, b: seq<Fact>, scenes: bool, dim: Dimension)
    requires SameView(w, a, b, scenes) && !dim.ByScene?
    ensures SortedCounts(w, a, dim) == SortedCounts(w, b, dim)
  {
    ViewFacts(w, a, b, scenes);
    SameCounter(w, a, b, scenes, dim, Keys(w, a, dim));
  }

  lemma SameSelected(w: Window, a: seq<Fact>, b: seq<Fact>, scenes: bool, release: Option<string>)
    requires SameView(w, a, b, scenes)
    ensures SameView(w, Selected(w, a, release), Selected(w, b, release), scenes)
  {
    if release.Some? { SelectView(w, a, b, scenes, Release(release.value)); }
  }

  lemma SameQualityCounts(w: Window, a: seq<Fact>, b: seq<Fact>, scenes: bool)
    requires SameView(w, a, b, scenes)
    ensures Samples(w, Select(w, a, Bound)) == Samples(w, Select(w, b, Bound))
    ensures Samples(w, Select(w, Select(w, a, Bound), Identified)) == Samples(w, Select(w, Select(w, b, Bound), Identified))
    ensures Samples(w, Select(w, a, Late)) == Samples(w, Select(w, b, Late))
  {
    SameSelect(w, a, b, scenes, Bound);
    SameSelect(w, Select(w, a, Bound), Select(w, b, Bound), scenes, Identified);
    SameSelect(w, a, b, scenes, Late);
  }

  lemma SameQualitySdk(w: Window, a: seq<Fact>, b: seq<Fact>, scenes: bool)
    requires SameView(w, a, b, scenes)
    ensures var x, y := Select(w, a, OfFamily(SdkHealth)), Select(w, b, OfFamily(SdkHealth));
            TallyOf(w, x, Every) == TallyOf(w, y, Every) && SdkHealthMetric(w, x) == SdkHealthMetric(w, y)
  {
    var x, y := Select(w, a, OfFamily(SdkHealth)), Select(w, b, OfFamily(SdkHealth));
    SelectView(w, a, b, scenes, OfFamily(SdkHealth));
    ViewFacts(w, x, y, scenes);
    SameSdkHealth(w, x, y, scenes);
  }

  lemma SameSelectedQuality(w: Window, x: seq<Fact>, y: seq<Fact>, scenes: bool)
    requires SameView(w, x, y, scenes)
    ensures SelectedQuality(w, x) == SelectedQuality(w, y)
  {
    ViewFacts(w, x, y, scenes);
    SameQualityCounts(w, x, y, scenes);
    SameQualitySdk(w, x, y, scenes);
    SameContinuity(w, x, y, scenes);
    SameCounters(w, x, y, scenes);
  }

  lemma SameCounters(w: Window, x: seq<Fact>, y: seq<Fact>, scenes: bool)
    requires SameView(w, x, y, scenes)
    ensures SortedCounts(w, x, ByProtocol) == SortedCounts(w, y, ByProtocol)
    ensures SortedCounts(w, x, BySchema) == SortedCounts(w, y, BySchema)
    ensures SortedCounts(w, x, ByStatus) == SortedCounts(w, y, ByStatus)
  {
    SameSortedCounts(w, x, y, scenes, ByProtocol);
    SameSortedCounts(w, x, y, scenes, BySchema);
    SameSortedCounts(w, x, y, scenes, ByStatus);
  }

  /** Data quality depends on the facts only through their view. */
  lemma SameQuality(w: Window, a: seq<Fact>, b: seq<Fact>, scenes: bool, release: Option<string>)
    requires SameView(w, a, b, scenes)
    ensures QualityOf(w, a, release) == QualityOf(w, b, release)
  {
    SameSelected(w, a, b, scenes, release);
    SameSelectedQuality(w, Selected(w, a, release), Selected(w, b, release), scenes);
  }
}
