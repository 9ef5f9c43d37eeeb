/** What a release slice, the comparison and the trend say, in terms of what was counted. */
module ReleaseLaws {
  import opened Prelude
  import opened Facts
  import opened Metrics
  import opened Buckets
  import opened ReleaseHealth
  import RatioGate

  /** Nothing is missing from a release: every event is bound and identified, none is late, the SDK dropped none. */
  predicate Spotless(c: SliceCounts) {
    0 < c.declared == c.eligible == c.identified && c.late == 0 && !c.dropped
  }

  /** The quality of a release: each verdict has its own cause, and the causes rank in this order. */
  lemma QualityRanks(c: SliceCounts)
    requires RatioGate.Consistent(c)
    ensures var q := Quality(c);
            && (q == (NO_DATA, None) <==> c.declared == 0)
            && (q == (UNAVAILABLE, Some(OccurrenceIdentityNotProvided)) <==> c.eligible == 0 < c.declared)
            && (q == (DEGRADED, Some(ReleaseCoverageIncomplete)) <==> 0 < c.eligible < c.declared)
            && (q == (DEGRADED, Some(InstallationCoverageIncomplete)) <==> c.identified < c.eligible == c.declared)
            && (q == (DEGRADED, Some(SdkReportedDrops)) <==> 0 < c.identified == c.eligible == c.declared && c.dropped)
            && (q == (LATE, Some(LateDataPresent)) <==> 0 < c.identified == c.eligible == c.declared && !c.dropped && 0 < c.late)
            && (q == (PRESENT, None) <==> Spotless(c))
  {
  }

  /** A healthy SDK sample and enough of it: what a spotless release still needs before its ratio is shown. */
  predicate Observed(c: SliceCounts, s: Settings) {
    && (c.sdk.state == PRESENT || c.sdk.state == ZERO)
    && 0 < c.active && c.reporting as real / c.active as real >= s.minSdkCoverage
    && c.active >= s.minInstallations
  }

  /** The slice's state: the quality first, then the SDK sample, its coverage, and the number of installations. */
  lemma SliceStateRanks(c: SliceCounts, release: string, asOf: int, s: Settings)
    requires RatioGate.Consistent(c)
    ensures var state := SliceOf(c, release, asOf, s).state;
            if !Spotless(c) then state == Quality(c).0
            else if c.sdk.state != PRESENT && c.sdk.state != ZERO then state == c.sdk.state
            else if c.reporting as real / c.active as real < s.minSdkCoverage then state == UNKNOWN_COVERAGE
            else if c.active < s.minInstallations then state == UNAVAILABLE
            else state == PRESENT
    ensures Spotless(c) ==> c.active > 0
    ensures SliceOf(c, release, asOf, s).state == PRESENT <==> Spotless(c) && Observed(c, s)
  {
    QualityRanks(c);
  }

  /** A count is shown as soon as one event of the release is bound; zero is only claimed for a spotless release. */
  ghost predicate CountShown(m: Metric, n: nat, c: SliceCounts, asOf: int) {
    && m.asOf == asOf && m.samples == c.eligible && m.numerator == None && m.denominator == None && m.coverage == None
    && m.value == (if 0 < c.eligible then Some(Whole(n)) else None)
    && m.reason == Quality(c).1
    && (m.state == ZERO <==> Spotless(c) && n == 0) && (m.state == PRESENT <==> Spotless(c) && n > 0)
    && (!Spotless(c) ==> m.state == Quality(c).0)
  }

  /** An installation count needs one identified event; it says how many of its events were identified. */
  ghost predicate InstallationsShown(m: Metric, n: nat, samples: nat, coverage: Option<real>, c: SliceCounts, asOf: int) {
    && m.asOf == asOf && m.numerator == None && m.denominator == None
    && (m.value == (if 0 < c.identified then Some(Whole(n)) else None))
    && (if c.declared == 0 then m == Bare(NO_DATA, asOf, 0, None)
        else if c.eligible == 0 then m == Bare(UNAVAILABLE, asOf, c.declared, Some(OccurrenceIdentityNotProvided))
        else if c.identified == 0 then m == Bare(UNAVAILABLE, asOf, c.eligible, Some(InstallationIdentityNotProvided))
        else
          && m.reason == None && m.samples == samples && m.coverage == coverage
          && m.state == (if c.identified < c.eligible then DEGRADED else if n == 0 then ZERO else PRESENT))
  }

  /** Part of a whole, when there is a whole. */
  function Part(a: nat, b: nat): Option<real> {
    if b == 0 then None else Some(a as real / b as real)
  }

  lemma WholeShare(a: nat, b: nat)
    requires a <= b && 0 < b
    ensures Ratio(a, b) == 1.0 <==> a == b
  {
    assert a as real == Ratio(a, b) * b as real;
  }

  lemma CountsAreShown(c: SliceCounts, release: string, asOf: int, s: Settings)
    requires RatioGate.Consistent(c) && c.incidents <= c.eligible
    ensures var slice := SliceOf(c, release, asOf, s); var m := slice.metrics;
            && slice.release == release && slice.declared == c.declared && slice.eligible == c.eligible
            && slice.excluded == c.declared - c.eligible
            && slice.releaseCoverage == Part(c.eligible, c.declared) && slice.installationCoverage == Part(c.identified, c.eligible)
            && CountShown(m.javaCrashes, c.java, c, asOf) && CountShown(m.anrs, c.anr, c, asOf)
            && InstallationsShown(m.active, c.active, c.eligible, Part(c.identified, c.eligible), c, asOf)
            && InstallationsShown(m.affected, c.affected, c.incidents,
                                  if c.incidents == 0 then Some(1.0) else Part(c.incidentsIdentified, c.incidents), c, asOf)
  {
    QualityRanks(c);
  }

  /** The ratio is the share of affected installations when every gate is open; closed, it still shows both counts and why. */
  lemma RatioIsShown(c: SliceCounts, release: string, asOf: int, s: Settings)
    requires RatioGate.Consistent(c)
    ensures var m := SliceOf(c, release, asOf, s).metrics.ratio;
            && m.asOf == asOf
            && (m.value != None <==> Spotless(c) && Observed(c, s))
            && (m.value != None ==>
                  && m.value == Some(Fraction(c.affected as real / c.active as real))
                  && (m.state == ZERO <==> c.affected == 0) && (m.state == PRESENT <==> c.affected > 0) && m.reason == None
                  && m.coverage == Some(1.0))
            && (0 < c.eligible ==>
                  m.samples == c.eligible && m.numerator == Some(c.affected) && m.denominator == Some(c.active)
                  && m.coverage == Part(c.identified, c.eligible))
            && (m.value == None && 0 < c.eligible ==> m.state == SliceOf(c, release, asOf, s).state)
            && (c.eligible == 0 ==> m.numerator == None && m.denominator == None && m.samples == c.declared)
  {
    QualityRanks(c);
    SliceStateRanks(c, release, asOf, s);
    if 0 < c.eligible { WholeShare(c.identified, c.eligible); }
  }

  /** The ratio's own verdicts for incomplete identities and for no installation are never shown: the gate is closed then. */
  lemma GateHidesPartialRatio(c: SliceCounts, asOf: int, s: Settings)
    requires RatioGate.Consistent(c) && 0 < c.eligible && (c.identified < c.eligible || c.active == 0)
    ensures GateCloses(c, asOf, s)
    ensures RatioMetric(c, asOf, s).state == Quality(c).0 && RatioMetric(c, asOf, s).reason == Quality(c).1
  {
    QualityRanks(c);
  }

  /** Distinct fingerprints: zero when bound events hold no incident, missing when no incident carries one. */
  lemma FingerprintsAreShown(c: SliceCounts, release: string, asOf: int, s: Settings)
    requires RatioGate.Consistent(c) && c.incidents <= c.eligible && c.incidentsFingerprinted <= c.incidents
    ensures var m := SliceOf(c, release, asOf, s).metrics.fingerprints;
            && m.asOf == asOf && m.numerator == None && m.denominator == None
            && if c.eligible == 0 then m == Bare(Quality(c).0, asOf, c.declared, Quality(c).1)
               else if c.incidents == 0 then m == Bare(ZERO, asOf, c.eligible, None).(value := Some(Whole(0)))
               else if c.fingerprints == 0 then m == Bare(UNAVAILABLE, asOf, c.incidents, Some(FingerprintNotProvided))
               else m.value == Some(Whole(c.fingerprints)) && m.samples == c.incidents && m.reason == None
                    && m.state == (if c.incidentsFingerprinted < c.incidents then DEGRADED else PRESENT)
                    && m.coverage == Part(c.incidentsFingerprinted, c.incidents)
  {
    if 0 < c.incidents { WholeShare(c.incidentsFingerprinted, c.incidents); }
  }

  /** Late data, the SDK's own drop rate with the share of installations it covers, and sessions, which the SDK does not send. */
  lemma OthersAreShown(c: SliceCounts, release: string, asOf: int, s: Settings)
    requires RatioGate.Consistent(c)
    ensures var m := SliceOf(c, release, asOf, s).metrics.lateRatio;
            if c.declared == 0 then m == Bare(NO_DATA, asOf, 0, None)
            else if c.eligible == 0 then m == Bare(UNAVAILABLE, asOf, c.declared, Some(OccurrenceIdentityNotProvided))
            else m == Metric(if 0 < c.late then LATE else ZERO, asOf, c.eligible, Some(Fraction(c.late as real / c.eligible as real)),
                             Some(c.late), Some(c.eligible), None, None)
    ensures var m := SliceOf(c, release, asOf, s).metrics.sdkDropRate;
            m == (if c.declared == 0 then Bare(NO_DATA, asOf, 0, None) else c.sdk).(coverage := Part(c.reporting, c.active))
    ensures var m := SliceOf(c, release, asOf, s).metrics;
            m.crashFree == m.anrFree == Bare(UNAVAILABLE, asOf, c.eligible, Some(SessionNotProvided))
  {
  }

  // ----- the comparison -----

  /** The newer number is the older one plus its delta. */
  lemma DeltaAdds(a: Metric, b: Metric)
    ensures var d := MetricDelta(a, b);
            && (d != None <==> (exists x :: a.value == Some(Whole(x))) && (exists y :: b.value == Some(Whole(y))))
            && (d != None ==> exists x, y :: a.value == Some(Whole(x)) && b.value == Some(Whole(y)) && y + d.value == x)
  {
  }

  lemma RatioDeltaAdds(a: Metric, b: Metric)
    requires a.value != None ==> a.value.value.Fraction?
    requires b.value != None ==> b.value.value.Fraction?
    ensures var d := RatioDelta(a, b);
            && (d != None <==> a.value != None && b.value != None && a.state in {PRESENT, ZERO} && b.state in {PRESENT, ZERO})
            && (d != None ==> b.value.value.r + d.value == a.value.value.r)
  {
  }

  /** Releases whose installations carry different key versions are not compared: their installation metrics say why. */
  ghost predicate Joinable(w: Window, fs: seq<Fact>, newRelease: string, baseline: string) {
    RatioGate.OneEpochJoined(fs, newRelease, baseline)
  }

  predicate RatioOpen(c: SliceCounts, s: Settings) {
    Spotless(c) && Observed(c, s)
  }

  function Shown(visible: bool, n: nat): Option<Number> {
    if visible then Some(Whole(n)) else None
  }

  /** The four values of a slice that are compared. */
  ghost predicate Compared(slice: Slice, c: SliceCounts, s: Settings, one: bool) {
    && slice.metrics.javaCrashes.value == Shown(0 < c.eligible, c.java)
    && slice.metrics.anrs.value == Shown(0 < c.eligible, c.anr)
    && slice.metrics.affected.value == Shown(one && 0 < c.identified, c.affected)
    && (RatioOpen(c, s) ==> c.active > 0)
    && slice.metrics.ratio.value == (if one && RatioOpen(c, s) then Some(Fraction(c.affected as real / c.active as real)) else None)
    && (slice.metrics.ratio.value != None ==> slice.metrics.ratio.state in {PRESENT, ZERO})
  }

  lemma ComparedSlice(c: SliceCounts, release: string, asOf: int, s: Settings, reason: Option<Reason>)
    requires RatioGate.Consistent(c) && c.incidents <= c.eligible
    ensures Compared(Overwrite(SliceOf(c, release, asOf, s), asOf, reason), c, s, reason == None)
  {
    CountsAreShown(c, release, asOf, s);
    RatioIsShown(c, release, asOf, s);
  }

  lemma CompareValues(x: Slice, y: Slice, a: SliceCounts, b: SliceCounts, s: Settings, one: bool)
    requires Compared(x, a, s, one) && Compared(y, b, s, one)
    ensures var cmp := Compare(x, y);
            && cmp.java == (if 0 < a.eligible && 0 < b.eligible then Some(a.java as int - b.java as int) else None)
            && cmp.anr == (if 0 < a.eligible && 0 < b.eligible then Some(a.anr as int - b.anr as int) else None)
            && cmp.affected == (if one && 0 < a.identified && 0 < b.identified then Some(a.affected as int - b.affected as int) else None)
            && cmp.ratio == (if one && RatioOpen(a, s) && RatioOpen(b, s)
                             then Some(a.affected as real / a.active as real - b.affected as real / b.active as real) else None)
  {
  }

  /**
   * The comparison is new minus baseline: event counts as soon as both releases have bound events,
   * installations when both are identified under one key, the ratio when both pass every gate too.
   */
  lemma ComparisonIs(w: Window, fs: seq<Fact>, newRelease: string, baseline: string, s: Settings, a: SliceCounts, b: SliceCounts)
    requires a == CountsOf(w, fs, newRelease) && b == CountsOf(w, fs, baseline)
    requires RatioGate.Consistent(a) && RatioGate.Consistent(b) && a.incidents <= a.eligible && b.incidents <= b.eligible
    ensures var cmp := HealthOf(w, fs, newRelease, baseline, s).comparison;
            var one := Joinable(w, fs, newRelease, baseline);
            && cmp.java == (if 0 < a.eligible && 0 < b.eligible then Some(a.java as int - b.java as int) else None)
            && cmp.anr == (if 0 < a.eligible && 0 < b.eligible then Some(a.anr as int - b.anr as int) else None)
            && cmp.affected == (if one && 0 < a.identified && 0 < b.identified then Some(a.affected as int - b.affected as int) else None)
            && (RatioOpen(a, s) ==> a.active > 0) && (RatioOpen(b, s) ==> b.active > 0)
            && cmp.ratio == (if one && RatioOpen(a, s) && RatioOpen(b, s)
                             then Some(a.affected as real / a.active as real - b.affected as real / b.active as real) else None)
  {
    var reason := JoinedReason(w, fs, newRelease, baseline);
    RatioGate.JoinedIff(w, fs, newRelease, baseline);
    ComparedSlice(a, newRelease, w.toMs, s, reason);
    ComparedSlice(b, baseline, w.toMs, s, reason);
    CompareValues(Overwrite(SliceOf(a, newRelease, w.toMs, s), w.toMs, reason), Overwrite(SliceOf(b, baseline, w.toMs, s), w.toMs, reason),
                  a, b, s, reason == None);
  }

  /** Either slice is its own, unless the releases cannot be joined: then a slice with bound events is unavailable for that reason. */
  lemma SlicesAre(w: Window, fs: seq<Fact>, newRelease: string, baseline: string, s: Settings)
    ensures var h := HealthOf(w, fs, newRelease, baseline, s);
            && Joined(h.newRelease, SliceOf(CountsOf(w, fs, newRelease), newRelease, w.toMs, s), w, fs, newRelease, baseline)
            && Joined(h.baseline, SliceOf(CountsOf(w, fs, baseline), baseline, w.toMs, s), w, fs, newRelease, baseline)
  {
    RatioGate.JoinedIff(w, fs, newRelease, baseline);
  }

  ghost predicate Joined(shown: Slice, own: Slice, w: Window, fs: seq<Fact>, newRelease: string, baseline: string) {
    if Joinable(w, fs, newRelease, baseline) || own.eligible == 0 then shown == own
    else
      var reason := JoinedReason(w, fs, newRelease, baseline);
      var m := Bare(UNAVAILABLE, w.toMs, own.eligible, reason);
      && reason != None
      && shown == own.(state := UNAVAILABLE, metrics := own.metrics.(active := m, affected := m, ratio := m))
  }
}
