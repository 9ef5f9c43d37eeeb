/**
 * Release health: two quality-gated release slices, their comparison and the incident trend.
 */
module ReleaseHealth {
  import opened Prelude
  import opened Facts
  import opened Metrics
  import opened Buckets

  /** Everything one release slice reads from the facts. */
  datatype SliceCounts = SliceCounts(
    noDeclared: bool, noEligible: bool, noIncidents: bool,
    declared: nat, eligible: nat, incidents: nat, java: nat, anr: nat,
    identified: nat, incidentsIdentified: nat, incidentsFingerprinted: nat, late: nat,
    dropped: bool, active: nat, affected: nat, reporting: nat, fingerprints: nat, sdk: Metric)

  datatype Settings = Settings(minInstallations: int, minSdkCoverage: real)

  datatype MetricSet = MetricSet(
    javaCrashes: Metric, anrs: Metric, affected: Metric, active: Metric, ratio: Metric,
    fingerprints: Metric, lateRatio: Metric, sdkDropRate: Metric, crashFree: Metric, anrFree: Metric)

  datatype Slice = Slice(
    release: string, state: State, declared: nat, eligible: nat, excluded: int,
    releaseCoverage: Option<real>, installationCoverage: Option<real>, metrics: MetricSet)

  function Declared(w: Window, fs: seq<Fact>, release: string): seq<Fact> {
    Select(w, fs, Release(release))
  }

  function Eligible(w: Window, fs: seq<Fact>, release: string): seq<Fact> {
    Select(w, Declared(w, fs, release), Bound)
  }

  function Incidents(w: Window, fs: seq<Fact>, release: string): seq<Fact> {
    Select(w, Eligible(w, fs, release), Incident)
  }

  function SdkFacts(w: Window, fs: seq<Fact>, release: string): seq<Fact> {
    Select(w, Eligible(w, fs, release), OfFamily(SdkHealth))
  }

  function CountsOf(w: Window, fs: seq<Fact>, release: string): SliceCounts {
    var declared := Declared(w, fs, release);
    var eligible := Eligible(w, fs, release);
    var incidents := Incidents(w, fs, release);
    var sdk := SdkFacts(w, fs, release);
    SliceCounts(
      declared == [], eligible == [], incidents == [],
      Samples(w, declared), Samples(w, eligible), Samples(w, incidents),
      Samples(w, Select(w, incidents, OfFamily(JavaCrash))),
      Samples(w, Select(w, incidents, OfFamily(Anr))),
      Samples(w, Select(w, eligible, Identified)),
      Samples(w, Select(w, incidents, Identified)),
      Samples(w, Select(w, incidents, Fingerprinted)),
      Samples(w, Select(w, eligible, Late)),
      TallyOf(w, sdk, Every).dropped,
      |Keys(w, Select(w, eligible, Identified), ByInstallation)|,
      |Keys(w, Select(w, incidents, Identified), ByInstallation)|,
      |Keys(w, Select(w, Select(w, sdk, ValidHealth), Identified), ByInstallation)|,
      |Keys(w, Select(w, incidents, FingerprintText), ByFingerprint)|,
      SdkHealthMetric(w, sdk))
  }

  function Share(a: int, b: int): Option<real> {
    if b == 0 then None else Some(Ratio(a, b))
  }

  function AsFraction(r: Option<real>): Option<Number> {
    match r case Some(x) => Some(Fraction(x)) case None => None
  }

  /** Missing identity takes precedence over drops, drops over late data. */
  function Quality(c: SliceCounts): (State, Option<Reason>) {
    if c.noDeclared then (NO_DATA, None)
    else if c.noEligible then (UNAVAILABLE, Some(OccurrenceIdentityNotProvided))
    else if c.eligible < c.declared then (DEGRADED, Some(ReleaseCoverageIncomplete))
    else if c.identified < c.eligible then (DEGRADED, Some(InstallationCoverageIncomplete))
    else if c.dropped then (DEGRADED, Some(SdkReportedDrops))
    else if c.late > 0 then (LATE, Some(LateDataPresent))
    else (PRESENT, None)
  }

  function SdkCoverage(c: SliceCounts): Option<real> {
    Share(c.reporting, c.active)
  }

  function SdkMetric(c: SliceCounts, asOf: int): Metric {
    (if c.noDeclared then Bare(NO_DATA, asOf, 0, None) else c.sdk).(coverage := SdkCoverage(c))
  }

  /** The last gates: valid SDK health, enough of it, enough installations. */
  function Gate(c: SliceCounts, asOf: int, s: Settings): (State, Option<Reason>) {
    var quality := Quality(c);
    var sdk := SdkMetric(c, asOf);
    if quality.0 != PRESENT then quality
    else if sdk.state != PRESENT && sdk.state != ZERO then (sdk.state, sdk.reason)
    else if SdkCoverage(c).None? || SdkCoverage(c).value < s.minSdkCoverage then
      (UNKNOWN_COVERAGE, Some(SdkHealthCoverageIncomplete))
    else if c.active < s.minInstallations then (UNAVAILABLE, Some(InsufficientInstallations))
    else quality
  }

  function Unidentified(c: SliceCounts, asOf: int): Option<Metric> {
    if c.noDeclared then Some(Bare(NO_DATA, asOf, 0, None))
    else if c.noEligible then Some(Bare(UNAVAILABLE, asOf, c.declared, Some(OccurrenceIdentityNotProvided)))
    else if c.identified == 0 then Some(Bare(UNAVAILABLE, asOf, c.eligible, Some(InstallationIdentityNotProvided)))
    else None
  }

  function InstallState(c: SliceCounts): State {
    if c.identified < c.eligible then DEGRADED else PRESENT
  }

  function ActiveMetric(c: SliceCounts, asOf: int): Metric {
    match Unidentified(c, asOf)
    case Some(m) => m
    case None =>
      Metric(if c.active == 0 then ZERO else InstallState(c), asOf, c.eligible, Some(Whole(c.active)), None, None,
             Share(c.identified, c.eligible), None)
  }

  function AffectedMetric(c: SliceCounts, asOf: int): Metric {
    match Unidentified(c, asOf)
    case Some(m) => m
    case None =>
      Metric(if c.affected == 0 && InstallState(c) == PRESENT then ZERO else InstallState(c), asOf, c.incidents,
             Some(Whole(c.affected)), None, None,
             if c.noIncidents then Some(1.0) else Share(c.incidentsIdentified, c.incidents), None)
  }

  function UngatedRatio(c: SliceCounts, asOf: int): Metric {
    match Unidentified(c, asOf)
    case Some(m) => m
    case None =>
      if InstallState(c) == DEGRADED then
        Metric(DEGRADED, asOf, c.eligible, None, Some(c.affected), Some(c.active), Share(c.identified, c.eligible),
               Some(InstallationCoverageIncomplete))
      else if c.active == 0 then Metric(NO_DATA, asOf, c.eligible, None, Some(c.affected), Some(0), None, None)
      else
        Metric(if c.affected == 0 then ZERO else PRESENT, asOf, c.eligible, Some(Fraction(Ratio(c.affected, c.active))),
               Some(c.affected), Some(c.active), Some(1.0), None)
  }

  predicate GateCloses(c: SliceCounts, asOf: int, s: Settings) {
    Gate(c, asOf, s).0 != PRESENT && !c.noEligible
  }

  function RatioMetric(c: SliceCounts, asOf: int, s: Settings): Metric {
    var gate := Gate(c, asOf, s);
    if GateCloses(c, asOf, s) then
      Metric(gate.0, asOf, c.eligible, None, Some(c.affected), Some(c.active), Share(c.identified, c.eligible), gate.1)
    else UngatedRatio(c, asOf)
  }

  function FingerprintMetric(c: SliceCounts, asOf: int): Metric {
    var quality := Quality(c);
    var coverage := Share(c.incidentsFingerprinted, c.incidents);
    if c.noIncidents && !c.noEligible then Metric(ZERO, asOf, c.eligible, Some(Whole(0)), None, None, None, None)
    else if !c.noIncidents && c.fingerprints == 0 then Bare(UNAVAILABLE, asOf, c.incidents, Some(FingerprintNotProvided))
    else if !c.noIncidents then
      Metric(if coverage != Some(1.0) then DEGRADED else PRESENT, asOf, c.incidents, Some(Whole(c.fingerprints)), None, None,
             coverage, None)
    else Bare(quality.0, asOf, c.declared, quality.1)
  }

  function LateMetric(c: SliceCounts, asOf: int): Metric {
    if c.noDeclared then Bare(NO_DATA, asOf, 0, None)
    else if c.noEligible then Bare(UNAVAILABLE, asOf, c.declared, Some(OccurrenceIdentityNotProvided))
    else Metric(if c.late > 0 then LATE else ZERO, asOf, c.eligible, AsFraction(Share(c.late, c.eligible)),
                Some(c.late), Some(c.eligible), None, None)
  }

  function SliceOf(c: SliceCounts, release: string, asOf: int, s: Settings): Slice {
    var quality := Quality(c);
    var session := Bare(UNAVAILABLE, asOf, c.eligible, Some(SessionNotProvided));
    Slice(
      release, if GateCloses(c, asOf, s) then Gate(c, asOf, s).0 else quality.0,
      c.declared, c.eligible, c.declared - c.eligible,
      if c.noDeclared then None else Share(c.eligible, c.declared),
      if c.noEligible then None else Share(c.identified, c.eligible),
      MetricSet(
        CountMetric(c.java, c.eligible, asOf, quality.0, quality.1),
        CountMetric(c.anr, c.eligible, asOf, quality.0, quality.1),
        AffectedMetric(c, asOf), ActiveMetric(c, asOf), RatioMetric(c, asOf, s),
        FingerprintMetric(c, asOf), LateMetric(c, asOf), SdkMetric(c, asOf), session, session))
  }

  function ReleaseSlice(w: Window, fs: seq<Fact>, release: string, s: Settings): Slice {
    SliceOf(CountsOf(w, fs, release), release, w.toMs, s)
  }

  // ----- the response -----

  datatype TrendPoint = TrendPoint(
    startMs: int, endMs: int, newJava: Option<nat>, newAnr: Option<nat>,
    baselineJava: Option<nat>, baselineAnr: Option<nat>, newState: State, baselineState: State)

  datatype Comparison = Comparison(
    java: Option<int>, anr: Option<int>, affected: Option<int>, ratio: Option<real>)

  datatype Health = Health(newRelease: Slice, baseline: Slice, comparison: Comparison, trend: seq<TrendPoint>)

  function JoinedReason(w: Window, fs: seq<Fact>, newRelease: string, baseline: string): Option<Reason> {
    Continuity(w, Select(w, Select(w, fs, EitherRelease(newRelease, baseline)), Bound))
  }

  /** The installation metrics a broken key epoch overwrites. */
  function Overwrite(slice: Slice, asOf: int, reason: Option<Reason>): Slice {
    if reason.None? || slice.eligible == 0 then slice
    else
      var m := Bare(UNAVAILABLE, asOf, slice.eligible, reason);
      slice.(state := UNAVAILABLE, metrics := slice.metrics.(active := m, affected := m, ratio := m))
  }

  datatype BucketCounts = BucketCounts(java: Option<nat>, anr: Option<nat>, state: State)

  function BucketIncidents(w: Window, fs: seq<Fact>, release: string): BucketCounts {
    var declared := Select(w, fs, Release(release));
    var eligible := Select(w, declared, Bound);
    if declared == [] then BucketCounts(None, None, NO_DATA)
    else if eligible == [] then BucketCounts(None, None, UNAVAILABLE)
    else
      var java := Samples(w, Select(w, eligible, OfFamily(JavaCrash)));
      var anr := Samples(w, Select(w, eligible, OfFamily(Anr)));
      BucketCounts(Some(java), Some(anr),
                   if |eligible| < |declared| then DEGRADED else if java > 0 || anr > 0 then PRESENT else ZERO)
  }

  function BucketFacts(w: Window, fs: seq<Fact>, newRelease: string, baseline: string, i: int): seq<Fact> {
    Select(w, Select(w, fs, EitherRelease(newRelease, baseline)), InBucket(i))
  }

  function PointOf(w: Window, bucket: seq<Fact>, newRelease: string, baseline: string, i: int): TrendPoint {
    var n := BucketIncidents(w, bucket, newRelease);
    var b := BucketIncidents(w, bucket, baseline);
    TrendPoint(BucketStart(w, i), BucketEnd(w, i), n.java, n.anr, b.java, b.anr, n.state, b.state)
  }

  function IncidentTrend(w: Window, fs: seq<Fact>, newRelease: string, baseline: string): seq<TrendPoint> {
    seq(Max(0, BucketCount(w)), i => PointOf(w, BucketFacts(w, fs, newRelease, baseline, i), newRelease, baseline, i))
  }

  function Compare(a: Slice, b: Slice): Comparison {
    Comparison(
      MetricDelta(a.metrics.javaCrashes, b.metrics.javaCrashes), MetricDelta(a.metrics.anrs, b.metrics.anrs),
      MetricDelta(a.metrics.affected, b.metrics.affected), RatioDelta(a.metrics.ratio, b.metrics.ratio))
  }

  function HealthOf(w: Window, fs: seq<Fact>, newRelease: string, baseline: string, s: Settings): Health {
    var reason := JoinedReason(w, fs, newRelease, baseline);
    var a := Overwrite(ReleaseSlice(w, fs, newRelease, s), w.toMs, reason);
    var b := Overwrite(ReleaseSlice(w, fs, baseline, s), w.toMs, reason);
    Health(a, b, Compare(a, b), IncidentTrend(w, fs, newRelease, baseline))
  }

  // ----- equal views, equal answers -----

  lemma SameLists(w: Window, a: seq<Fact>, b: seq<Fact>, scenes: bool, release: string)
    requires SameView(w, a, b, scenes)
    ensures SameView(w, Declared(w, a, release), Declared(w, b, release), scenes)
    ensures SameView(w, Eligible(w, a, release), Eligible(w, b, release), scenes)
    ensures SameView(w, Incidents(w, a, release), Incidents(w, b, release), scenes)
    ensures SameView(w, SdkFacts(w, a, release), SdkFacts(w, b, release), scenes)
  {
    SelectView(w, a, b, scenes, Release(release));
    SelectView(w, Declared(w, a, release), Declared(w, b, release), scenes, Bound);
    SelectView(w, Eligible(w, a, release), Eligible(w, b, release), scenes, Incident);
    SelectView(w, Eligible(w, a, release), Eligible(w, b, release), scenes, OfFamily(SdkHealth));
  }

  /** Emptiness, totals and distinct keys of one comprehension agree. */
  lemma SameSelect(w: Window, a: seq<Fact>, b: seq<Fact>, scenes: bool, atom: Atom)
    requires SameView(w, a, b, scenes) && SceneFreeAtom(atom)
    ensures SameView(w, Select(w, a, atom), Select(w, b, atom), scenes)
    ensures Select(w, a, atom) == [] <==> Select(w, b, atom) == []
    ensures Samples(w, Select(w, a, atom)) == Samples(w, Select(w, b, atom))
    ensures forall dim: Dimension :: !dim.ByScene? ==> Keys(w, Select(w, a, atom), dim) == Keys(w, Select(w, b, atom), dim)
  {
    SelectView(w, a, b, scenes, atom);
    ViewFacts(w, Select(w, a, atom), Select(w, b, atom), scenes);
  }

  lemma SameEligibleCounts(w: Window, a: seq<Fact>, b: seq<Fact>, scenes: bool)
    requires SameView(w, a, b, scenes)
    ensures Samples(w, Select(w, a, Identified)) == Samples(w, Select(w, b, Identified))
    ensures Samples(w, Select(w, a, Late)) == Samples(w, Select(w, b, Late))
    ensures Keys(w, Select(w, a, Identified), ByInstallation) == Keys(w, Select(w, b, Identified), ByInstallation)
  {
    SameSelect(w, a, b, scenes, Identified);
    SameSelect(w, a, b, scenes, Late);
  }

  lemma SameIncidentCounts(w: Window, a: seq<Fact>, b: seq<Fact>, scenes: bool)
    requires SameView(w, a, b, scenes)
    ensures Samples(w, Select(w, a, OfFamily(JavaCrash))) == Samples(w, Select(w, b, OfFamily(JavaCrash)))
    ensures Samples(w, Select(w, a, OfFamily(Anr))) == Samples(w, Select(w, b, OfFamily(Anr)))
    ensures Samples(w, Select(w, a, Fingerprinted)) == Samples(w, Select(w, b, Fingerprinted))
    ensures Keys(w, Select(w, a, FingerprintText), ByFingerprint) == Keys(w, Select(w, b, FingerprintText), ByFingerprint)
  {
    SameSelect(w, a, b, scenes, OfFamily(JavaCrash));
    SameSelect(w, a, b, scenes, OfFamily(Anr));
    SameSelect(w, a, b, scenes, Fingerprinted);
    SameSelect(w, a, b, scenes, FingerprintText);
  }

  lemma SameReporting(w: Window, a: seq<Fact>, b: seq<Fact>, scenes: bool)
    requires SameView(w, a, b, scenes)
    ensures Keys(w, Select(w, Select(w, a, ValidHealth), Identified), ByInstallation)
            == Keys(w, Select(w, Select(w, b, ValidHealth), Identified), ByInstallation)
  {
    SelectView(w, a, b, scenes, ValidHealth);
    SameSelect(w, Select(w, a, ValidHealth), Select(w, b, ValidHealth), scenes, Identified);
  }

  lemma SameCounts(w: Window, a: seq<Fact>, b: seq<Fact>, scenes: bool, release: string)
    requires SameView(w, a, b, scenes)
    ensures CountsOf(w, a, release) == CountsOf(w, b, release)
  {
    SameLists(w, a, b, scenes, release);
    ViewFacts(w, Declared(w, a, release), Declared(w, b, release), scenes);
    ViewFacts(w, Eligible(w, a, release), Eligible(w, b, release), scenes);
    ViewFacts(w, Incidents(w, a, release), Incidents(w, b, release), scenes);
    ViewFacts(w, SdkFacts(w, a, release), SdkFacts(w, b, release), scenes);
    SameEligibleCounts(w, Eligible(w, a, release), Eligible(w, b, release), scenes);
    SameEligibleCounts(w, Incidents(w, a, release), Incidents(w, b, release), scenes);
    SameIncidentCounts(w, Incidents(w, a, release), Incidents(w, b, release), scenes);
    SameReporting(w, SdkFacts(w, a, release), SdkFacts(w, b, release), scenes);
    SameSdkHealth(w, SdkFacts(w, a, release), SdkFacts(w, b, release), scenes);
  }

  lemma {:induction false} SelectLength(w: Window, fs: seq<Fact>)
    ensures |Select(w, fs, Bound)| + |Select(w, fs, NotBound)| == |fs|
  {
    if fs != [] { SelectLength(w, fs[..|fs| - 1]); }
  }

  lemma SameBucket(w: Window, a: seq<Fact>, b: seq<Fact>, scenes: bool, release: string)
    requires SameView(w, a, b, scenes)
    ensures BucketIncidents(w, a, release) == BucketIncidents(w, b, release)
  {
    SameSelect(w, a, b, scenes, Release(release));
    var x, y := Select(w, a, Release(release)), Select(w, b, Release(release));
    SameSelect(w, x, y, scenes, Bound);
    SameSelect(w, x, y, scenes, NotBound);
    SelectLength(w, x);
    SelectLength(w, y);
    SameIncidentCounts(w, Select(w, x, Bound), Select(w, y, Bound), scenes);
  }

  lemma SameTrend(w: Window, a: seq<Fact>, b: seq<Fact>, scenes: bool, newRelease: string, baseline: string)
    requires SameView(w, a, b, scenes)
    ensures IncidentTrend(w, a, newRelease, baseline) == IncidentTrend(w, b, newRelease, baseline)
  {
    var either := EitherRelease(newRelease, baseline);
    SelectView(w, a, b, scenes, either);
    forall i ensures PointOf(w, BucketFacts(w, a, newRelease, baseline, i), newRelease, baseline, i)
                     == PointOf(w, BucketFacts(w, b, newRelease, baseline, i), newRelease, baseline, i)
    {
      SelectView(w, Select(w, a, either), Select(w, b, either), scenes, InBucket(i));
      SameBucket(w, BucketFacts(w, a, newRelease, baseline, i), BucketFacts(w, b, newRelease, baseline, i), scenes, newRelease);
      SameBucket(w, BucketFacts(w, a, newRelease, baseline, i), BucketFacts(w, b, newRelease, baseline, i), scenes, baseline);
    }
  }

  lemma SameJoinedReason(w: Window, a: seq<Fact>, b: seq<Fact>, scenes: bool, newRelease: string, baseline: string)
    requires SameView(w, a, b, scenes)
    ensures JoinedReason(w, a, newRelease, baseline) == JoinedReason(w, b, newRelease, baseline)
  {
    var either := EitherRelease(newRelease, baseline);
    SelectView(w, a, b, scenes, either);
    SelectView(w, Select(w, a, either), Select(w, b, either), scenes, Bound);
    SameContinuity(w, Select(w, Select(w, a, either), Bound), Select(w, Select(w, b, either), Bound), scenes);
  }

  /** Release health depends on the facts only through their view. */
  lemma SameHealth(w: Window, a: seq<Fact>, b: seq<Fact>, scenes: bool, newRelease: string, baseline: string, s: Settings)
    requires SameView(w, a, b, scenes)
    ensures HealthOf(w, a, newRelease, baseline, s) == HealthOf(w, b, newRelease, baseline, s)
  {
    SameCounts(w, a, b, scenes, newRelease);
    SameCounts(w, a, b, scenes, baseline);
    SameJoinedReason(w, a, b, scenes, newRelease, baseline);
    SameTrend(w, a, b, scenes, newRelease, baseline);
  }
}
