/**
 * Issues: top fingerprints, and one issue's distributions and trend.
 */
module Issues {
  import opened Prelude
  import opened Facts
  import opened Metrics
  import opened Buckets
  import opened Sorting
  import opened ReleaseHealth

  // ----- top fingerprints -----

  datatype FingerprintItem = FingerprintItem(
    fingerprint: string, family: Family, events: nat, installations: Option<nat>, firstMs: int, lastMs: int)

  datatype FingerprintPage = FingerprintPage(
    state: State, samples: nat, coverage: Option<real>, reason: Option<Reason>, items: seq<FingerprintItem>)

  function FirstMs(t: Tally): Option<int> {
    if t.span.Span? then Some(t.span.first) else None
  }

  function LastMs(t: Tally): Option<int> {
    if t.span.Span? then Some(t.span.last) else None
  }

  function Known(t: Option<int>): int {
    if t.Some? then t.value else 0
  }

  function ItemOf(w: Window, group: seq<Fact>, key: Key, reason: Option<Reason>): FingerprintItem {
    var tally := TallyOf(w, group, Every);
    FingerprintItem(
      if key.Issue? then key.fingerprint else "", if key.Issue? then key.family else Unregistered,
      tally.count, InstallationCount(w, group, reason), Known(FirstMs(tally)), Known(LastMs(tally)))
  }

  /** Most events first, then latest seen, then fingerprint; ties keep the order of first appearance. */
  function FingerprintRank(item: FingerprintItem): Rank {
    Rank(-(item.events as int), -item.lastMs, item.fingerprint)
  }

  function FingerprintItems(w: Window, fs: seq<Fact>, keys: seq<Key>, reason: Option<Reason>): seq<FingerprintItem> {
    if keys == [] then []
    else
      var n := |keys| - 1;
      FingerprintItems(w, fs, keys[..n], reason) + [ItemOf(w, Select(w, fs, KeyIs(ByIssue, keys[n])), keys[n], reason)]
  }

  function FingerprintState(
    w: Window, declared: seq<Fact>, eligible: seq<Fact>, incidents: seq<Fact>, printed: seq<Fact>, reason: Option<Reason>): State
  {
    if reason.Some? && incidents != [] then DEGRADED
    else if declared == [] then NO_DATA
    else if eligible == [] then UNAVAILABLE
    else if incidents == [] then ZERO
    else if printed == [] then UNAVAILABLE
    else if Samples(w, printed) < Samples(w, incidents) then DEGRADED
    else PRESENT
  }

  function TopFingerprints(w: Window, fs: seq<Fact>, release: string, limit: nat): FingerprintPage {
    PageOf(w, Declared(w, fs, release), Eligible(w, fs, release), Incidents(w, fs, release), limit)
  }

  function PageOf(w: Window, declared: seq<Fact>, eligible: seq<Fact>, incidents: seq<Fact>, limit: nat): FingerprintPage {
    var printed := Select(w, incidents, Fingerprinted);
    var reason := Continuity(w, eligible);
    var items := FingerprintItems(w, printed, Keys(w, printed, ByIssue), reason);
    FingerprintPage(
      FingerprintState(w, declared, eligible, incidents, printed, reason),
      Samples(w, incidents),
      if incidents == [] then None else Share(Samples(w, printed), Samples(w, incidents)),
      reason, Take(SortBy(items, FingerprintRank), limit))
  }

  // ----- one issue -----

  datatype DistributionItem = DistributionItem(name: string, events: nat, installations: Option<nat>)

  datatype Coverage = Coverage(total: nat, available: nat, missing: nat, expired: nat, unknown: nat)

  datatype Distribution = Distribution(
    state: State, reason: Option<Reason>, items: seq<DistributionItem>, coverage: Coverage)

  datatype IssuePoint = IssuePoint(startMs: int, endMs: int, events: Option<nat>, installations: Option<nat>)

  datatype FamilyLabel = OneFamily(family: Family) | Mixed

  datatype IssueDetail = IssueDetail(
    state: State, reason: Option<Reason>, family: Option<FamilyLabel>, events: nat, installations: Option<nat>,
    firstMs: Option<int>, lastMs: Option<int>, trend: seq<IssuePoint>, releases: Distribution, scenes: Distribution)

  function DistributionItems(w: Window, fs: seq<Fact>, dim: Dimension, keys: seq<Key>, reason: Option<Reason>): seq<DistributionItem> {
    if keys == [] then []
    else
      var n := |keys| - 1;
      var group := Select(w, fs, KeyIs(dim, keys[n]));
      DistributionItems(w, fs, dim, keys[..n], reason)
      + [DistributionItem(NameOfKey(keys[n]), Samples(w, group), InstallationCount(w, group, reason))]
  }

  function DistributionRank(item: DistributionItem): Rank {
    Rank(-(item.events as int), 0, item.name)
  }

  function CoverageOf(w: Window, fs: seq<Fact>, dim: Dimension): Coverage {
    Coverage(
      Samples(w, fs),
      Samples(w, Select(w, fs, EvidenceIs(dim, Available))), Samples(w, Select(w, fs, EvidenceIs(dim, Missing))),
      Samples(w, Select(w, fs, EvidenceIs(dim, Expired))), Samples(w, Select(w, fs, EvidenceIs(dim, RetentionUnknown))))
  }

  function LabelledFacts(w: Window, fs: seq<Fact>, dim: Dimension): seq<Fact> {
    Select(w, Select(w, fs, EvidenceIs(dim, Available)), Labelled(dim))
  }

  function CoverageReason(c: Coverage, unavailable: Reason): Reason {
    if c.unknown > 0 then SceneRetentionUnknown else if c.expired > 0 then SceneEvidenceExpired else unavailable
  }

  /** The distribution once its items and coverage are known. */
  function Distribute(noFacts: bool, items: seq<DistributionItem>, c: Coverage, unavailable: Reason): Distribution {
    var sorted := Take(SortBy(items, DistributionRank), 10);
    if noFacts then Distribution(NO_DATA, None, sorted, c)
    else if items == [] then Distribution(UNAVAILABLE, Some(CoverageReason(c, unavailable)), sorted, c)
    else if c.expired + c.missing + c.unknown > 0 then Distribution(DEGRADED, Some(CoverageReason(c, unavailable)), sorted, c)
    else Distribution(PRESENT, None, sorted, c)
  }

  function IssueDistribution(w: Window, fs: seq<Fact>, dim: Dimension, unavailable: Reason): Distribution {
    var named := LabelledFacts(w, fs, dim);
    var items := DistributionItems(w, named, dim, Keys(w, named, dim), Continuity(w, fs));
    Distribute(fs == [], items, CoverageOf(w, fs, dim), unavailable)
  }

  function IssuePointOf(w: Window, group: seq<Fact>, reason: Option<Reason>, i: int): IssuePoint {
    IssuePoint(BucketStart(w, i), BucketEnd(w, i),
               if group == [] then None else Some(Samples(w, group)),
               if group == [] then None else InstallationCount(w, group, reason))
  }

  function IssueTrend(w: Window, fs: seq<Fact>): seq<IssuePoint> {
    seq(Max(0, BucketCount(w)), i => IssuePointOf(w, Select(w, fs, InBucket(i)), Continuity(w, fs), i))
  }

  function FamilyOfKeys(keys: seq<Key>): Option<FamilyLabel> {
    if keys == [] then None else if |keys| == 1 then Some(OneFamily(if keys[0].FamilyKey? then keys[0].family else Unregistered)) else Some(Mixed)
  }

  function IssueFacts(w: Window, fs: seq<Fact>, fingerprint: string): seq<Fact> {
    Select(w, Select(w, fs, FingerprintIs(fingerprint)), Incident)
  }

  function DetailOf(w: Window, fs: seq<Fact>, fingerprint: string): IssueDetail {
    var declared := IssueFacts(w, fs, fingerprint);
    var eligible := Select(w, declared, Bound);
    var reason := Continuity(w, eligible);
    var tally := TallyOf(w, eligible, Every);
    var verdict := if declared == [] then (NO_DATA, Some(FingerprintNotFound))
                   else if eligible == [] then (UNAVAILABLE, Some(OccurrenceIdentityNotProvided))
                   else if reason.Some? then (UNAVAILABLE, reason)
                   else (PRESENT, None);
    IssueDetail(
      verdict.0, verdict.1, FamilyOfKeys(Keys(w, eligible, ByFamily)), tally.count, InstallationCount(w, eligible, reason),
      FirstMs(tally), LastMs(tally), IssueTrend(w, eligible),
      IssueDistribution(w, eligible, ByRelease, OccurrenceIdentityNotProvided),
      IssueDistribution(w, eligible, ByScene, SceneNotProvided))
  }

  // ----- equal views, equal answers -----

  lemma SameItem(w: Window, a: seq<Fact>, b: seq<Fact>, scenes: bool, dim: Dimension, key: Key, reason: Option<Reason>)
    requires SameView(w, a, b, scenes) && (scenes || !dim.ByScene?)
    ensures TallyOf(w, Select(w, a, KeyIs(dim, key)), Every) == TallyOf(w, Select(w, b, KeyIs(dim, key)), Every)
    ensures InstallationCount(w, Select(w, a, KeyIs(dim, key)), reason) == InstallationCount(w, Select(w, b, KeyIs(dim, key)), reason)
  {
    SelectView(w, a, b, scenes, KeyIs(dim, key));
    ViewFacts(w, Select(w, a, KeyIs(dim, key)), Select(w, b, KeyIs(dim, key)), scenes);
    SameInstallations(w, Select(w, a, KeyIs(dim, key)), Select(w, b, KeyIs(dim, key)), scenes, reason);
  }

  lemma {:induction false} SameFingerprintItems(w: Window, a: seq<Fact>, b: seq<Fact>, scenes: bool, keys: seq<Key>, reason: Option<Reason>)
    requires SameView(w, a, b, scenes)
    ensures FingerprintItems(w, a, keys, reason) == FingerprintItems(w, b, keys, reason)
  {
    if keys != [] {
      SameFingerprintItems(w, a, b, scenes, keys[..|keys| - 1], reason);
      SameItem(w, a, b, scenes, ByIssue, keys[|keys| - 1], reason);
    }
  }

  lemma {:induction false} SameDistributionItems(
    w: Window, a: seq<Fact>, b: seq<Fact>, scenes: bool, dim: Dimension, keys: seq<Key>, reason: Option<Reason>)
    requires SameView(w, a, b, scenes) && (scenes || !dim.ByScene?)
    ensures DistributionItems(w, a, dim, keys, reason) == DistributionItems(w, b, dim, keys, reason)
  {
    if keys != [] {
      SameDistributionItems(w, a, b, scenes, dim, keys[..|keys| - 1], reason);
      SameItem(w, a, b, scenes, dim, keys[|keys| - 1], reason);
    }
  }

  lemma SamePage(w: Window, d1: seq<Fact>, d2: seq<Fact>, e1: seq<Fact>, e2: seq<Fact>, i1: seq<Fact>, i2: seq<Fact>, scenes: bool, limit: nat)
    requires SameView(w, d1, d2, scenes) && SameView(w, e1, e2, scenes) && SameView(w, i1, i2, scenes)
    ensures PageOf(w, d1, e1, i1, limit) == PageOf(w, d2, e2, i2, limit)
  {
    ViewFacts(w, d1, d2, scenes);
    ViewFacts(w, e1, e2, scenes);
    ViewFacts(w, i1, i2, scenes);
    SameContinuity(w, e1, e2, scenes);
    SameSelect(w, i1, i2, scenes, Fingerprinted);
    var x, y := Select(w, i1, Fingerprinted), Select(w, i2, Fingerprinted);
    SameFingerprintItems(w, x, y, scenes, Keys(w, x, ByIssue), Continuity(w, e1));
  }

  /** The top fingerprints, tie order included, depend on the facts only through their view. */
  lemma SameTopFingerprints(w: Window, a: seq<Fact>, b: seq<Fact>, scenes: bool, release: string, limit: nat)
    requires SameView(w, a, b, scenes)
    ensures TopFingerprints(w, a, release, limit) == TopFingerprints(w, b, release, limit)
  {
    SameLists(w, a, b, scenes, release);
    SamePage(w, Declared(w, a, release), Declared(w, b, release), Eligible(w, a, release), Eligible(w, b, release),
             Incidents(w, a, release), Incidents(w, b, release), scenes, limit);
  }

  lemma SameCoverage(w: Window, a: seq<Fact>, b: seq<Fact>, scenes: bool, dim: Dimension, e: Evidence)
    requires SameView(w, a, b, scenes) && (scenes || !dim.ByScene?)
    ensures SameView(w, Select(w, a, EvidenceIs(dim, e)), Select(w, b, EvidenceIs(dim, e)), scenes)
    ensures Samples(w, Select(w, a, EvidenceIs(dim, e))) == Samples(w, Select(w, b, EvidenceIs(dim, e)))
  {
    SelectView(w, a, b, scenes, EvidenceIs(dim, e));
    ViewFacts(w, Select(w, a, EvidenceIs(dim, e)), Select(w, b, EvidenceIs(dim, e)), scenes);
  }

  lemma SameDistribution(w: Window, a: seq<Fact>, b: seq<Fact>, scenes: bool, dim: Dimension, unavailable: Reason)
    requires SameView(w, a, b, scenes) && (scenes || !dim.ByScene?)
    ensures IssueDistribution(w, a, dim, unavailable) == IssueDistribution(w, b, dim, unavailable)
  {
    ViewFacts(w, a, b, scenes);
    SameContinuity(w, a, b, scenes);
    forall e ensures Samples(w, Select(w, a, EvidenceIs(dim, e))) == Samples(w, Select(w, b, EvidenceIs(dim, e))) {
      SameCoverage(w, a, b, scenes, dim, e);
    }
    SameCoverage(w, a, b, scenes, dim, Available);
    SelectView(w, Select(w, a, EvidenceIs(dim, Available)), Select(w, b, EvidenceIs(dim, Available)), scenes, Labelled(dim));
    var x, y := LabelledFacts(w, a, dim), LabelledFacts(w, b, dim);
    ViewFacts(w, x, y, scenes);
    SameDistributionItems(w, x, y, scenes, dim, Keys(w, x, dim), Continuity(w, a));
  }

  lemma SameIssueTrend(w: Window, a: seq<Fact>, b: seq<Fact>, scenes: bool)
    requires SameView(w, a, b, scenes)
    ensures IssueTrend(w, a) == IssueTrend(w, b)
  {
    SameContinuity(w, a, b, scenes);
    var reason := Continuity(w, a);
    forall i ensures IssuePointOf(w, Select(w, a, InBucket(i)), reason, i) == IssuePointOf(w, Select(w, b, InBucket(i)), reason, i) {
      SelectView(w, a, b, scenes, InBucket(i));
      ViewFacts(w, Select(w, a, InBucket(i)), Select(w, b, InBucket(i)), scenes);
      SameInstallations(w, Select(w, a, InBucket(i)), Select(w, b, InBucket(i)), scenes, reason);
    }
  }

  lemma SameIssueLists(w: Window, a: seq<Fact>, b: seq<Fact>, scenes: bool, fingerprint: string)
    requires SameView(w, a, b, scenes)
    ensures SameView(w, IssueFacts(w, a, fingerprint), IssueFacts(w, b, fingerprint), scenes)
    ensures SameView(w, Select(w, IssueFacts(w, a, fingerprint), Bound), Select(w, IssueFacts(w, b, fingerprint), Bound), scenes)
  {
    SelectView(w, a, b, scenes, FingerprintIs(fingerprint));
    SelectView(w, Select(w, a, FingerprintIs(fingerprint)), Select(w, b, FingerprintIs(fingerprint)), scenes, Incident);
    SelectView(w, IssueFacts(w, a, fingerprint), IssueFacts(w, b, fingerprint), scenes, Bound);
  }

  /** Issue detail depends on the facts only through their view; without scenes, in all but the scene part. */
  lemma SameDetail(w: Window, a: seq<Fact>, b: seq<Fact>, scenes: bool, fingerprint: string)
    requires SameView(w, a, b, scenes)
    ensures var x, y := DetailOf(w, a, fingerprint), DetailOf(w, b, fingerprint);
            x.(scenes := y.scenes) == y && (scenes ==> x == y)
  {
    SameIssueLists(w, a, b, scenes, fingerprint);
    ViewFacts(w, IssueFacts(w, a, fingerprint), IssueFacts(w, b, fingerprint), scenes);
    var x, y := Select(w, IssueFacts(w, a, fingerprint), Bound), Select(w, IssueFacts(w, b, fingerprint), Bound);
    ViewFacts(w, x, y, scenes);
    SameContinuity(w, x, y, scenes);
    SameInstallations(w, x, y, scenes, Continuity(w, x));
    SameIssueTrend(w, x, y, scenes);
    SameDistribution(w, x, y, scenes, ByRelease, OccurrenceIdentityNotProvided);
    if scenes { SameDistribution(w, x, y, scenes, ByScene, SceneNotProvided); }
  }
}
