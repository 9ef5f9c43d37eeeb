/**
 * State-bearing metrics and the observations every builder shares.
 */
module Metrics {
  import opened Prelude
  import opened Facts

  datatype State = NO_DATA | ZERO | PRESENT | DEGRADED | LATE | UNAVAILABLE | UNKNOWN_COVERAGE

  datatype Reason =
    | OccurrenceIdentityNotProvided | InstallationIdentityNotProvided | SdkHealthNotProvided
    | SdkHealthInvalid | SdkReportedDrops | ReleaseCoverageIncomplete | InstallationCoverageIncomplete
    | LateDataPresent | SdkHealthCoverageIncomplete | InsufficientInstallations | FingerprintNotProvided
    | SessionNotProvided | HmacVersionMissing | HmacContinuityBreak | IdentityCoverageIncomplete
    | FingerprintNotFound | SceneNotProvided | SceneRetentionUnknown | SceneEvidenceExpired

  datatype Number = Whole(i: int) | Fraction(r: real)

  datatype Metric = Metric(
    state: State, asOf: int, samples: int, value: Option<Number>, numerator: Option<int>,
    denominator: Option<int>, coverage: Option<real>, reason: Option<Reason>)

  /** A metric that has no value. */
  function Bare(state: State, asOf: int, samples: int, reason: Option<Reason>): Metric {
    Metric(state, asOf, samples, None, None, None, None, reason)
  }

  function Ratio(a: int, b: int): real
    requires b != 0
  {
    a as real / b as real
  }

  /** HMAC key epochs cannot be joined: all identified facts must carry one key version. */
  function Continuity(w: Window, fs: seq<Fact>): Option<Reason> {
    var identified := Select(w, fs, Identified);
    if Select(w, identified, NoKeyVersion) != [] then Some(HmacVersionMissing)
    else if |Keys(w, identified, ByKeyVersion)| > 1 then Some(HmacContinuityBreak)
    else None
  }

  /** Distinct pseudonyms, only within one key epoch and with complete identity. */
  function InstallationCount(w: Window, fs: seq<Fact>, reason: Option<Reason>): Option<nat> {
    if reason.Some? then None
    else if Select(w, fs, NotIdentified) != [] then None
    else Some(|Keys(w, fs, ByInstallation)|)
  }

  function SdkHealthMetric(w: Window, fs: seq<Fact>): Metric {
    if fs == [] then Bare(UNAVAILABLE, w.toMs, 0, Some(SdkHealthNotProvided))
    else if Select(w, fs, InvalidHealth) != [] then Bare(UNAVAILABLE, w.toMs, Samples(w, fs), Some(SdkHealthInvalid))
    else
      var tally := TallyOf(w, fs, Every);
      Metric(if tally.dropped then DEGRADED else ZERO, w.toMs, Samples(w, fs),
             (match tally.rate case Some(r) => Some(Fraction(r)) case None => None),
             None, None, None, if tally.dropped then Some(SdkReportedDrops) else None)
  }

  function CoverageMetric(numerator: int, denominator: int, asOf: int, missing: Reason): Metric {
    if denominator == 0 then Bare(NO_DATA, asOf, 0, None)
    else if numerator == 0 then
      Metric(UNAVAILABLE, asOf, denominator, None, Some(0), Some(denominator), Some(0.0), Some(missing))
    else
      var coverage := Ratio(numerator, denominator);
      Metric(if numerator == denominator then PRESENT else DEGRADED, asOf, denominator, Some(Fraction(coverage)),
             Some(numerator), Some(denominator), Some(coverage),
             if numerator == denominator then None else Some(IdentityCoverageIncomplete))
  }

  function CountMetric(count: int, samples: int, asOf: int, quality: State, reason: Option<Reason>): Metric {
    if quality == NO_DATA || quality == UNAVAILABLE then Bare(quality, asOf, samples, reason)
    else
      var state := if quality != PRESENT then quality else if count == 0 then ZERO else PRESENT;
      Metric(state, asOf, samples, Some(Whole(count)), None, None, None, reason)
  }

  function MetricDelta(a: Metric, b: Metric): Option<int> {
    if a.value.Some? && a.value.value.Whole? && b.value.Some? && b.value.value.Whole?
    then Some(a.value.value.i - b.value.value.i) else None
  }

  function AsReal(n: Number): real {
    match n case Whole(i) => i as real case Fraction(r) => r
  }

  function RatioDelta(a: Metric, b: Metric): Option<real> {
    if (a.state == PRESENT || a.state == ZERO) && (b.state == PRESENT || b.state == ZERO) && a.value.Some? && b.value.Some?
    then Some(AsReal(a.value.value) - AsReal(b.value.value)) else None
  }

  // ----- two views give the same answers -----

  lemma SameContinuity(w: Window, a: seq<Fact>, b: seq<Fact>, scenes: bool)
    requires SameView(w, a, b, scenes)
    ensures Continuity(w, a) == Continuity(w, b)
  {
    SelectView(w, a, b, scenes, Identified);
    var x, y := Select(w, a, Identified), Select(w, b, Identified);
    ViewFacts(w, x, y, scenes);
    SelectView(w, x, y, scenes, NoKeyVersion);
    ViewFacts(w, Select(w, x, NoKeyVersion), Select(w, y, NoKeyVersion), scenes);
  }

  lemma SameInstallations(w: Window, a: seq<Fact>, b: seq<Fact>, scenes: bool, reason: Option<Reason>)
    requires SameView(w, a, b, scenes)
    ensures InstallationCount(w, a, reason) == InstallationCount(w, b, reason)
  {
    SelectView(w, a, b, scenes, NotIdentified);
    ViewFacts(w, Select(w, a, NotIdentified), Select(w, b, NotIdentified), scenes);
    ViewFacts(w, a, b, scenes);
  }

  lemma SameSdkHealth(w: Window, a: seq<Fact>, b: seq<Fact>, scenes: bool)
    requires SameView(w, a, b, scenes)
    ensures SdkHealthMetric(w, a) == SdkHealthMetric(w, b)
  {
    SelectView(w, a, b, scenes, InvalidHealth);
    ViewFacts(w, Select(w, a, InvalidHealth), Select(w, b, InvalidHealth), scenes);
    ViewFacts(w, a, b, scenes);
  }

  // ----- what continuity means -----

  lemma SelectEmptyIff(w: Window, fs: seq<Fact>, a: Atom)
    ensures Select(w, fs, a) == [] <==> forall f :: f in fs ==> !HoldsAtom(w, a, f)
  {
    if Select(w, fs, a) == [] {
      forall f | f in fs ensures !HoldsAtom(w, a, f) { SelectHas(w, fs, a, f); }
    } else {
      SelectHas(w, fs, a, Select(w, fs, a)[0]);
    }
  }

  /** There is one key version that every identified fact carries. */
  ghost predicate OneKeyEpoch(fs: seq<Fact>) {
    exists v: string :: AllCarry(fs, v)
  }

  predicate AllCarry(fs: seq<Fact>, version: string) {
    forall f :: f in fs && f.dims.core.hmac.Some? ==> f.dims.core.keyVersion == Some(version)
  }

  lemma ManyKeys(w: Window, fs: seq<Fact>, dim: Dimension)
    ensures |Keys(w, fs, dim)| > 1 <==> exists f, g :: f in fs && g in fs && KeyOf(dim, f) != KeyOf(dim, g)
  {
    KeysListTheSet(w, fs, dim);
    var all := KeySet(fs, dim);
    if f, g :| f in fs && g in fs && KeyOf(dim, f) != KeyOf(dim, g) {
      assert {KeyOf(dim, f), KeyOf(dim, g)} <= all;
      CardinalityMono({KeyOf(dim, f), KeyOf(dim, g)}, all);
    }
    if |all| > 1 {
      var x :| x in all;
      assert |all - {x}| > 0;
      var y :| y in all - {x};
    }
  }

  /** Continuity holds exactly when a single key version covers all identified facts. */
  lemma ContinuityIffOneEpoch(w: Window, fs: seq<Fact>)
    ensures Continuity(w, fs) == None <==> OneKeyEpoch(fs)
  {
    var identified := Select(w, fs, Identified);
    forall f ensures f in identified <==> f in fs && f.dims.core.hmac.Some? { SelectHas(w, fs, Identified, f); }
    SelectEmptyIff(w, identified, NoKeyVersion);
    ManyKeys(w, identified, ByKeyVersion);
    if Continuity(w, fs) == None {
      if identified == [] {
        assert AllCarry(fs, "");
      } else {
        var v := identified[0].dims.core.keyVersion;
        assert identified[0] in identified && v.Some?;
        forall f | f in fs && f.dims.core.hmac.Some? ensures f.dims.core.keyVersion == Some(v.value) {
          assert f in identified;
          assert KeyOf(ByKeyVersion, f) == KeyOf(ByKeyVersion, identified[0]);
        }
        assert AllCarry(fs, v.value);
      }
    }
  }
}
