/**
 * When the affected-installation ratio has a value, and what that value is.
 */
module RatioGate {
  import opened Prelude
  import opened Facts
  import opened Metrics
  import opened ReleaseHealth

  predicate OfRelease(f: Fact, release: string) {
    f.dims.core.appVersion == Some(release)
  }

  predicate IsIncident(f: Fact) {
    f.dims.core.family.JavaCrash? || f.dims.core.family.Anr?
  }

  predicate IsSdkHealth(f: Fact) {
    f.dims.core.family.SdkHealth?
  }

  /** Pseudonyms seen in occurrence-bound events of a release. */
  ghost function Active(fs: seq<Fact>, release: string): set<string> {
    set f | f in fs && OfRelease(f, release) && IsBound(f) && f.dims.core.hmac.Some? :: f.dims.core.hmac.value
  }

  /** Pseudonyms with a crash or an ANR. */
  ghost function Affected(fs: seq<Fact>, release: string): set<string> {
    set f | f in fs && OfRelease(f, release) && IsBound(f) && IsIncident(f) && f.dims.core.hmac.Some? :: f.dims.core.hmac.value
  }

  /** Pseudonyms with a valid health report. */
  ghost function Reporting(fs: seq<Fact>, release: string): set<string> {
    set f | f in fs && OfRelease(f, release) && IsBound(f) && IsSdkHealth(f) && IsHealthy(f) && f.dims.core.hmac.Some?
      :: f.dims.core.hmac.value
  }

  ghost predicate Observed(fs: seq<Fact>, release: string) {
    exists f :: f in fs && OfRelease(f, release)
  }

  ghost predicate EveryEventSound(fs: seq<Fact>, release: string) {
    forall f :: f in fs && OfRelease(f, release) ==> IsBound(f) && f.dims.core.hmac.Some? && !f.dims.core.late
  }

  ghost predicate HealthReported(fs: seq<Fact>, release: string) {
    && (exists f :: f in fs && OfRelease(f, release) && IsSdkHealth(f))
    && (forall f :: f in fs && OfRelease(f, release) && IsSdkHealth(f) ==> IsHealthy(f) && !ReportsDrops(f))
  }

  /** Facts of either release with a release identity frozen at occurrence. */
  predicate Joined(f: Fact, newRelease: string, baseline: string) {
    (OfRelease(f, newRelease) || OfRelease(f, baseline)) && IsBound(f)
  }

  ghost predicate OneEpochJoined(fs: seq<Fact>, newRelease: string, baseline: string) {
    exists v: string :: JoinedCarry(fs, newRelease, baseline, v)
  }

  predicate JoinedCarry(fs: seq<Fact>, newRelease: string, baseline: string, version: string) {
    forall f :: f in fs && Joined(f, newRelease, baseline) && f.dims.core.hmac.Some? ==> f.dims.core.keyVersion == Some(version)
  }

  /** The gates of one release slice. */
  ghost predicate SliceGates(fs: seq<Fact>, release: string, s: Settings) {
    && Observed(fs, release) && EveryEventSound(fs, release) && HealthReported(fs, release)
    && |Reporting(fs, release)| as real >= s.minSdkCoverage * |Active(fs, release)| as real
    && |Active(fs, release)| >= s.minInstallations
  }

  // ----- on the counts -----

  /** Counts of a list of facts that each stand for some events. */
  predicate Consistent(c: SliceCounts) {
    && (c.noDeclared <==> c.declared == 0) && (c.noEligible <==> c.eligible == 0) && (c.noIncidents <==> c.incidents == 0)
    && c.eligible <= c.declared && c.identified <= c.eligible
    && (c.active == 0 <==> c.identified == 0)
  }

  predicate CountsPass(c: SliceCounts, s: Settings) {
    && CountsSound(c) && CountsHealthy(c)
    && c.reporting as real >= s.minSdkCoverage * c.active as real && c.active >= s.minInstallations
  }

  lemma RatioAtLeast(a: nat, b: nat, min: real)
    requires b > 0
    ensures Ratio(a, b) >= min <==> a as real >= min * b as real
  {
  }

  lemma RatioHasValueIff(c: SliceCounts, asOf: int, s: Settings)
    requires Consistent(c)
    ensures RatioMetric(c, asOf, s).value.Some? <==> CountsPass(c, s)
    ensures CountsPass(c, s) ==> c.active > 0 && RatioMetric(c, asOf, s).value == Some(Fraction(Ratio(c.affected, c.active)))
  {
    if c.active > 0 { RatioAtLeast(c.reporting, c.active, s.minSdkCoverage); }
  }

  // ----- from counts to events -----

  lemma {:induction false} TallyComplement(w: Window, fs: seq<Fact>, yes: Atom, no: Atom)
    requires forall f :: f in fs ==> HoldsAtom(w, yes, f) == !HoldsAtom(w, no, f)
    ensures TallyOf(w, fs, And(yes, Every)).count + TallyOf(w, fs, And(no, Every)).count == Samples(w, fs)
  {
    if fs != [] {
      var n := |fs| - 1;
      assert forall f :: f in fs[..n] ==> f in fs;
      TallyComplement(w, fs[..n], yes, no);
      assert fs[n] in fs;
    }
  }

  lemma SelectCounted(w: Window, fs: seq<Fact>, a: Atom)
    requires AllCounted(fs)
    ensures AllCounted(Select(w, fs, a))
  {
    var r := Select(w, fs, a);
    forall i | 0 <= i < |r| ensures r[i].weight >= 1 { SelectHas(w, fs, a, r[i]); }
  }

  /** A comprehension keeps all samples exactly when its condition holds of every fact. */
  lemma AllSamplesIff(w: Window, fs: seq<Fact>, yes: Atom, no: Atom)
    requires AllCounted(fs)
    requires forall f :: f in fs ==> HoldsAtom(w, yes, f) == !HoldsAtom(w, no, f)
    ensures Samples(w, Select(w, fs, yes)) <= Samples(w, fs)
    ensures Samples(w, Select(w, fs, yes)) == Samples(w, fs) <==> forall f :: f in fs ==> HoldsAtom(w, yes, f)
  {
    TallyComplement(w, fs, yes, no);
    SelectTally(w, fs, yes, Every);
    SelectTally(w, fs, no, Every);
    SelectCounted(w, fs, no);
    EmptyIffNoSamples(w, Select(w, fs, no));
    SelectEmptyIff(w, fs, no);
  }

  /** No samples exactly when the condition holds of no fact. */
  lemma NoSamplesIff(w: Window, fs: seq<Fact>, a: Atom)
    requires AllCounted(fs)
    ensures Samples(w, Select(w, fs, a)) == 0 <==> forall f :: f in fs ==> !HoldsAtom(w, a, f)
  {
    SelectCounted(w, fs, a);
    EmptyIffNoSamples(w, Select(w, fs, a));
    SelectEmptyIff(w, fs, a);
  }

  lemma {:induction false} DroppedIff(w: Window, fs: seq<Fact>)
    ensures TallyOf(w, fs, Every).dropped <==> exists f :: f in fs && ReportsDrops(f)
  {
    if fs != [] {
      var n := |fs| - 1;
      DroppedIff(w, fs[..n]);
      assert fs == fs[..n] + [fs[n]];
      assert forall f :: f in fs <==> f == fs[n] || f in fs[..n];
      assert TallyOf(w, fs, Every).dropped <==> TallyOf(w, fs[..n], Every).dropped || ReportsDrops(fs[n]);
    }
  }

  lemma Members(w: Window, fs: seq<Fact>, release: string, f: Fact)
    ensures f in Declared(w, fs, release) <==> f in fs && OfRelease(f, release)
    ensures f in Eligible(w, fs, release) <==> f in fs && OfRelease(f, release) && IsBound(f)
    ensures f in Incidents(w, fs, release) <==> f in fs && OfRelease(f, release) && IsBound(f) && IsIncident(f)
    ensures f in SdkFacts(w, fs, release) <==> f in fs && OfRelease(f, release) && IsBound(f) && IsSdkHealth(f)
  {
    SelectHas(w, fs, Release(release), f);
    SelectHas(w, Declared(w, fs, release), Bound, f);
    SelectHas(w, Eligible(w, fs, release), Incident, f);
    SelectHas(w, Eligible(w, fs, release), OfFamily(SdkHealth), f);
  }

  lemma CountedLists(w: Window, fs: seq<Fact>, release: string)
    requires AllCounted(fs)
    ensures AllCounted(Declared(w, fs, release)) && AllCounted(Eligible(w, fs, release))
    ensures AllCounted(Incidents(w, fs, release)) && AllCounted(SdkFacts(w, fs, release))
  {
    SelectCounted(w, fs, Release(release));
    SelectCounted(w, Declared(w, fs, release), Bound);
    SelectCounted(w, Eligible(w, fs, release), Incident);
    SelectCounted(w, Eligible(w, fs, release), OfFamily(SdkHealth));
  }

  // ----- distinct installations are set sizes -----

  ghost function Texts(names: set<string>): set<Key> {
    set n | n in names :: Text(n)
  }

  lemma {:induction false} TextsSize(names: set<string>)
    ensures |Texts(names)| == |names|
  {
    if names == {} {
      assert Texts(names) == {};
    } else {
      var n :| n in names;
      TextsSize(names - {n});
      assert Texts(names) == Texts(names - {n}) + {Text(n)};
    }
  }

  lemma InstallationsAre(w: Window, fs: seq<Fact>, names: set<string>)
    requires forall n :: n in names <==> exists f :: f in fs && f.dims.core.hmac == Some(n)
    ensures |Keys(w, Select(w, fs, Identified), ByInstallation)| == |names|
  {
    var identified := Select(w, fs, Identified);
    KeysListTheSet(w, identified, ByInstallation);
    forall k ensures k in KeySet(identified, ByInstallation) <==> k in Texts(names) {
      if k in KeySet(identified, ByInstallation) {
        var f :| f in identified && KeyOf(ByInstallation, f) == k;
        SelectHas(w, fs, Identified, f);
        assert f.dims.core.hmac.value in names;
      }
      if k in Texts(names) {
        var f :| f in fs && f.dims.core.hmac == Some(k.text);
        SelectHas(w, fs, Identified, f);
        assert KeyOf(ByInstallation, f) == k;
      }
    }
    assert KeySet(identified, ByInstallation) == Texts(names);
    TextsSize(names);
  }

  lemma ActiveIs(w: Window, fs: seq<Fact>, release: string)
    ensures CountsOf(w, fs, release).active == |Active(fs, release)|
  {
    var eligible, names := Eligible(w, fs, release), Active(fs, release);
    forall f ensures f in eligible <==> f in fs && OfRelease(f, release) && IsBound(f) { Members(w, fs, release, f); }
    forall n ensures n in names <==> exists f :: f in eligible && f.dims.core.hmac == Some(n) {}
    InstallationsAre(w, eligible, names);
  }

  lemma AffectedIs(w: Window, fs: seq<Fact>, release: string)
    ensures CountsOf(w, fs, release).affected == |Affected(fs, release)|
  {
    var incidents, names := Incidents(w, fs, release), Affected(fs, release);
    forall f ensures f in incidents <==> f in fs && OfRelease(f, release) && IsBound(f) && IsIncident(f) { Members(w, fs, release, f); }
    forall n ensures n in names <==> exists f :: f in incidents && f.dims.core.hmac == Some(n) {}
    InstallationsAre(w, incidents, names);
  }

  lemma ReportingIs(w: Window, fs: seq<Fact>, release: string)
    ensures CountsOf(w, fs, release).reporting == |Reporting(fs, release)|
  {
    var valid, names := Select(w, SdkFacts(w, fs, release), ValidHealth), Reporting(fs, release);
    forall f ensures f in valid <==> f in fs && OfRelease(f, release) && IsBound(f) && IsSdkHealth(f) && IsHealthy(f) {
      Members(w, fs, release, f);
      SelectHas(w, SdkFacts(w, fs, release), ValidHealth, f);
    }
    forall n ensures n in names <==> exists f :: f in valid && f.dims.core.hmac == Some(n) {}
    InstallationsAre(w, valid, names);
  }

  // ----- assembling -----

  lemma ActiveIffIdentified(w: Window, fs: seq<Fact>)
    requires AllCounted(fs)
    ensures |Keys(w, Select(w, fs, Identified), ByInstallation)| == 0 <==> Samples(w, Select(w, fs, Identified)) == 0
  {
    var identified := Select(w, fs, Identified);
    SelectCounted(w, fs, Identified);
    EmptyIffNoSamples(w, identified);
    KeysListTheSet(w, identified, ByInstallation);
    if identified != [] { assert KeyOf(ByInstallation, identified[0]) in KeySet(identified, ByInstallation); }
    else { assert KeySet(identified, ByInstallation) == {}; }
  }

  lemma CountsAreConsistent(w: Window, fs: seq<Fact>, release: string)
    requires AllCounted(fs)
    ensures Consistent(CountsOf(w, fs, release))
  {
    CountedLists(w, fs, release);
    EmptyIffNoSamples(w, Declared(w, fs, release));
    EmptyIffNoSamples(w, Eligible(w, fs, release));
    EmptyIffNoSamples(w, Incidents(w, fs, release));
    AllSamplesIff(w, Declared(w, fs, release), Bound, NotBound);
    AllSamplesIff(w, Eligible(w, fs, release), Identified, NotIdentified);
    ActiveIffIdentified(w, Eligible(w, fs, release));
  }

  predicate ListSound(declared: seq<Fact>, eligible: seq<Fact>) {
    && declared != [] && (forall f :: f in declared ==> IsBound(f))
    && (forall f :: f in eligible ==> f.dims.core.hmac.Some? && !f.dims.core.late)
  }

  lemma AllBoundIff(w: Window, fs: seq<Fact>)
    requires AllCounted(fs)
    ensures Samples(w, Select(w, fs, Bound)) == Samples(w, fs) <==> forall f :: f in fs ==> IsBound(f)
  {
    AllSamplesIff(w, fs, Bound, NotBound);
  }

  lemma AllIdentifiedIff(w: Window, fs: seq<Fact>)
    requires AllCounted(fs)
    ensures Samples(w, Select(w, fs, Identified)) == Samples(w, fs) <==> forall f :: f in fs ==> f.dims.core.hmac.Some?
  {
    AllSamplesIff(w, fs, Identified, NotIdentified);
  }

  lemma NoneLateIff(w: Window, fs: seq<Fact>)
    requires AllCounted(fs)
    ensures Samples(w, Select(w, fs, Late)) == 0 <==> forall f :: f in fs ==> !f.dims.core.late
  {
    NoSamplesIff(w, fs, Late);
  }

  lemma CountsSoundIff(w: Window, declared: seq<Fact>, eligible: seq<Fact>)
    requires AllCounted(declared) && eligible == Select(w, declared, Bound)
    ensures && Samples(w, declared) > 0 && Samples(w, eligible) == Samples(w, declared)
            && Samples(w, Select(w, eligible, Identified)) == Samples(w, eligible) && Samples(w, Select(w, eligible, Late)) == 0
            <==> ListSound(declared, eligible)
  {
    SelectCounted(w, declared, Bound);
    EmptyIffNoSamples(w, declared);
    AllBoundIff(w, declared);
    AllIdentifiedIff(w, eligible);
    NoneLateIff(w, eligible);
  }

  lemma ListSoundIff(w: Window, fs: seq<Fact>, release: string)
    ensures ListSound(Declared(w, fs, release), Eligible(w, fs, release))
            <==> Observed(fs, release) && EveryEventSound(fs, release)
  {
    var declared, eligible := Declared(w, fs, release), Eligible(w, fs, release);
    forall f ensures f in declared <==> f in fs && OfRelease(f, release) { Members(w, fs, release, f); }
    forall f ensures f in eligible <==> f in fs && OfRelease(f, release) && IsBound(f) { Members(w, fs, release, f); }
    if declared != [] { assert declared[0] in declared; }
  }

  predicate CountsSound(c: SliceCounts) {
    c.declared > 0 && c.eligible == c.declared && c.identified == c.eligible && c.late == 0
  }

  /** Identity and lateness gates, on the counts and on the events. */
  lemma SoundIff(w: Window, fs: seq<Fact>, release: string)
    requires AllCounted(fs)
    ensures CountsSound(CountsOf(w, fs, release)) <==> Observed(fs, release) && EveryEventSound(fs, release)
  {
    SelectCounted(w, fs, Release(release));
    CountsSoundIff(w, Declared(w, fs, release), Eligible(w, fs, release));
    ListSoundIff(w, fs, release);
  }

  predicate ListHealthy(sdk: seq<Fact>) {
    sdk != [] && forall f :: f in sdk ==> IsHealthy(f) && !ReportsDrops(f)
  }

  lemma SdkHealthyIff(w: Window, sdk: seq<Fact>)
    ensures var m := SdkHealthMetric(w, sdk);
            (!TallyOf(w, sdk, Every).dropped && (m.state == PRESENT || m.state == ZERO)) <==> ListHealthy(sdk)
  {
    DroppedIff(w, sdk);
    SelectEmptyIff(w, sdk, InvalidHealth);
  }

  lemma ListHealthyIff(w: Window, fs: seq<Fact>, release: string)
    requires EveryEventSound(fs, release)
    ensures ListHealthy(SdkFacts(w, fs, release)) <==> HealthReported(fs, release)
  {
    var sdk := SdkFacts(w, fs, release);
    forall f ensures f in sdk <==> f in fs && OfRelease(f, release) && IsSdkHealth(f) { Members(w, fs, release, f); }
    if sdk != [] { assert sdk[0] in sdk; }
  }

  predicate CountsHealthy(c: SliceCounts) {
    !c.dropped && (c.sdk.state == PRESENT || c.sdk.state == ZERO)
  }

  lemma HealthIff(w: Window, fs: seq<Fact>, release: string)
    requires EveryEventSound(fs, release)
    ensures CountsHealthy(CountsOf(w, fs, release)) <==> HealthReported(fs, release)
  {
    SdkHealthyIff(w, SdkFacts(w, fs, release));
    ListHealthyIff(w, fs, release);
  }

  lemma JoinedIff(w: Window, fs: seq<Fact>, newRelease: string, baseline: string)
    ensures JoinedReason(w, fs, newRelease, baseline) == None <==> OneEpochJoined(fs, newRelease, baseline)
  {
    var either := Select(w, fs, EitherRelease(newRelease, baseline));
    var both := Select(w, either, Bound);
    ContinuityIffOneEpoch(w, both);
    forall f ensures f in both <==> f in fs && Joined(f, newRelease, baseline) {
      SelectHas(w, fs, EitherRelease(newRelease, baseline), f);
      SelectHas(w, either, Bound, f);
    }
    forall v: string ensures AllCarry(both, v) <==> JoinedCarry(fs, newRelease, baseline, v) {}
  }

  lemma SliceGatesIff(w: Window, fs: seq<Fact>, release: string, s: Settings)
    requires AllCounted(fs)
    ensures CountsPass(CountsOf(w, fs, release), s) <==> SliceGates(fs, release, s)
  {
    SoundIff(w, fs, release);
    ActiveIs(w, fs, release);
    ReportingIs(w, fs, release);
    if EveryEventSound(fs, release) { HealthIff(w, fs, release); }
    PassIff(CountsOf(w, fs, release), fs, release, s);
  }

  lemma PassIff(c: SliceCounts, fs: seq<Fact>, release: string, s: Settings)
    requires CountsSound(c) <==> Observed(fs, release) && EveryEventSound(fs, release)
    requires EveryEventSound(fs, release) ==> (CountsHealthy(c) <==> HealthReported(fs, release))
    requires c.active == |Active(fs, release)| && c.reporting == |Reporting(fs, release)|
    ensures CountsPass(c, s) <==> SliceGates(fs, release, s)
  {
  }

  lemma AffectedAreActive(fs: seq<Fact>, release: string)
    ensures Affected(fs, release) <= Active(fs, release)
    ensures |Affected(fs, release)| <= |Active(fs, release)|
  {
    CardinalityMono(Affected(fs, release), Active(fs, release));
  }

  lemma RatioBetween(a: nat, b: nat)
    requires a <= b && b > 0
    ensures 0.0 <= Ratio(a, b) <= 1.0
  {
  }

  /**
   * The ratio of either release has a value if and only if every gate holds, and the value is then the
   * number of distinct affected installations over the number of distinct active ones, within [0, 1].
   */
  lemma RatioIffAllGates(w: Window, fs: seq<Fact>, newRelease: string, baseline: string, release: string, s: Settings)
    requires AllCounted(fs) && (release == newRelease || release == baseline)
    ensures var h := HealthOf(w, fs, newRelease, baseline, s);
            var ratio := (if release == newRelease then h.newRelease else h.baseline).metrics.ratio;
            var active, affected := Active(fs, release), Affected(fs, release);
            && (ratio.value.Some? <==> SliceGates(fs, release, s) && OneEpochJoined(fs, newRelease, baseline))
            && (ratio.value.Some? ==>
                  && |active| > 0 && ratio.value == Some(Fraction(Ratio(|affected|, |active|)))
                  && 0.0 <= Ratio(|affected|, |active|) <= 1.0)
  {
    var c := CountsOf(w, fs, release);
    CountsAreConsistent(w, fs, release);
    RatioHasValueIff(c, w.toMs, s);
    SliceGatesIff(w, fs, release, s);
    JoinedIff(w, fs, newRelease, baseline);
    ActiveIs(w, fs, release);
    AffectedIs(w, fs, release);
    AffectedAreActive(fs, release);
    if c.active > 0 { RatioBetween(c.affected, c.active); }
    ReportedRatio(w, fs, newRelease, baseline, release, s, c);
  }

  /** The reported ratio: the slice's own, unless the two releases do not share one key. */
  lemma ReportedRatio(w: Window, fs: seq<Fact>, newRelease: string, baseline: string, release: string, s: Settings, c: SliceCounts)
    requires (release == newRelease || release == baseline) && c == CountsOf(w, fs, release)
    ensures var h := HealthOf(w, fs, newRelease, baseline, s);
            var ratio := (if release == newRelease then h.newRelease else h.baseline).metrics.ratio;
            if JoinedReason(w, fs, newRelease, baseline).None? || c.eligible == 0 then ratio == RatioMetric(c, w.toMs, s) else ratio.value.None?
  {
    var slice := ReleaseSlice(w, fs, release, s);
    assert slice.metrics.ratio == RatioMetric(c, w.toMs, s) && slice.eligible == c.eligible;
  }
}
