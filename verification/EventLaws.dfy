/**
 * What the reduction counts, read off the stored events themselves: every column of a fact is a
 * column of its event, every filter asks the event, and every count is the number of events.
 */
module EventLaws {
  import opened Prelude
  import J = Sanitizer
  import N = Normalization
  import opened Facts
  import opened WindowFacts
  import opened Metrics
  import opened ReleaseHealth
  import Grouping
  import RatioGate

  // ----- one event -----

  /** The event of this tenant, app and environment lies in the window and passes the query's filters. */
  predicate Seen(q: Query, e: StoredEvent) {
    && e.scope.tenant == q.scope.tenant && e.scope.app == q.scope.app && e.scope.environment == q.scope.environment
    && q.window.fromMs <= e.occurredMs && e.occurredMs < q.window.toMs
    && (q.releases != None ==> e.appVersion != None && e.appVersion.value in q.releases.value)
    && (q.fingerprint != None ==> e.fingerprint != None && e.fingerprint.value == q.fingerprint.value)
  }

  lemma SeenIff(q: Query, e: StoredEvent)
    ensures Matches(q, e) <==> Seen(q, e)
  {
  }

  predicate Named(e: StoredEvent, moduleName: string, name: string) {
    e.moduleName == Some(moduleName) && e.eventName == Some(name)
  }

  predicate JavaCrashEvent(e: StoredEvent) { Named(e, "crash", "java_crash") }

  predicate AnrEvent(e: StoredEvent) { Named(e, "anr", "anr_detected") }

  predicate AppExitEvent(e: StoredEvent) { Named(e, "crash", "app_exit") }

  predicate HealthEvent(e: StoredEvent) { Named(e, "core", "sdk_health") }

  predicate Crashed(e: StoredEvent) { JavaCrashEvent(e) || AnrEvent(e) }

  predicate OfVersion(e: StoredEvent, release: string) { e.appVersion == Some(release) }

  /** Its release identity was frozen when it occurred. */
  predicate Frozen(e: StoredEvent) { e.releaseQuality == OCCURRENCE_BOUND }

  predicate HasInt(e: StoredEvent, k: N.Field, i: int) {
    k in e.normalized.registered && e.normalized.registered[k] == J.Int(i)
  }

  predicate HasNumber(e: StoredEvent, k: N.Field, x: real) {
    k in e.normalized.registered && (e.normalized.registered[k] == J.Num(x) || (HasInt(e, k, x.Floor) && x.Floor as real == x))
  }

  /** The SDK reported a non-empty emission, its drop count, and a drop rate that is a ratio. */
  ghost predicate HealthyEvent(e: StoredEvent) {
    && (exists i :: HasInt(e, N.EmitCount, i) && i > 0)
    && (exists i :: HasInt(e, N.DropCount, i) && i >= 0)
    && (exists x :: HasNumber(e, N.DropRate, x) && 0.0 <= x <= 1.0)
  }

  ghost predicate DroppingEvent(e: StoredEvent) {
    || (exists i :: HasInt(e, N.DropCount, i) && i > 0)
    || (exists x :: HasNumber(e, N.DropRate, x) && x > 0.0)
  }

  lemma IntColumnIs(e: StoredEvent, k: N.Field)
    ensures var v := N.IntColumn(e.normalized.registered, k);
            && (v != None ==> HasInt(e, k, v.value)) && (v == None ==> forall i :: !HasInt(e, k, i))
  {
  }

  lemma NumberColumnIs(e: StoredEvent, k: N.Field)
    ensures var v := N.NumberColumn(e.normalized.registered, k);
            && (v != None ==> HasNumber(e, k, v.value)) && (forall x :: HasNumber(e, k, x) ==> v == Some(x))
  {
    var m := e.normalized.registered;
    if k in m && m[k].Int? {
      assert (m[k].i as real).Floor == m[k].i;
    }
  }

  /** Every column of an event's fact is a column of the event. */
  lemma FactColumns(w: Window, e: StoredEvent)
    ensures var f := EventFact(w, e); var core := f.dims.core;
            && core.appVersion == e.appVersion && core.releaseQuality == e.releaseQuality
            && core.installationQuality == e.installationQuality && core.hmac == e.hmac && core.keyVersion == e.keyVersion
            && core.fingerprint == e.fingerprint && core.schemaVersion == e.schemaVersion && core.protocol == e.protocol
            && core.status == e.status && core.moduleName == e.moduleName && core.eventName == e.eventName
            && core.late == e.late && f.id == e.id && f.first == e.occurredMs && f.last == e.occurredMs && f.weight == 1
            && f.dims.scene == (if e.pruned then None else e.scene)
  {
  }

  lemma FamilyIs(w: Window, e: StoredEvent)
    ensures var family := EventFact(w, e).dims.core.family;
            && (family == JavaCrash <==> JavaCrashEvent(e)) && (family == Anr <==> AnrEvent(e))
            && (family == AppExit <==> AppExitEvent(e)) && (family == SdkHealth <==> HealthEvent(e))
  {
    var m, n := OrEmpty(e.moduleName), OrEmpty(e.eventName);
    assert e.moduleName == Some(m) || m == "";
    assert e.eventName == Some(n) || n == "";
  }

  /** Evidence of the scene: present while it is kept, then whatever retention recorded. */
  lemma SceneStateIs(w: Window, e: StoredEvent)
    ensures var state := EventFact(w, e).dims.sceneState;
            && (state == Available <==> !e.pruned && e.scene != None && e.scene.value != "")
            && (state == Missing <==> if e.pruned then e.retainedScene == Some("MISSING") else e.scene == None || e.scene.value == "")
            && (state == Expired <==> e.pruned && e.retainedScene == Some("EXPIRED"))
            && (state == RetentionUnknown <==> e.pruned && e.retainedScene != Some("EXPIRED") && e.retainedScene != Some("MISSING"))
  {
  }

  lemma HealthIs(w: Window, e: StoredEvent)
    ensures IsHealthy(EventFact(w, e)) <==> HealthyEvent(e)
    ensures EventFact(w, e).dims.core.healthy <==> HealthyEvent(e)
    ensures ReportsDrops(EventFact(w, e)) <==> DroppingEvent(e)
    ensures forall x :: EventFact(w, e).rate == Some(x) <==> HasNumber(e, N.DropRate, x)
  {
    IntColumnIs(e, N.EmitCount);
    IntColumnIs(e, N.DropCount);
    NumberColumnIs(e, N.DropRate);
  }

  // ----- counting events -----

  /** `ids` are the positions of the seen events whose facts a selection takes. */
  ghost predicate Picks(q: Query, table: seq<StoredEvent>, sel: Sel, ids: set<nat>) {
    forall i: nat :: i in ids <==> i < |table| && Seen(q, table[i]) && Holds(q.window, sel, EventFact(q.window, table[i]))
  }

  predicate PicksOne(q: Query, sel: Sel, e: StoredEvent) {
    Seen(q, e) && Holds(q.window, sel, EventFact(q.window, e))
  }

  lemma LastCounts(q: Query, table: seq<StoredEvent>, sel: Sel)
    requires table != []
    ensures var n := |table| - 1;
            TallyOf(q.window, EventFacts(q, table), sel).count
            == TallyOf(q.window, EventFacts(q, table[..n]), sel).count + (if PicksOne(q, sel, table[n]) then 1 else 0)
  {
    var n := |table| - 1;
    SeenIff(q, table[n]);
    if Matches(q, table[n]) { TallySnoc(q.window, EventFacts(q, table[..n]), EventFact(q.window, table[n]), sel); }
  }

  lemma WithoutLast(ids: set<nat>, n: nat)
    ensures |ids| == |ids - {n}| + (if n in ids then 1 else 0)
  {
    assert ids == (ids - {n}) + (if n in ids then {n} else {});
  }

  lemma PicksFront(q: Query, table: seq<StoredEvent>, sel: Sel, ids: set<nat>)
    requires table != [] && Picks(q, table, sel, ids)
    ensures Picks(q, table[..|table| - 1], sel, ids - {|table| - 1})
  {
    var n := |table| - 1;
    forall i: nat
      ensures i in ids - {n} <==> i < n && Seen(q, table[..n][i]) && Holds(q.window, sel, EventFact(q.window, table[..n][i]))
    {
      if i < n { assert table[..n][i] == table[i]; }
    }
  }

  /** Counting facts by weight counts the events. */
  lemma {:induction false} CountIs(q: Query, table: seq<StoredEvent>, sel: Sel, ids: set<nat>)
    requires Picks(q, table, sel, ids)
    ensures TallyOf(q.window, EventFacts(q, table), sel).count == |ids|
  {
    if table == [] {
      assert ids == {};
    } else {
      PicksFront(q, table, sel, ids);
      CountIs(q, table[..|table| - 1], sel, ids - {|table| - 1});
      LastCounts(q, table, sel);
      WithoutLast(ids, |table| - 1);
    }
  }

  /** Positions of the events of one release that the query sees. */
  ghost function ReleaseEvents(q: Query, table: seq<StoredEvent>, release: string): set<nat> {
    set i | 0 <= i < |table| && Seen(q, table[i]) && OfVersion(table[i], release)
  }

  ghost function FrozenEvents(q: Query, table: seq<StoredEvent>, release: string): set<nat> {
    set i | i in ReleaseEvents(q, table, release) && Frozen(table[i])
  }

  lemma TwoFilters(w: Window, fs: seq<Fact>, a: Atom, b: Atom)
    ensures Samples(w, Select(w, Select(w, fs, a), b)) == TallyOf(w, fs, And(a, And(b, Every))).count
  {
    SelectTally(w, Select(w, fs, a), b, Every);
    SelectTally(w, fs, a, And(b, Every));
  }

  lemma ThreeFilters(w: Window, fs: seq<Fact>, a: Atom, b: Atom, c: Atom)
    ensures Samples(w, Select(w, Select(w, Select(w, fs, a), b), c)) == TallyOf(w, fs, And(a, And(b, And(c, Every)))).count
  {
    TwoFilters(w, Select(w, fs, a), b, c);
    SelectTally(w, fs, a, And(b, And(c, Every)));
  }

  lemma FourFilters(w: Window, fs: seq<Fact>, a: Atom, b: Atom, c: Atom, d: Atom)
    ensures Samples(w, Select(w, Select(w, Select(w, Select(w, fs, a), b), c), d))
            == TallyOf(w, fs, And(a, And(b, And(c, And(d, Every))))).count
  {
    ThreeFilters(w, Select(w, fs, a), b, c, d);
    SelectTally(w, fs, a, And(b, And(c, And(d, Every))));
  }

  lemma HoldsTwo(w: Window, a: Atom, b: Atom, f: Fact)
    ensures Holds(w, And(a, And(b, Every)), f) <==> HoldsAtom(w, a, f) && HoldsAtom(w, b, f)
  {
    assert Holds(w, And(b, Every), f) == HoldsAtom(w, b, f);
  }

  lemma HoldsThree(w: Window, a: Atom, b: Atom, c: Atom, f: Fact)
    ensures Holds(w, And(a, And(b, And(c, Every))), f) <==> HoldsAtom(w, a, f) && HoldsAtom(w, b, f) && HoldsAtom(w, c, f)
  {
    HoldsTwo(w, b, c, f);
  }

  lemma HoldsFour(w: Window, a: Atom, b: Atom, c: Atom, d: Atom, f: Fact)
    ensures Holds(w, And(a, And(b, And(c, And(d, Every)))), f)
            <==> HoldsAtom(w, a, f) && HoldsAtom(w, b, f) && HoldsAtom(w, c, f) && HoldsAtom(w, d, f)
  {
    HoldsThree(w, b, c, d, f);
  }

  /** The counts of a release, from the events. */
  lemma DeclaredAre(q: Query, table: seq<StoredEvent>, release: string)
    ensures var fs := EventFacts(q, table);
            && Samples(q.window, Declared(q.window, fs, release)) == |ReleaseEvents(q, table, release)|
            && Samples(q.window, Eligible(q.window, fs, release)) == |FrozenEvents(q, table, release)|
  {
    var w, fs := q.window, EventFacts(q, table);
    SelectTally(w, fs, Release(release), Every);
    CountIs(q, table, And(Release(release), Every), ReleaseEvents(q, table, release));
    TwoFilters(w, fs, Release(release), Bound);
    forall i: nat | i < |table| { HoldsTwo(w, Release(release), Bound, EventFact(w, table[i])); }
    CountIs(q, table, And(Release(release), And(Bound, Every)), FrozenEvents(q, table, release));
  }

  // Every filter the builders use asks the event itself.

  lemma ReleaseFilters(w: Window, e: StoredEvent, release: string)
    ensures HoldsAtom(w, Release(release), EventFact(w, e)) <==> OfVersion(e, release)
    ensures HoldsAtom(w, Bound, EventFact(w, e)) <==> Frozen(e)
    ensures HoldsAtom(w, NotBound, EventFact(w, e)) <==> !Frozen(e)
  {
    FactColumns(w, e);
  }

  lemma FamilyFilters(w: Window, e: StoredEvent)
    ensures HoldsAtom(w, Incident, EventFact(w, e)) <==> Crashed(e)
    ensures HoldsAtom(w, OfFamily(JavaCrash), EventFact(w, e)) <==> JavaCrashEvent(e)
    ensures HoldsAtom(w, OfFamily(Anr), EventFact(w, e)) <==> AnrEvent(e)
    ensures HoldsAtom(w, OfFamily(SdkHealth), EventFact(w, e)) <==> HealthEvent(e)
  {
    FamilyIs(w, e);
  }

  lemma ColumnFilters(w: Window, e: StoredEvent)
    ensures var f := EventFact(w, e);
            && (HoldsAtom(w, Identified, f) <==> e.hmac != None) && (HoldsAtom(w, NotIdentified, f) <==> e.hmac == None)
            && (HoldsAtom(w, NoKeyVersion, f) <==> e.keyVersion == None)
            && (HoldsAtom(w, Fingerprinted, f) <==> e.fingerprint != None)
            && (HoldsAtom(w, FingerprintText, f) <==> e.fingerprint != None && e.fingerprint.value != "")
            && (HoldsAtom(w, Late, f) <==> e.late)
  {
    FactColumns(w, e);
  }

  lemma FingerprintFilter(w: Window, e: StoredEvent, fingerprint: string)
    ensures HoldsAtom(w, FingerprintIs(fingerprint), EventFact(w, e)) <==> e.fingerprint == Some(fingerprint)
  {
    FactColumns(w, e);
  }

  lemma HealthFilters(w: Window, e: StoredEvent)
    ensures HoldsAtom(w, ValidHealth, EventFact(w, e)) <==> HealthyEvent(e)
    ensures HoldsAtom(w, InvalidHealth, EventFact(w, e)) <==> !HealthyEvent(e)
  {
    HealthIs(w, e);
  }

  predicate Carries(key: Key, v: Option<string>) {
    match v case Some(text) => key == Text(text) case None => key == NoKey
  }

  /** Releases, scenes and protocols are grouped by the event's own columns. */
  lemma DimensionFilters(w: Window, e: StoredEvent, key: Key)
    ensures HoldsAtom(w, KeyIs(ByRelease, key), EventFact(w, e)) <==> Carries(key, e.appVersion)
    ensures HoldsAtom(w, KeyIs(ByScene, key), EventFact(w, e)) <==> Carries(key, if e.pruned then None else e.scene)
    ensures HoldsAtom(w, KeyIs(ByProtocol, key), EventFact(w, e)) <==> key == Text(e.protocol)
  {
    FactColumns(w, e);
  }

  /** So are schema versions and statuses. */
  lemma StatusFilters(w: Window, e: StoredEvent, key: Key)
    ensures HoldsAtom(w, KeyIs(BySchema, key), EventFact(w, e)) <==> key == Text(e.schemaVersion)
    ensures HoldsAtom(w, KeyIs(ByStatus, key), EventFact(w, e)) <==> key == Text(e.status)
  {
    FactColumns(w, e);
  }

  /** So are installations, their key versions and fingerprints. */
  lemma IdentityFilters(w: Window, e: StoredEvent, key: Key)
    ensures HoldsAtom(w, KeyIs(ByInstallation, key), EventFact(w, e)) <==> Carries(key, e.hmac)
    ensures HoldsAtom(w, KeyIs(ByKeyVersion, key), EventFact(w, e)) <==> Carries(key, e.keyVersion)
    ensures HoldsAtom(w, KeyIs(ByFingerprint, key), EventFact(w, e)) <==> Carries(key, e.fingerprint)
  {
    FactColumns(w, e);
  }

  /** An issue is a fingerprint together with the kind of event; two families never share one. */
  lemma IssueFilters(w: Window, e: StoredEvent, fingerprint: string)
    ensures HoldsAtom(w, KeyIs(ByIssue, Issue(fingerprint, JavaCrash)), EventFact(w, e)) <==> e.fingerprint == Some(fingerprint) && JavaCrashEvent(e)
    ensures HoldsAtom(w, KeyIs(ByIssue, Issue(fingerprint, Anr)), EventFact(w, e)) <==> e.fingerprint == Some(fingerprint) && AnrEvent(e)
    ensures HoldsAtom(w, KeyIs(ByFamily, FamilyKey(JavaCrash)), EventFact(w, e)) <==> JavaCrashEvent(e)
    ensures HoldsAtom(w, KeyIs(ByFamily, FamilyKey(Anr)), EventFact(w, e)) <==> AnrEvent(e)
  {
    FactColumns(w, e);
    FamilyIs(w, e);
  }

  /** Releases are available when named; scenes have the evidence state retention leaves. */
  lemma EvidenceFilters(w: Window, e: StoredEvent)
    ensures var f := EventFact(w, e);
            && (HoldsAtom(w, EvidenceIs(ByRelease, Available), f) <==> e.appVersion != None && e.appVersion.value != "")
            && (HoldsAtom(w, EvidenceIs(ByRelease, Missing), f) <==> e.appVersion == None || e.appVersion.value == "")
            && !HoldsAtom(w, EvidenceIs(ByRelease, Expired), f) && !HoldsAtom(w, EvidenceIs(ByRelease, RetentionUnknown), f)
            && (HoldsAtom(w, Labelled(ByRelease), f) <==> e.appVersion != None && e.appVersion.value != "")
            && (HoldsAtom(w, Labelled(ByScene), f) <==> !e.pruned && e.scene != None && e.scene.value != "")
    ensures forall v :: HoldsAtom(w, EvidenceIs(ByScene, v), EventFact(w, e)) <==> EventFact(w, e).dims.sceneState == v
  {
    FactColumns(w, e);
  }

  lemma PicksThree(q: Query, table: seq<StoredEvent>, release: string, a: Atom, ids: set<nat>)
    requires forall i :: i in ids <==> i in FrozenEvents(q, table, release) && HoldsAtom(q.window, a, EventFact(q.window, table[i]))
    ensures Samples(q.window, Select(q.window, Eligible(q.window, EventFacts(q, table), release), a)) == |ids|
  {
    var w, fs := q.window, EventFacts(q, table);
    ThreeFilters(w, fs, Release(release), Bound, a);
    forall i: nat | i < |table| ensures Holds(w, And(Release(release), And(Bound, And(a, Every))), EventFact(w, table[i]))
        <==> OfVersion(table[i], release) && Frozen(table[i]) && HoldsAtom(w, a, EventFact(w, table[i]))
    {
      HoldsThree(w, Release(release), Bound, a, EventFact(w, table[i]));
      ReleaseFilters(w, table[i], release);
    }
    CountIs(q, table, And(Release(release), And(Bound, And(a, Every))), ids);
  }

  lemma PicksFour(q: Query, table: seq<StoredEvent>, release: string, a: Atom, ids: set<nat>)
    requires forall i :: i in ids <==>
               i in FrozenEvents(q, table, release) && Crashed(table[i]) && HoldsAtom(q.window, a, EventFact(q.window, table[i]))
    ensures Samples(q.window, Select(q.window, Incidents(q.window, EventFacts(q, table), release), a)) == |ids|
  {
    var w, fs := q.window, EventFacts(q, table);
    FourFilters(w, fs, Release(release), Bound, Incident, a);
    forall i: nat | i < |table| ensures Holds(w, And(Release(release), And(Bound, And(Incident, And(a, Every)))), EventFact(w, table[i]))
        <==> OfVersion(table[i], release) && Frozen(table[i]) && Crashed(table[i]) && HoldsAtom(w, a, EventFact(w, table[i]))
    {
      HoldsFour(w, Release(release), Bound, Incident, a, EventFact(w, table[i]));
      ReleaseFilters(w, table[i], release);
      FamilyFilters(w, table[i]);
    }
    CountIs(q, table, And(Release(release), And(Bound, And(Incident, And(a, Every)))), ids);
  }

  /** Crashes and ANRs of a release: bound events with exactly these module and name pairs. */
  ghost function Incidental(q: Query, table: seq<StoredEvent>, release: string): set<nat> {
    set i | i in FrozenEvents(q, table, release) && Crashed(table[i])
  }

  lemma IncidentCountsAre(q: Query, table: seq<StoredEvent>, release: string)
    ensures var c := CountsOf(q.window, EventFacts(q, table), release);
            && c.incidents == |Incidental(q, table, release)|
            && c.java == |set i | i in FrozenEvents(q, table, release) && JavaCrashEvent(table[i])|
            && c.anr == |set i | i in FrozenEvents(q, table, release) && AnrEvent(table[i])|
  {
    forall i: nat | i < |table| { FamilyFilters(q.window, table[i]); }
    PicksThree(q, table, release, Incident, Incidental(q, table, release));
    PicksFour(q, table, release, OfFamily(JavaCrash), set i | i in FrozenEvents(q, table, release) && JavaCrashEvent(table[i]));
    PicksFour(q, table, release, OfFamily(Anr), set i | i in FrozenEvents(q, table, release) && AnrEvent(table[i]));
  }

  lemma ColumnCountsAre(q: Query, table: seq<StoredEvent>, release: string)
    ensures var c := CountsOf(q.window, EventFacts(q, table), release);
            && c.identified == |set i | i in FrozenEvents(q, table, release) && table[i].hmac != None|
            && c.late == |set i | i in FrozenEvents(q, table, release) && table[i].late|
            && c.incidentsIdentified == |set i | i in Incidental(q, table, release) && table[i].hmac != None|
            && c.incidentsFingerprinted == |set i | i in Incidental(q, table, release) && table[i].fingerprint != None|
  {
    forall i: nat | i < |table| { ColumnFilters(q.window, table[i]); }
    PicksThree(q, table, release, Identified, set i | i in FrozenEvents(q, table, release) && table[i].hmac != None);
    PicksThree(q, table, release, Late, set i | i in FrozenEvents(q, table, release) && table[i].late);
    PicksFour(q, table, release, Identified, set i | i in Incidental(q, table, release) && table[i].hmac != None);
    PicksFour(q, table, release, Fingerprinted, set i | i in Incidental(q, table, release) && table[i].fingerprint != None);
  }

  // ----- members and distinct values -----

  /** A fact of the window stands for a seen event. */
  lemma FactOf(q: Query, table: seq<StoredEvent>, f: Fact) returns (i: nat)
    requires f in EventFacts(q, table)
    ensures i < |table| && Seen(q, table[i]) && f == EventFact(q.window, table[i])
  {
    EventFactsAre(q, table, f);
    var e :| e in table && Matches(q, e) && f == EventFact(q.window, e);
    SeenIff(q, e);
    i :| 0 <= i < |table| && table[i] == e;
  }

  lemma FactIn(q: Query, table: seq<StoredEvent>, i: nat)
    requires i < |table| && Seen(q, table[i])
    ensures EventFact(q.window, table[i]) in EventFacts(q, table)
  {
    SeenIff(q, table[i]);
    EventFactsAre(q, table, EventFact(q.window, table[i]));
    assert IsFactOf(q, table, EventFact(q.window, table[i]));
  }

  /** Installations active in a release: distinct pseudonyms of its bound events. */
  ghost function Installations(table: seq<StoredEvent>, ids: set<nat>): set<string>
    requires forall i <- ids :: i < |table|
  {
    set i | i in ids && table[i].hmac != None :: table[i].hmac.value
  }

  lemma ActiveAre(q: Query, table: seq<StoredEvent>, release: string)
    ensures CountsOf(q.window, EventFacts(q, table), release).active == |Installations(table, FrozenEvents(q, table, release))|
  {
    var fs := EventFacts(q, table);
    RatioGate.ActiveIs(q.window, fs, release);
    var a, b := RatioGate.Active(fs, release), Installations(table, FrozenEvents(q, table, release));
    forall n | n in a ensures n in b {
      var f :| f in fs && RatioGate.OfRelease(f, release) && IsBound(f) && f.dims.core.hmac == Some(n);
      var i := FactOf(q, table, f);
      assert i in FrozenEvents(q, table, release);
    }
    forall n | n in b ensures n in a {
      var i :| i in FrozenEvents(q, table, release) && table[i].hmac == Some(n);
      FactIn(q, table, i);
    }
    assert a == b;
  }

  lemma AffectedFact(w: Window, e: StoredEvent, release: string)
    ensures var f := EventFact(w, e);
            RatioGate.OfRelease(f, release) && IsBound(f) && RatioGate.IsIncident(f) <==> OfVersion(e, release) && Frozen(e) && Crashed(e)
    ensures EventFact(w, e).dims.core.hmac == e.hmac
  {
    FamilyIs(w, e);
  }

  lemma AffectedIn(q: Query, table: seq<StoredEvent>, release: string, n: string)
    ensures n in RatioGate.Affected(EventFacts(q, table), release) <==> n in Installations(table, Incidental(q, table, release))
  {
    var fs := EventFacts(q, table);
    if n in RatioGate.Affected(fs, release) {
      var f :| f in fs && RatioGate.OfRelease(f, release) && IsBound(f) && RatioGate.IsIncident(f) && f.dims.core.hmac == Some(n);
      var i := FactOf(q, table, f);
      AffectedFact(q.window, table[i], release);
      assert i in Incidental(q, table, release);
    }
    if n in Installations(table, Incidental(q, table, release)) {
      var i :| i in Incidental(q, table, release) && table[i].hmac == Some(n);
      FactIn(q, table, i);
      AffectedFact(q.window, table[i], release);
    }
  }

  lemma AffectedAre(q: Query, table: seq<StoredEvent>, release: string)
    ensures CountsOf(q.window, EventFacts(q, table), release).affected == |Installations(table, Incidental(q, table, release))|
  {
    RatioGate.AffectedIs(q.window, EventFacts(q, table), release);
    forall n: string { AffectedIn(q, table, release, n); }
    assert RatioGate.Affected(EventFacts(q, table), release) == Installations(table, Incidental(q, table, release));
  }

  /** Installations whose SDK reported a healthy sample. */
  ghost function Reporters(q: Query, table: seq<StoredEvent>, release: string): set<nat> {
    set i | i in FrozenEvents(q, table, release) && HealthEvent(table[i]) && HealthyEvent(table[i])
  }

  lemma ReportingFact(w: Window, e: StoredEvent, release: string)
    ensures var f := EventFact(w, e);
            RatioGate.OfRelease(f, release) && IsBound(f) && RatioGate.IsSdkHealth(f) && IsHealthy(f)
            <==> OfVersion(e, release) && Frozen(e) && HealthEvent(e) && HealthyEvent(e)
    ensures EventFact(w, e).dims.core.hmac == e.hmac
  {
    FamilyIs(w, e);
    HealthIs(w, e);
  }

  lemma ReportingIn(q: Query, table: seq<StoredEvent>, release: string, n: string)
    ensures n in RatioGate.Reporting(EventFacts(q, table), release) <==> n in Installations(table, Reporters(q, table, release))
  {
    var fs := EventFacts(q, table);
    if n in RatioGate.Reporting(fs, release) {
      var f :| f in fs && RatioGate.OfRelease(f, release) && IsBound(f) && RatioGate.IsSdkHealth(f) && IsHealthy(f) && f.dims.core.hmac == Some(n);
      var i := FactOf(q, table, f);
      ReportingFact(q.window, table[i], release);
      assert i in Reporters(q, table, release);
    }
    if n in Installations(table, Reporters(q, table, release)) {
      var i :| i in Reporters(q, table, release) && table[i].hmac == Some(n);
      FactIn(q, table, i);
      ReportingFact(q.window, table[i], release);
    }
  }

  lemma ReportingAre(q: Query, table: seq<StoredEvent>, release: string)
    ensures CountsOf(q.window, EventFacts(q, table), release).reporting == |Installations(table, Reporters(q, table, release))|
  {
    RatioGate.ReportingIs(q.window, EventFacts(q, table), release);
    forall n: string { ReportingIn(q, table, release, n); }
    assert RatioGate.Reporting(EventFacts(q, table), release) == Installations(table, Reporters(q, table, release));
  }

  lemma DroppingFact(w: Window, e: StoredEvent, release: string)
    ensures var f := EventFact(w, e);
            RatioGate.OfRelease(f, release) && IsBound(f) && RatioGate.IsSdkHealth(f) && ReportsDrops(f)
            <==> OfVersion(e, release) && Frozen(e) && HealthEvent(e) && DroppingEvent(e)
  {
    FamilyIs(w, e);
    HealthIs(w, e);
  }

  lemma DropListed(q: Query, table: seq<StoredEvent>, release: string, f: Fact)
    requires f in SdkFacts(q.window, EventFacts(q, table), release) && ReportsDrops(f)
    ensures exists i :: i in FrozenEvents(q, table, release) && HealthEvent(table[i]) && DroppingEvent(table[i])
  {
    RatioGate.Members(q.window, EventFacts(q, table), release, f);
    var i := FactOf(q, table, f);
    DroppingFact(q.window, table[i], release);
    assert i in FrozenEvents(q, table, release);
  }

  lemma DropFound(q: Query, table: seq<StoredEvent>, release: string, i: nat)
    requires i in FrozenEvents(q, table, release) && HealthEvent(table[i]) && DroppingEvent(table[i])
    ensures var f := EventFact(q.window, table[i]); f in SdkFacts(q.window, EventFacts(q, table), release) && ReportsDrops(f)
  {
    FactIn(q, table, i);
    DroppingFact(q.window, table[i], release);
    RatioGate.Members(q.window, EventFacts(q, table), release, EventFact(q.window, table[i]));
  }

  lemma DropsAre(q: Query, table: seq<StoredEvent>, release: string)
    ensures CountsOf(q.window, EventFacts(q, table), release).dropped
            <==> exists i :: i in FrozenEvents(q, table, release) && HealthEvent(table[i]) && DroppingEvent(table[i])
  {
    var sdk := SdkFacts(q.window, EventFacts(q, table), release);
    RatioGate.DroppedIff(q.window, sdk);
    if f :| f in sdk && ReportsDrops(f) {
      DropListed(q, table, release, f);
    }
    if i :| i in FrozenEvents(q, table, release) && HealthEvent(table[i]) && DroppingEvent(table[i]) {
      DropFound(q, table, release, i);
    }
  }

  /** Distinct non-empty fingerprints of a release's incidents. */
  ghost function Fingerprints(table: seq<StoredEvent>, ids: set<nat>): set<string>
    requires forall i <- ids :: i < |table|
  {
    set i | i in ids && table[i].fingerprint != None && table[i].fingerprint.value != "" :: table[i].fingerprint.value
  }

  lemma PrintedKeyIn(q: Query, table: seq<StoredEvent>, release: string, k: Key)
    ensures var w, fs := q.window, EventFacts(q, table);
            k in KeySet(Select(w, Incidents(w, fs, release), FingerprintText), ByFingerprint)
            <==> k.Text? && k.text in Fingerprints(table, Incidental(q, table, release))
  {
    var w, fs := q.window, EventFacts(q, table);
    var printed := Select(w, Incidents(w, fs, release), FingerprintText);
    if k in KeySet(printed, ByFingerprint) {
      var f :| f in printed && KeyOf(ByFingerprint, f) == k;
      SelectHas(w, Incidents(w, fs, release), FingerprintText, f);
      RatioGate.Members(w, fs, release, f);
      var i := FactOf(q, table, f);
      AffectedFact(w, table[i], release);
      ColumnFilters(w, table[i]);
      assert i in Incidental(q, table, release);
    }
    if k.Text? && k.text in Fingerprints(table, Incidental(q, table, release)) {
      var i :| i in Incidental(q, table, release) && table[i].fingerprint == Some(k.text) && k.text != "";
      var f := EventFact(w, table[i]);
      FactIn(q, table, i);
      AffectedFact(w, table[i], release);
      ColumnFilters(w, table[i]);
      RatioGate.Members(w, fs, release, f);
      SelectHas(w, Incidents(w, fs, release), FingerprintText, f);
      assert KeyOf(ByFingerprint, f) == k;
    }
  }

  lemma FingerprintsAre(q: Query, table: seq<StoredEvent>, release: string)
    ensures CountsOf(q.window, EventFacts(q, table), release).fingerprints == |Fingerprints(table, Incidental(q, table, release))|
  {
    var w, fs := q.window, EventFacts(q, table);
    var printed := Select(w, Incidents(w, fs, release), FingerprintText);
    var names := Fingerprints(table, Incidental(q, table, release));
    KeysListTheSet(w, printed, ByFingerprint);
    forall k: Key { PrintedKeyIn(q, table, release, k); }
    assert KeySet(printed, ByFingerprint) == RatioGate.Texts(names);
    RatioGate.TextsSize(names);
  }

  /** The counts behind a release slice, from the stored events: nothing is counted twice, lost or misfiled. */
  ghost predicate CountsEvents(c: SliceCounts, q: Query, table: seq<StoredEvent>, release: string) {
    var all, bound, incidents := ReleaseEvents(q, table, release), FrozenEvents(q, table, release), Incidental(q, table, release);
    && c.declared == |all| && c.eligible == |bound| && c.incidents == |incidents|
    && (c.noDeclared <==> all == {}) && (c.noEligible <==> bound == {}) && (c.noIncidents <==> incidents == {})
    && c.java == |set i | i in bound && JavaCrashEvent(table[i])|
    && c.anr == |set i | i in bound && AnrEvent(table[i])|
    && c.identified == |set i | i in bound && table[i].hmac != None|
    && c.late == |set i | i in bound && table[i].late|
    && c.incidentsIdentified == |set i | i in incidents && table[i].hmac != None|
    && c.incidentsFingerprinted == |set i | i in incidents && table[i].fingerprint != None|
    && (c.dropped <==> exists i :: i in bound && HealthEvent(table[i]) && DroppingEvent(table[i]))
    && c.active == |Installations(table, bound)| && c.affected == |Installations(table, incidents)|
    && c.reporting == |Installations(table, Reporters(q, table, release))|
    && c.fingerprints == |Fingerprints(table, incidents)|
  }

  lemma EventCounts(q: Query, table: seq<StoredEvent>, release: string)
    requires PositiveWindow(q.window)
    ensures CountsEvents(CountsOf(q.window, EventFacts(q, table), release), q, table, release)
  {
    var w, fs := q.window, EventFacts(q, table);
    DeclaredAre(q, table, release);
    IncidentCountsAre(q, table, release);
    ColumnCountsAre(q, table, release);
    ActiveAre(q, table, release);
    AffectedAre(q, table, release);
    ReportingAre(q, table, release);
    DropsAre(q, table, release);
    FingerprintsAre(q, table, release);
    EventFactsAreFair(q, table);
    FairCounts(w, fs);
    RatioGate.CountsAreConsistent(w, fs, release);
  }

  /** The same of the groups that a load returns. */
  lemma LoadedCountsAreEvents(q: Query, table: seq<StoredEvent>, maxRows: nat, release: string)
    requires PositiveWindow(q.window) && InIdOrder(table) && LoadWindowFacts(q, table, maxRows).Ok?
    ensures CountsEvents(CountsOf(q.window, LoadWindowFacts(q, table, maxRows).value, release), q, table, release)
  {
    LoadIffWithinBudget(q, table, maxRows);
    SameCounts(q.window, LoadWindowFacts(q, table, maxRows).value, EventFacts(q, table), true, release);
    EventCounts(q, table, release);
  }
}
