/**
 * What a query answers does not depend on how the facts were reduced, nor on retention.
 */
module QueryTheorems {
  import opened Prelude
  import opened Normalization
  import opened Facts
  import opened Metrics
  import opened WindowFacts
  import RH = ReleaseHealth
  import opened Issues
  import DQ = DataQuality

  /**
   * Every answer built from the weighted groups equals the answer built from one weight-1 fact per
   * event, whenever the group budget is not exceeded.
   */
  lemma WeightedEqualsPerEvent(
    q: Query, table: seq<StoredEvent>, maxRows: nat, newRelease: string, baseline: string, s: RH.Settings,
    limit: nat, fingerprint: string, release: Option<string>)
    requires PositiveWindow(q.window) && InIdOrder(table)
    ensures var loaded, w, events := LoadWindowFacts(q, table, maxRows), q.window, EventFacts(q, table);
            loaded.Ok? ==>
              && RH.HealthOf(w, loaded.value, newRelease, baseline, s) == RH.HealthOf(w, events, newRelease, baseline, s)
              && TopFingerprints(w, loaded.value, newRelease, limit) == TopFingerprints(w, events, newRelease, limit)
              && DetailOf(w, loaded.value, fingerprint) == DetailOf(w, events, fingerprint)
              && DQ.QualityOf(w, loaded.value, release) == DQ.QualityOf(w, events, release)
  {
    LoadIffWithinBudget(q, table, maxRows);
    var loaded, w, events := LoadWindowFacts(q, table, maxRows), q.window, EventFacts(q, table);
    if loaded.Ok? {
      RH.SameHealth(w, loaded.value, events, true, newRelease, baseline, s);
      SameTopFingerprints(w, loaded.value, events, true, newRelease, limit);
      SameDetail(w, loaded.value, events, true, fingerprint);
      DQ.SameQuality(w, loaded.value, events, true, release);
    }
  }

  // ----- retention -----

  /** maintain_once on one row: the scene's presence stays, its text goes; numbers stay, text goes. */
  function PruneEvent(e: StoredEvent): StoredEvent {
    e.(scene := None, pruned := true,
       retainedScene := Some(if e.scene.Some? && e.scene.value != "" then "EXPIRED" else "MISSING"),
       normalized := PruneNormalized(e.normalized))
  }

  /** Prune the rows of a set that still hold raw evidence. */
  function PruneRows(table: seq<StoredEvent>, ids: set<nat>): seq<StoredEvent> {
    seq(|table|, i requires 0 <= i < |table| => PruneIn(table[i], ids))
  }

  function PruneIn(e: StoredEvent, ids: set<nat>): StoredEvent {
    if e.id in ids && !e.pruned then PruneEvent(e) else e
  }

  /** Unpruned rows hold what normalisation produced. */
  ghost predicate WellNormalized(table: seq<StoredEvent>) {
    forall i :: 0 <= i < |table| && !table[i].pruned ==> FromNormalizer(table[i].normalized)
  }

  ghost predicate FromNormalizer(n: Normalized) {
    exists fl: Floats, e: Normalization.Event :: Projects(fl, e, n)
  }

  /** b is a with some scenes expired: nothing else differs. */
  predicate Faded(f: Fact, g: Fact) {
    && g == f.(dims := g.dims) && g.dims.core == f.dims.core
    && (g.dims.sceneState == f.dims.sceneState || (f.dims.sceneState == Available && g.dims.sceneState == Expired))
  }

  predicate AllFaded(a: seq<Fact>, b: seq<Fact>) {
    |a| == |b| && forall i :: 0 <= i < |a| ==> Faded(a[i], b[i])
  }

  lemma PrunedFactIsFaded(w: Window, e: StoredEvent)
    requires !e.pruned && FromNormalizer(e.normalized)
    ensures Faded(EventFact(w, e), EventFact(w, PruneEvent(e)))
  {
    var fl: Floats, ev: Normalization.Event :| Projects(fl, ev, e.normalized);
    PruneKeepsHealth(fl, ev, e.normalized);
  }

  lemma FadedRow(q: Query, e: StoredEvent, ids: set<nat>)
    requires !e.pruned ==> FromNormalizer(e.normalized)
    ensures Matches(q, PruneIn(e, ids)) == Matches(q, e)
    ensures Faded(EventFact(q.window, e), EventFact(q.window, PruneIn(e, ids)))
  {
    if e.id in ids && !e.pruned {
      PrunedFactIsFaded(q.window, e);
    }
  }

  lemma {:induction false} PrunedFactsAreFaded(q: Query, table: seq<StoredEvent>, ids: set<nat>)
    requires WellNormalized(table)
    ensures AllFaded(EventFacts(q, table), EventFacts(q, PruneRows(table, ids)))
  {
    if table != [] {
      var n := |table| - 1;
      PrunedFactsAreFaded(q, table[..n], ids);
      assert PruneRows(table, ids)[..n] == PruneRows(table[..n], ids);
      FadedRow(q, table[n], ids);
    }
  }

  lemma FadedDecidesAtom(w: Window, a: Atom, f: Fact, g: Fact)
    requires Faded(f, g) && SceneFreeAtom(a)
    ensures HoldsAtom(w, a, f) == HoldsAtom(w, a, g)
  {
  }

  lemma {:induction false} FadedDecides(w: Window, sel: Sel, f: Fact, g: Fact)
    requires Faded(f, g) && SceneFree(sel)
    ensures Holds(w, sel, f) == Holds(w, sel, g)
  {
    if sel.And? {
      FadedDecidesAtom(w, sel.atom, f, g);
      FadedDecides(w, sel.rest, f, g);
    }
  }

  lemma {:induction false} FadedTally(w: Window, a: seq<Fact>, b: seq<Fact>, sel: Sel)
    requires AllFaded(a, b) && SceneFree(sel)
    ensures TallyOf(w, a, sel) == TallyOf(w, b, sel)
  {
    if a != [] {
      var n := |a| - 1;
      FadedTally(w, a[..n], b[..n], sel);
      assert Faded(a[n], b[n]);
      FadedDecides(w, sel, a[n], b[n]);
    }
  }

  lemma {:induction false} FadedDistinct(w: Window, a: seq<Fact>, b: seq<Fact>, sel: Sel, dim: Dimension)
    requires AllFaded(a, b) && SceneFree(sel) && !dim.ByScene?
    ensures Distinct(w, a, sel, dim) == Distinct(w, b, sel, dim)
  {
    if a != [] {
      var n := |a| - 1;
      FadedDistinct(w, a[..n], b[..n], sel, dim);
      assert Faded(a[n], b[n]);
      FadedDecides(w, sel, a[n], b[n]);
    }
  }

  lemma FadedView(w: Window, a: seq<Fact>, b: seq<Fact>)
    requires AllFaded(a, b) && AllFair(w, a) && AllFair(w, b)
    ensures SameView(w, a, b, false)
  {
    forall sel | SceneFree(sel) ensures TallyOf(w, a, sel) == TallyOf(w, b, sel) {
      FadedTally(w, a, b, sel);
    }
    forall sel: Sel, dim: Dimension | SceneFree(sel) && !dim.ByScene? ensures Distinct(w, a, sel, dim) == Distinct(w, b, sel, dim) {
      FadedDistinct(w, a, b, sel, dim);
    }
  }

  lemma {:induction false} SelectFaded(w: Window, a: seq<Fact>, b: seq<Fact>, atom: Atom)
    requires AllFaded(a, b) && SceneFreeAtom(atom)
    ensures AllFaded(Select(w, a, atom), Select(w, b, atom))
  {
    if a != [] {
      var n := |a| - 1;
      SelectFaded(w, a[..n], b[..n], atom);
      assert Faded(a[n], b[n]);
      FadedDecidesAtom(w, atom, a[n], b[n]);
    }
  }

  // ----- scene coverage -----

  function SceneCount(w: Window, fs: seq<Fact>, e: Evidence): nat {
    TallyOf(w, fs, And(EvidenceIs(ByScene, e), Every)).count
  }

  lemma SceneCountSnoc(w: Window, fs: seq<Fact>, e: Evidence)
    requires fs != []
    ensures var n := |fs| - 1;
            SceneCount(w, fs, e) == SceneCount(w, fs[..n], e) + (if fs[n].dims.sceneState == e then fs[n].weight else 0)
  {
    var n := |fs| - 1;
    assert Holds(w, And(EvidenceIs(ByScene, e), Every), fs[n]) == (fs[n].dims.sceneState == e);
  }

  lemma {:induction false} FadedScenes(w: Window, a: seq<Fact>, b: seq<Fact>)
    requires AllFaded(a, b)
    ensures SceneCount(w, b, Missing) == SceneCount(w, a, Missing)
    ensures SceneCount(w, b, RetentionUnknown) == SceneCount(w, a, RetentionUnknown)
    ensures SceneCount(w, b, Available) <= SceneCount(w, a, Available)
    ensures SceneCount(w, b, Available) + SceneCount(w, b, Expired) == SceneCount(w, a, Available) + SceneCount(w, a, Expired)
  {
    if a != [] {
      var n := |a| - 1;
      FadedScenes(w, a[..n], b[..n]);
      assert Faded(a[n], b[n]);
      forall e: Evidence ensures
        && SceneCount(w, a, e) == SceneCount(w, a[..n], e) + (if a[n].dims.sceneState == e then a[n].weight else 0)
        && SceneCount(w, b, e) == SceneCount(w, b[..n], e) + (if b[n].dims.sceneState == e then b[n].weight else 0)
      {
        SceneCountSnoc(w, a, e);
        SceneCountSnoc(w, b, e);
      }
    }
  }

  /** Coverage after retention: total and missing stay, available events can only become expired. */
  predicate OnlyExpires(before: Coverage, after: Coverage) {
    && after.total == before.total && after.missing == before.missing && after.unknown == before.unknown
    && after.available <= before.available
    && after.available + after.expired == before.available + before.expired
  }

  lemma CoverageCounts(w: Window, fs: seq<Fact>)
    ensures var c := CoverageOf(w, fs, ByScene);
            && c.available == SceneCount(w, fs, Available) && c.missing == SceneCount(w, fs, Missing)
            && c.expired == SceneCount(w, fs, Expired) && c.unknown == SceneCount(w, fs, RetentionUnknown)
  {
    SelectTally(w, fs, EvidenceIs(ByScene, Available), Every);
    SelectTally(w, fs, EvidenceIs(ByScene, Missing), Every);
    SelectTally(w, fs, EvidenceIs(ByScene, Expired), Every);
    SelectTally(w, fs, EvidenceIs(ByScene, RetentionUnknown), Every);
  }

  lemma FadedListCoverage(w: Window, a: seq<Fact>, b: seq<Fact>)
    requires AllFaded(a, b)
    ensures OnlyExpires(CoverageOf(w, a, ByScene), CoverageOf(w, b, ByScene))
  {
    FadedScenes(w, a, b);
    FadedTally(w, a, b, Every);
    CoverageCounts(w, a);
    CoverageCounts(w, b);
  }

  lemma SceneCoverageIs(w: Window, fs: seq<Fact>, fingerprint: string)
    ensures DetailOf(w, fs, fingerprint).scenes.coverage
            == CoverageOf(w, Select(w, IssueFacts(w, fs, fingerprint), Bound), ByScene)
  {
  }

  lemma FadedCoverage(w: Window, a: seq<Fact>, b: seq<Fact>, fingerprint: string)
    requires AllFaded(a, b)
    ensures OnlyExpires(DetailOf(w, a, fingerprint).scenes.coverage, DetailOf(w, b, fingerprint).scenes.coverage)
  {
    SelectFaded(w, a, b, FingerprintIs(fingerprint));
    SelectFaded(w, Select(w, a, FingerprintIs(fingerprint)), Select(w, b, FingerprintIs(fingerprint)), Incident);
    SelectFaded(w, IssueFacts(w, a, fingerprint), IssueFacts(w, b, fingerprint), Bound);
    FadedListCoverage(w, Select(w, IssueFacts(w, a, fingerprint), Bound), Select(w, IssueFacts(w, b, fingerprint), Bound));
    SceneCoverageIs(w, a, fingerprint);
    SceneCoverageIs(w, b, fingerprint);
  }

  lemma PruneKeepsOrder(table: seq<StoredEvent>, ids: set<nat>)
    requires InIdOrder(table)
    ensures InIdOrder(PruneRows(table, ids))
  {
  }

  /**
   * Pruning any rows leaves release health, fingerprints, data quality and every part of issue detail
   * but the scenes as they were; of the scenes it only moves available counts to expired.
   */
  lemma PruningKeepsAnswers(
    q: Query, table: seq<StoredEvent>, ids: set<nat>, maxRows: nat, newRelease: string, baseline: string, s: RH.Settings,
    limit: nat, fingerprint: string, release: Option<string>)
    requires PositiveWindow(q.window) && InIdOrder(table) && WellNormalized(table)
    ensures var w := q.window;
            var before, after := LoadWindowFacts(q, table, maxRows), LoadWindowFacts(q, PruneRows(table, ids), maxRows);
            before.Ok? && after.Ok? ==>
              && RH.HealthOf(w, before.value, newRelease, baseline, s) == RH.HealthOf(w, after.value, newRelease, baseline, s)
              && TopFingerprints(w, before.value, newRelease, limit) == TopFingerprints(w, after.value, newRelease, limit)
              && DQ.QualityOf(w, before.value, release) == DQ.QualityOf(w, after.value, release)
              && var x, y := DetailOf(w, before.value, fingerprint), DetailOf(w, after.value, fingerprint);
                 x.(scenes := y.scenes) == y && OnlyExpires(x.scenes.coverage, y.scenes.coverage)
  {
    var w, pruned := q.window, PruneRows(table, ids);
    PruneKeepsOrder(table, ids);
    WeightedEqualsPerEvent(q, table, maxRows, newRelease, baseline, s, limit, fingerprint, release);
    WeightedEqualsPerEvent(q, pruned, maxRows, newRelease, baseline, s, limit, fingerprint, release);
    var a, b := EventFacts(q, table), EventFacts(q, pruned);
    PrunedFactsAreFaded(q, table, ids);
    EventFactsAreFair(q, table);
    EventFactsAreFair(q, pruned);
    FadedView(w, a, b);
    RH.SameHealth(w, a, b, false, newRelease, baseline, s);
    SameTopFingerprints(w, a, b, false, newRelease, limit);
    SameDetail(w, a, b, false, fingerprint);
    DQ.SameQuality(w, a, b, false, release);
    FadedCoverage(w, a, b, fingerprint);
  }
}
