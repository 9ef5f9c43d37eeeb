/** Concrete runs behind the findings about delivery: what the theorems condition on does arise. */
module DeliveryWitnesses {
  import opened Prelude
  import opened Replay
  import opened Delivery
  import opened DeliveryRuns
  import opened DeliveryTheorems

  /** The first event of an empty inbox is stored under id 0. */
  function StoreFirst(meta: Meta, sub: Submission, ring: Option<KeyRing>, at: int): Action {
    Ingest(meta, [sub], ring, true, map[0 := sub.eventId], at)
  }

  lemma FirstIsAccepted(c: Crypto, s: Sys, meta: Meta, sub: Submission, ring: Option<KeyRing>, m: map<string, Prepared>)
    requires s.cells == map[] && RingOf(ring, s.keys)
    requires PrepareAll(c, ring, meta, [sub]) == Ok(m) && m.Keys == {sub.eventId}
    ensures Accepts(c, s, StoreFirst(meta, sub, ring, s.now))
  {
    var alloc := map[0 := sub.eventId];
    assert alloc[0] in alloc.Values;
    assert StoredIds(s.cells, meta.tenant) == {};
    assert AllMatch(c, ring, meta, s.cells, m);
  }

  lemma FirstIsStored(c: Crypto, cfg: Config, s: Sys, meta: Meta, sub: Submission, ring: Option<KeyRing>)
    requires s.cells == map[] && RingOf(ring, s.keys) && Acceptable(ring, meta, sub)
    ensures PrepareEvent(c, ring, meta, sub).Ok?
    ensures Apply(c, cfg, s, StoreFirst(meta, sub, ring, s.now))
            == s.(cells := map[0 := NewCell(meta, PrepareEvent(c, ring, meta, sub).value, s.now, true)])
  {
    PrepareOne(c, ring, meta, sub);
    var m := PrepareAll(c, ring, meta, [sub]).value;
    PreparedEntries(c, ring, meta, [sub], sub.eventId);
    FirstIsAccepted(c, s, meta, sub, ring, m);
    OneIngested(meta, m, sub.eventId, s.now);
  }

  lemma OneIngested(meta: Meta, m: map<string, Prepared>, e: string, at: int)
    requires e in m
    ensures Ingested(map[], meta, m, map[0 := e], at, true) == map[0 := NewCell(meta, m[e], at, true)]
  {
  }

  lemma ExecTwo(c: Crypto, cfg: Config, s: Sys, a: Action, b: Action)
    ensures Exec(c, cfg, s, [a, b]) == Apply(c, cfg, Apply(c, cfg, s, a), b)
  {
    assert [a, b] == [a] + [b] && [a] == [] + [a];
    assert Exec(c, cfg, s, []) == s;
    ExecSnoc(c, cfg, s, [], a);
    ExecSnoc(c, cfg, s, [a], b);
  }

  // ----- a lost start forfeits the only attempt -----

  /** A Java crash with a complete symbol identity and no installation. */
  predicate SymbolizableJava(sub: Submission) {
    && KindOf(sub.content) == Some(Java) && sub.content.stack != "" && sub.releaseQuality.OCCURRENCE_BOUND?
    && Filled(sub.release.versionCode) && Filled(sub.release.appBuild) && Filled(sub.release.variant)
  }

  function LostStartRun(meta: Meta, sub: Submission, at: int, owner: Token): seq<Action> {
    [StoreFirst(meta, sub, None, at), ClaimJobs(owner, {0})] + [Start(owner, 0, RolledBack)] + [FailSymbols(owner, 0, true)]
  }

  lemma NewJavaCell(cfg: Config, meta: Meta, p: Prepared, now: int, owner: Token)
    requires SymbolizableJava(p.submission) && p.stored.release == p.submission.release
    requires p.stored.releaseQuality == p.submission.releaseQuality
    requires cfg.jobMaxAttempts == 1 && cfg.jobLease > 0
    ensures var cell := NewCell(meta, p, now, true);
            var claimed := StepCell(cfg, now, ClaimJobs(owner, {0}), 0, cell);
            && cell.job.Some? && ClaimableJob(cell.job.value, now)
            && Protocol(cfg, claimed) && claimed.job.Some? && owner in claimed.jobMemo
            && OwnsJob(claimed.job.value, owner, now) && !claimed.jobMemo[owner].lost
            && claimed.job.value.attempts == 0 && claimed.toolStarts == 0
  {
  }

  /** Any such crash, accepted into an empty inbox and claimed: its worker holds the only attempt. */
  lemma JavaIsClaimed(c: Crypto, cfg: Config, now: int, meta: Meta, sub: Submission, owner: Token)
    requires cfg.jobMaxAttempts == 1 && cfg.jobLease > 0
    requires SymbolizableJava(sub) && sub.installation.None? && sub.content.sizeBytes <= MAX_EVENT_JSON_BYTES
    ensures var s := Exec(c, cfg, EmptySystem(now), [StoreFirst(meta, sub, None, now), ClaimJobs(owner, {0})]);
            && s.now == now && 0 in s.cells
            && var cell := s.cells[0];
            && cell.job.Some? && owner in cell.jobMemo && OwnsJob(cell.job.value, owner, now) && !cell.jobMemo[owner].lost
            && cell.job.value.attempts == 0 && cell.toolStarts == 0
  {
    var s0 := EmptySystem(now);
    ExecTwo(c, cfg, s0, StoreFirst(meta, sub, None, now), ClaimJobs(owner, {0}));
    FirstIsStored(c, cfg, s0, meta, sub, None);
    var s1 := Apply(c, cfg, s0, StoreFirst(meta, sub, None, now));
    var p := PrepareEvent(c, None, meta, sub).value;
    NewJavaCell(cfg, meta, p, now, owner);
    assert ClaimsNow(s1, ClaimJobs(owner, {0}));
    WorkerIs(c, cfg, s1, ClaimJobs(owner, {0}));
    WorkerStepIs(cfg, s1, ClaimJobs(owner, {0}), 0);
  }

  /**
   * The run: with one attempt per job, a symbolizer whose start is rolled back and who then meets a
   * retryable error gives the job up, though no tool ever ran and no attempt is stored.
   */
  lemma LostStartArises(c: Crypto, cfg: Config, now: int, meta: Meta, sub: Submission, owner: Token)
    requires cfg.jobMaxAttempts == 1 && cfg.jobLease > 0
    requires SymbolizableJava(sub) && sub.installation.None? && sub.content.sizeBytes <= MAX_EVENT_JSON_BYTES
    ensures var s := Exec(c, cfg, EmptySystem(now), LostStartRun(meta, sub, now, owner));
            && 0 in s.cells && s.cells[0].job.Some?
            && s.cells[0].job.value.status.Failed? && s.cells[0].job.value.attempts == 0 && s.cells[0].toolStarts == 0
  {
    JavaIsClaimed(c, cfg, now, meta, sub, owner);
    var claimed := [StoreFirst(meta, sub, None, now), ClaimJobs(owner, {0})];
    var s := Exec(c, cfg, EmptySystem(now), claimed);
    ExecSnoc(c, cfg, EmptySystem(now), claimed, Start(owner, 0, RolledBack));
    ExecSnoc(c, cfg, EmptySystem(now), claimed + [Start(owner, 0, RolledBack)], FailSymbols(owner, 0, true));
    LostStartForfeitsLastAttempt(c, cfg, s, 0, owner);
  }

  const META := Meta("t", "app", "prod", "1", "r")
  const RELEASE := Release(Some("1"), Some("2"), Some("3"), Some("free"))
  const CRASH := Content("crash", "java_crash", "p", "main", "", "at A", [], Some("raw"), 10)

  /** One concrete input of LostStartArises. */
  lemma LostStartWitness(c: Crypto, cfg: Config, now: int)
    requires cfg.jobMaxAttempts == 1 && cfg.jobLease > 0
    ensures var sub := Submission("e", CRASH, RELEASE, OCCURRENCE_BOUND, OCCURRENCE_BOUND, None);
            var s := Exec(c, cfg, EmptySystem(now), LostStartRun(META, sub, now, "w"));
            && 0 in s.cells && s.cells[0].job.Some?
            && s.cells[0].job.value.status.Failed? && s.cells[0].job.value.attempts == 0 && s.cells[0].toolStarts == 0
  {
    LostStartArises(c, cfg, now, META, Submission("e", CRASH, RELEASE, OCCURRENCE_BOUND, OCCURRENCE_BOUND, None), "w");
  }

  // ----- the same event, refused -----

  /** Accept one event under `ring` after registering its key. */
  function AcceptedRun(version: string, secret: string, meta: Meta, sub: Submission, at: int): seq<Action> {
    [AddKey(version, secret), StoreFirst(meta, sub, Some(KeyRing(map[version := secret], version)), at)]
  }

  lemma AcceptedIsStored(c: Crypto, cfg: Config, now: int, version: string, secret: string, meta: Meta, sub: Submission)
    requires version != "" && Acceptable(Some(KeyRing(map[version := secret], version)), meta, sub)
    ensures var ring := Some(KeyRing(map[version := secret], version));
            var s := Exec(c, cfg, EmptySystem(now), AcceptedRun(version, secret, meta, sub, now));
            && PrepareEvent(c, ring, meta, sub).Ok? && s.keys == map[version := secret]
            && s.cells == map[0 := NewCell(meta, PrepareEvent(c, ring, meta, sub).value, now, true)]
  {
    var ring := Some(KeyRing(map[version := secret], version));
    ExecTwo(c, cfg, EmptySystem(now), AddKey(version, secret), StoreFirst(meta, sub, ring, now));
    FirstIsStored(c, cfg, Apply(c, cfg, EmptySystem(now), AddKey(version, secret)), meta, sub, ring);
  }

  /** The row's key version is missing from the ring now in use. */
  lemma ForeignRingConflicts(c: Crypto, meta: Meta, sub: Submission, ring: KeyRing, other: KeyRing, s: Sys, now: int)
    requires sub.installation.Some? && ValidRing(ring) && ring.active !in other.keys && Acceptable(Some(other), meta, sub)
    requires PrepareEvent(c, Some(ring), meta, sub).Ok?
    requires s.cells == map[0 := NewCell(meta, PrepareEvent(c, Some(ring), meta, sub).value, now, true)]
    ensures Respond(c, s, meta, [sub], Some(other)) == Err(EventIdConflict)
  {
    PrepareOne(c, Some(other), meta, sub);
    var m := PrepareAll(c, Some(other), meta, [sub]).value;
    var st := PrepareEvent(c, Some(ring), meta, sub).value.stored;
    assert s.cells[0].row.stored == st;
    assert Hits(s.cells[0], meta.tenant, m);
    assert !Matches(c, Some(other), meta, sub, st);
    AllMatchIff(c, Some(other), meta, s.cells, m);
  }

  /** A request id that contains the installation id is a privacy conflict, whatever is stored. */
  lemma LeakingRequestRefused(c: Crypto, s: Sys, meta: Meta, sub: Submission, ring: KeyRing)
    requires ValidRing(ring) && sub.installation != None && sub.installation.value != "" && Mentions(meta, sub, sub.installation.value)
    ensures Respond(c, s, meta, [sub], Some(ring)) == Err(PrivacyIdentityConflict)
  {
    MentionRefusesBatch(c, Some(ring), meta, [sub], 0);
  }

  lemma OwnRowMatches(c: Crypto, meta: Meta, sub: Submission, ring: KeyRing, s: Sys, now: int)
    requires ValidRing(ring) && Acceptable(Some(ring), meta, sub) && PrepareEvent(c, Some(ring), meta, sub).Ok?
    requires s.cells == map[0 := NewCell(meta, PrepareEvent(c, Some(ring), meta, sub).value, now, true)]
    ensures Respond(c, s, meta, [sub], Some(ring)) == Ok(InsertResult(1, 0, 1))
  {
    PrepareOne(c, Some(ring), meta, sub);
    var m := PrepareAll(c, Some(ring), meta, [sub]).value;
    assert Matches(c, Some(ring), meta, sub, s.cells[0].row.stored);
    AllMatchIff(c, Some(ring), meta, s.cells, m);
    StoredUnderId(s.cells, 0);
    RespondOne(c, s, meta, sub, Some(ring), m);
  }

  lemma LongerIsAbsent(plaintext: string, values: seq<string>)
    requires forall i :: 0 <= i < |values| ==> |values[i]| < |plaintext|
    ensures !InAny(plaintext, values)
  {
  }

  const INSTALLATION := "installation"
  const BOUND := Submission("e", CRASH, RELEASE, OCCURRENCE_BOUND, OCCURRENCE_BOUND, Some(INSTALLATION))

  /** META and BOUND hold no string as long as the installation id, so none contains it. */
  lemma BoundIsAcceptable(ring: KeyRing)
    ensures Acceptable(Some(ring), META, BOUND)
  {
    LeaksIff(META, BOUND);
    LongerIsAbsent(INSTALLATION,
                   [BOUND.eventId, BOUND.content.moduleName, BOUND.content.eventName, BOUND.content.processName, BOUND.content.threadName,
                    META.tenant, META.appId, META.environment, META.sdkVersion, META.requestId]
                   + Present(BOUND.release.appVersion) + Present(BOUND.release.appBuild)
                   + Present(BOUND.release.versionCode) + Present(BOUND.release.variant));
  }

  lemma RequestIdLeaks(meta: Meta, sub: Submission)
    requires sub.installation == Some(meta.requestId)
    ensures Mentions(meta, sub, meta.requestId)
  {
    assert OccursAt(meta.requestId, meta.requestId, 0);
  }

  /**
   * An accepted event, submitted again with the same identity: a duplicate as it was, a privacy
   * conflict when the request id now contains the installation id, an event-id conflict when the
   * ring in use has lost the row's key.
   */
  lemma SameEventRefused(c: Crypto, cfg: Config, now: int)
    ensures var ring := KeyRing(map["k1" := "secret"], "k1");
            var s := Exec(c, cfg, EmptySystem(now), AcceptedRun("k1", "secret", META, BOUND, now));
            var later := META.(requestId := INSTALLATION);
            && 0 in s.cells && s.cells[0].accepted == IdentityOf(META, BOUND) == IdentityOf(later, BOUND)
            && Respond(c, s, META, [BOUND], Some(ring)) == Ok(InsertResult(1, 0, 1))
            && Respond(c, s, later, [BOUND], Some(ring)) == Err(PrivacyIdentityConflict)
            && Respond(c, s, META, [BOUND], Some(KeyRing(map["k2" := "other"], "k2"))) == Err(EventIdConflict)
  {
    var ring := KeyRing(map["k1" := "secret"], "k1");
    var other := KeyRing(map["k2" := "other"], "k2");
    var s := Exec(c, cfg, EmptySystem(now), AcceptedRun("k1", "secret", META, BOUND, now));
    BoundIsAcceptable(ring);
    BoundIsAcceptable(other);
    AcceptedIsStored(c, cfg, now, "k1", "secret", META, BOUND);
    OwnRowMatches(c, META, BOUND, ring, s, now);
    RequestIdLeaks(META.(requestId := INSTALLATION), BOUND);
    LeakingRequestRefused(c, s, META.(requestId := INSTALLATION), BOUND, ring);
    ForeignRingConflicts(c, META, BOUND, ring, other, s, now);
  }
}
