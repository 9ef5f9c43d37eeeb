/** What holds in every reachable state, and between any two states of a run. */
module DeliveryTheorems {
  import opened Prelude
  import opened Replay
  import opened Delivery
  import opened DeliveryRuns

  ghost predicate Reachable(c: Crypto, cfg: Config, s: Sys) {
    exists now, actions :: s == Exec(c, cfg, EmptySystem(now), actions)
  }

  lemma ReachableIsOk(c: Crypto, cfg: Config, s: Sys)
    requires Reachable(c, cfg, s)
    ensures Inv(c, cfg, s)
    ensures forall id <- s.cells :: CellOk(c, cfg, s, s.cells[id])
  {
    var now, actions :| s == Exec(c, cfg, EmptySystem(now), actions);
    EmptySystemOk(c, cfg, now);
    RunsKeepInv(c, cfg, EmptySystem(now), actions);
  }

  /** A write action's effect on one cell. */
  lemma WorkerStepAt(c: Crypto, cfg: Config, s: Sys, a: Action, id: Id)
    requires id in s.cells && IsWorker(a) && !a.ClaimRows? && !a.ClaimJobs?
    ensures id in Apply(c, cfg, s, a).cells && Apply(c, cfg, s, a).cells[id] == StepCell(cfg, s.now, a, id, s.cells[id])
    ensures Apply(c, cfg, s, a).now == s.now
  {
  }

  // ----- claims -----

  predicate HoldsNeither(cell: Cell, owner: Token) {
    && !(cell.row.lease.Lease? && cell.row.lease.owner == owner)
    && !(cell.job.Some? && cell.job.value.lease.Lease? && cell.job.value.lease.owner == owner)
  }

  lemma StaleCell(cfg: Config, s: Sys, a: Action, owner: Token, id: Id)
    requires owner in s.tokens && id in s.cells && HoldsNeither(s.cells[id], owner) && ClaimsNow(s, a)
    ensures HoldsNeither(StepCell(cfg, s.now, a, id, s.cells[id]), owner)
  {
  }

  lemma StaleStep(c: Crypto, cfg: Config, s: Sys, t: Sys, a: Action, owner: Token, id: Id)
    requires Inv(c, cfg, s) && owner in s.tokens && id in s.cells && HoldsNeither(s.cells[id], owner)
    requires t == Apply(c, cfg, s, a)
    ensures id in t.cells && HoldsNeither(t.cells[id], owner)
    ensures owner in t.tokens
  {
    ApplyCell(c, cfg, s, a, t, id);
    if ClaimsNow(s, a) { StaleCell(cfg, s, a, owner, id); }
  }

  /** An owner that lost a row or job never holds it again, in any continuation. */
  lemma {:induction false} StaleForever(c: Crypto, cfg: Config, s: Sys, actions: seq<Action>, owner: Token, id: Id)
    requires Inv(c, cfg, s) && owner in s.tokens && id in s.cells && HoldsNeither(s.cells[id], owner)
    ensures id in Exec(c, cfg, s, actions).cells && HoldsNeither(Exec(c, cfg, s, actions).cells[id], owner)
    decreases |actions|
  {
    if actions != [] {
      StaleStep(c, cfg, s, Apply(c, cfg, s, actions[0]), actions[0], owner, id);
      ApplyKeepsInv(c, cfg, s, actions[0]);
      StaleForever(c, cfg, Apply(c, cfg, s, actions[0]), actions[1..], owner, id);
    }
  }

  // ----- what no run changes -----

  predicate Preserves(before: Cell, after: Cell) {
    && after.accepted == before.accepted
    && after.row.stored == before.row.stored
    && after.row.kind == before.row.kind
    && after.row.rawFingerprint == before.row.rawFingerprint
    && (before.row.status == Delivered || before.row.status == DeadLetter ==>
          after.row.status == before.row.status && after.row.finalizedAt == before.row.finalizedAt)
    && before.retries <= after.retries
    && before.toolStarts <= after.toolStarts
  }

  lemma WorkerPreserves(cfg: Config, s: Sys, a: Action, id: Id)
    requires id in s.cells && Protocol(cfg, s.cells[id]) && ClaimsNow(s, a)
    ensures Preserves(s.cells[id], StepCell(cfg, s.now, a, id, s.cells[id]))
  {
  }

  lemma StepPreserves(c: Crypto, cfg: Config, s: Sys, t: Sys, a: Action, id: Id)
    requires Inv(c, cfg, s) && id in s.cells && t == Apply(c, cfg, s, a)
    ensures id in t.cells && Preserves(s.cells[id], t.cells[id])
  {
    assert CellOk(c, cfg, s, s.cells[id]);
    ApplyCell(c, cfg, s, a, t, id);
    if ClaimsNow(s, a) { WorkerPreserves(cfg, s, a, id); }
  }

  /** Delivered and dead-lettered rows are never left; identity and raw fingerprint never change. */
  lemma {:induction false} RunsPreserve(c: Crypto, cfg: Config, s: Sys, actions: seq<Action>, id: Id)
    requires Inv(c, cfg, s) && id in s.cells
    ensures id in Exec(c, cfg, s, actions).cells && Preserves(s.cells[id], Exec(c, cfg, s, actions).cells[id])
    decreases |actions|
  {
    if actions != [] {
      StepPreserves(c, cfg, s, Apply(c, cfg, s, actions[0]), actions[0], id);
      ApplyKeepsInv(c, cfg, s, actions[0]);
      RunsPreserve(c, cfg, Apply(c, cfg, s, actions[0]), actions[1..], id);
    }
  }

  // ----- the two coupled machines -----

  /** Export waits for symbols exactly while the job is unfinished, so no unfinished crash is exported. */
  lemma AwaitsExactlyWhileUnfinished(c: Crypto, cfg: Config, s: Sys, id: Id)
    requires Reachable(c, cfg, s) && id in s.cells
    ensures var cell := s.cells[id];
            && (cell.row.status == AwaitingSymbols <==> cell.job != None && cell.job.value.status in {Queued, Running, SymbolsMissing})
            && (ClaimableRow(cell.row, s.now) || cell.row.status == Processing || cell.row.status == Delivered ==>
                  cell.job == None || cell.job.value.status in {Symbolized, PartiallySymbolized, MetadataMissing, Disabled, Failed})
            && (KindOf(cell.accepted.content).Some? <==> cell.job.Some?)
  {
    ReachableIsOk(c, cfg, s);
    assert CellOk(c, cfg, s, s.cells[id]);
  }

  /** After a long enough wait every unfinished row, or its job, can be claimed. */
  lemma NothingIsStranded(c: Crypto, cfg: Config, s: Sys, id: Id)
    requires Reachable(c, cfg, s) && id in s.cells && !Terminal(s.cells[id].row.status)
    ensures exists seconds: nat ::
              var t := Apply(c, cfg, s, Wait(seconds));
              || ClaimableRow(t.cells[id].row, t.now)
              || (t.cells[id].job.Some? && ClaimableJob(t.cells[id].job.value, t.now))
  {
    ReachableIsOk(c, cfg, s);
    var cell := s.cells[id];
    assert CellOk(c, cfg, s, cell);
    var due :=
      if cell.row.status.AwaitingSymbols?
      then (if cell.job.value.lease.Lease? then cell.job.value.lease.expiresAt else cell.job.value.nextAttemptAt)
      else (if cell.row.lease.Lease? then cell.row.lease.expiresAt else cell.row.nextAttemptAt);
    var seconds: nat := Max(0, due - s.now);
    var t := Apply(c, cfg, s, Wait(seconds));
    assert ClaimableRow(t.cells[id].row, t.now) || (t.cells[id].job.Some? && ClaimableJob(t.cells[id].job.value, t.now));
  }

  /** The current fingerprint is the symbolized one for finished Java incidents and the raw one otherwise. */
  lemma FingerprintIsCurrent(c: Crypto, cfg: Config, s: Sys, id: Id)
    requires Reachable(c, cfg, s) && id in s.cells
    ensures s.cells[id].row.rawFingerprint == s.cells[id].accepted.content.rawFingerprint
    ensures s.cells[id].row.fingerprint == CurrentFingerprint(s.cells[id].row.rawFingerprint, s.cells[id].job)
  {
    ReachableIsOk(c, cfg, s);
    assert CellOk(c, cfg, s, s.cells[id]);
  }

  // ----- attempt budgets -----

  /** The tool is started at most max_attempts times and a row is retried at most max_attempts - 1 times. */
  lemma BudgetsHold(c: Crypto, cfg: Config, s: Sys, id: Id)
    requires Reachable(c, cfg, s) && id in s.cells
    ensures s.cells[id].toolStarts <= cfg.jobMaxAttempts
    ensures s.cells[id].retries <= Max(0, cfg.rowMaxAttempts - 1)
  {
    ReachableIsOk(c, cfg, s);
    assert CellOk(c, cfg, s, s.cells[id]);
  }

  datatype Label = LabelRetry | LabelFinal

  function ReportedLabel(retryable: bool, seen: nat, maxAttempts: nat): Label {
    if retryable && seen < maxAttempts then LabelRetry else LabelFinal
  }

  lemma ExportLabelCell(cfg: Config, now: int, id: Id, owner: Token, retryable: bool, retryAfter: Option<nat>, before: Cell)
    requires Protocol(cfg, before) && owner in before.rowMemo && OwnsRow(before.row, owner, now)
    ensures var after := StepCell(cfg, now, FailExport(owner, id, retryable, retryAfter), id, before);
            var report := ReportedLabel(retryable, before.rowMemo[owner], cfg.rowMaxAttempts);
            && report == ReportedLabel(retryable, before.row.attempts, cfg.rowMaxAttempts)
            && after.row.status == (if report.LabelRetry? then Pending else DeadLetter)
            && after.retries == before.retries + (if report.LabelRetry? then 1 else 0)
  {
  }

  /** The label export_once reports is what the stored row became, and the stored count would have decided the same. */
  lemma ExportLabelIsStored(c: Crypto, cfg: Config, s: Sys, id: Id, owner: Token, retryable: bool, retryAfter: Option<nat>)
    requires Reachable(c, cfg, s) && id in s.cells && owner in s.cells[id].rowMemo
    requires OwnsRow(s.cells[id].row, owner, s.now)
    ensures var before := s.cells[id]; var after := Apply(c, cfg, s, FailExport(owner, id, retryable, retryAfter)).cells[id];
            var report := ReportedLabel(retryable, before.rowMemo[owner], cfg.rowMaxAttempts);
            && report == ReportedLabel(retryable, before.row.attempts, cfg.rowMaxAttempts)
            && after.row.status == (if report.LabelRetry? then Pending else DeadLetter)
            && after.retries == before.retries + (if report.LabelRetry? then 1 else 0)
  {
    ReachableIsOk(c, cfg, s);
    assert CellOk(c, cfg, s, s.cells[id]);
    WorkerStepAt(c, cfg, s, FailExport(owner, id, retryable, retryAfter), id);
    ExportLabelCell(cfg, s.now, id, owner, retryable, retryAfter, s.cells[id]);
  }

  lemma SymbolLabelCell(cfg: Config, now: int, id: Id, owner: Token, retryable: bool, before: Cell)
    requires Protocol(cfg, before) && before.job.Some? && owner in before.jobMemo && OwnsJob(before.job.value, owner, now)
    ensures var after := StepCell(cfg, now, FailSymbols(owner, id, retryable), id, before);
            var memo := before.jobMemo[owner];
            var report := ReportedLabel(retryable, memo.attempts, cfg.jobMaxAttempts);
            && after.job.Some?
            && after.job.value.status == (if report.LabelRetry? then Queued else Failed)
            && (report == ReportedLabel(retryable, before.job.value.attempts, cfg.jobMaxAttempts)
                <==> !(memo.lost && retryable && before.job.value.attempts + 1 == cfg.jobMaxAttempts))
  {
  }

  /**
   * For jobs the reported label is always what was stored, but the in-memory decision agrees with
   * the stored attempt count exactly when this was not a retryable failure on the last attempt
   * after a rolled-back start.
   */
  lemma SymbolLabelIsStored(c: Crypto, cfg: Config, s: Sys, id: Id, owner: Token, retryable: bool)
    requires Reachable(c, cfg, s) && id in s.cells && s.cells[id].job.Some? && owner in s.cells[id].jobMemo
    requires OwnsJob(s.cells[id].job.value, owner, s.now)
    ensures var before := s.cells[id]; var after := Apply(c, cfg, s, FailSymbols(owner, id, retryable)).cells[id];
            var memo := before.jobMemo[owner];
            var report := ReportedLabel(retryable, memo.attempts, cfg.jobMaxAttempts);
            && after.job.Some?
            && after.job.value.status == (if report.LabelRetry? then Queued else Failed)
            && (report == ReportedLabel(retryable, before.job.value.attempts, cfg.jobMaxAttempts)
                <==> !(memo.lost && retryable && before.job.value.attempts + 1 == cfg.jobMaxAttempts))
  {
    ReachableIsOk(c, cfg, s);
    assert CellOk(c, cfg, s, s.cells[id]);
    WorkerStepAt(c, cfg, s, FailSymbols(owner, id, retryable), id);
    SymbolLabelCell(cfg, s.now, id, owner, retryable, s.cells[id]);
  }

  lemma LostStartCell(cfg: Config, now: int, id: Id, owner: Token, cell: Cell)
    requires Protocol(cfg, cell) && cell.job.Some? && owner in cell.jobMemo
    requires OwnsJob(cell.job.value, owner, now) && !cell.jobMemo[owner].lost
    requires cell.job.value.attempts + 1 == cfg.jobMaxAttempts
    ensures var first := StepCell(cfg, now, Start(owner, id, RolledBack), id, cell);
            var after := StepCell(cfg, now, FailSymbols(owner, id, true), id, first);
            && after.job.Some? && after.job.value.status.Failed?
            && after.job.value.attempts < cfg.jobMaxAttempts
            && after.toolStarts == cell.toolStarts
  {
    var first := StepCell(cfg, now, Start(owner, id, RolledBack), id, cell);
    assert first.jobMemo[owner] == JobMemo(cfg.jobMaxAttempts, true);
  }

  /** The disagreement is real: a rolled-back last start followed by a retryable failure gives the job up without the tool. */
  lemma LostStartForfeitsLastAttempt(c: Crypto, cfg: Config, s: Sys, id: Id, owner: Token)
    requires Reachable(c, cfg, s) && id in s.cells && s.cells[id].job.Some? && owner in s.cells[id].jobMemo
    requires OwnsJob(s.cells[id].job.value, owner, s.now) && !s.cells[id].jobMemo[owner].lost
    requires s.cells[id].job.value.attempts + 1 == cfg.jobMaxAttempts
    ensures var second := Apply(c, cfg, Apply(c, cfg, s, Start(owner, id, RolledBack)), FailSymbols(owner, id, true));
            && id in second.cells
            && var after := second.cells[id];
            && after.job.Some? && after.job.value.status.Failed?
            && after.job.value.attempts < cfg.jobMaxAttempts
            && after.toolStarts == s.cells[id].toolStarts
  {
    ReachableIsOk(c, cfg, s);
    WorkerStepAt(c, cfg, s, Start(owner, id, RolledBack), id);
    WorkerStepAt(c, cfg, Apply(c, cfg, s, Start(owner, id, RolledBack)), FailSymbols(owner, id, true), id);
    LostStartCell(cfg, s.now, id, owner, s.cells[id]);
  }

  // ----- replay identity -----

  /** Every stored event of the batch has its first identity, and its key is held. */
  ghost predicate FirstIdentities(s: Sys, meta: Meta, m: map<string, Prepared>, ring: Option<KeyRing>) {
    forall id <- s.cells :: Hits(s.cells[id], meta.tenant, m) ==>
      && s.cells[id].accepted == IdentityOf(meta, m[s.cells[id].row.stored.eventId].submission)
      && KnowsVersion(ring, s.cells[id].row.stored)
  }

  lemma AllMatchIsIdentity(c: Crypto, cfg: Config, s: Sys, meta: Meta, m: map<string, Prepared>, ring: Option<KeyRing>)
    requires Inv(c, cfg, s) && Injective(c) && RingOf(ring, s.keys)
    ensures AllMatch(c, ring, meta, s.cells, m) <==> FirstIdentities(s, meta, m, ring)
  {
    AllMatchIff(c, ring, meta, s.cells, m);
    forall id <- s.cells | Hits(s.cells[id], meta.tenant, m)
      ensures var s1 := m[s.cells[id].row.stored.eventId].submission;
              Matches(c, ring, meta, s1, s.cells[id].row.stored)
              <==> s.cells[id].accepted == IdentityOf(meta, s1) && KnowsVersion(ring, s.cells[id].row.stored)
    {
      assert CellOk(c, cfg, s, s.cells[id]);
      MatchIsIdentity(c, ring, s.keys, meta, m[s.cells[id].row.stored.eventId].submission, s.cells[id].accepted, s.cells[id].row.stored);
    }
  }

  /** A batch is acknowledged exactly when it prepares and every stored event of it has its first identity. */
  lemma RespondIff(c: Crypto, cfg: Config, s: Sys, meta: Meta, events: seq<Submission>, ring: Option<KeyRing>)
    requires Reachable(c, cfg, s) && Injective(c) && RingOf(ring, s.keys)
    ensures var r := PrepareAll(c, ring, meta, events);
            && (r.Err? ==> Respond(c, s, meta, events, ring) == Err(r.error))
            && (r.Ok? ==> (Respond(c, s, meta, events, ring).Ok? <==> FirstIdentities(s, meta, r.value, ring)))
            && (r.Ok? && Respond(c, s, meta, events, ring).Err? ==>
                  Respond(c, s, meta, events, ring) == Err(EventIdConflict))
  {
    ReachableIsOk(c, cfg, s);
    var r := PrepareAll(c, ring, meta, events);
    if r.Ok? {
      AllMatchIsIdentity(c, cfg, s, meta, r.value, ring);
    }
  }

  /**
   * Whatever ran since the event was first accepted (export, symbolization, pruning, key
   * rotation), resubmitting its id is acknowledged as a duplicate exactly when it is acceptable
   * on its own, has the first accepted identity, and the ring still holds the row's key.
   */
  lemma ReplayIsDuplicateIff(c: Crypto, cfg: Config, first: Sys, actions: seq<Action>, id: Id,
                             meta: Meta, sub: Submission, ring: Option<KeyRing>)
    requires Reachable(c, cfg, first) && id in first.cells && Injective(c)
    requires RingOf(ring, Exec(c, cfg, first, actions).keys)
    requires first.cells[id].row.stored.tenant == meta.tenant && first.cells[id].row.stored.eventId == sub.eventId
    ensures var s := Exec(c, cfg, first, actions);
            var reply := Respond(c, s, meta, [sub], ring);
            var same := first.cells[id].accepted == IdentityOf(meta, sub) && KnowsVersion(ring, first.cells[id].row.stored);
            && (reply == Ok(InsertResult(1, 0, 1)) <==> Acceptable(ring, meta, sub) && same)
            && (Acceptable(ring, meta, sub) && !same ==> reply == Err(EventIdConflict))
  {
    ReachableIsOk(c, cfg, first);
    RunsPreserve(c, cfg, first, actions, id);
    RunsKeepInv(c, cfg, first, actions);
    ReplayAt(c, cfg, Exec(c, cfg, first, actions), id, meta, sub, ring);
  }

  lemma RespondOne(c: Crypto, s: Sys, meta: Meta, sub: Submission, ring: Option<KeyRing>, m: map<string, Prepared>)
    requires PrepareAll(c, ring, meta, [sub]) == Ok(m) && m.Keys == {sub.eventId} && sub.eventId in StoredIds(s.cells, meta.tenant)
    ensures Respond(c, s, meta, [sub], ring)
            == if AllMatch(c, ring, meta, s.cells, m) then Ok(InsertResult(1, 0, 1)) else Err(EventIdConflict)
  {
    assert m.Keys - StoredIds(s.cells, meta.tenant) == {};
  }

  lemma OnlyIdentity(s: Sys, id: Id, meta: Meta, sub: Submission, ring: Option<KeyRing>, m: map<string, Prepared>)
    requires id in s.cells && s.cells[id].row.stored.eventId == sub.eventId && sub.eventId in m && m[sub.eventId].submission == sub
    requires Hits(s.cells[id], meta.tenant, m) && forall other <- s.cells :: Hits(s.cells[other], meta.tenant, m) ==> other == id
    ensures FirstIdentities(s, meta, m, ring)
            <==> s.cells[id].accepted == IdentityOf(meta, sub) && KnowsVersion(ring, s.cells[id].row.stored)
  {
  }

  lemma ReplayAt(c: Crypto, cfg: Config, s: Sys, id: Id, meta: Meta, sub: Submission, ring: Option<KeyRing>)
    requires Inv(c, cfg, s) && id in s.cells && Injective(c) && RingOf(ring, s.keys)
    requires s.cells[id].row.stored.tenant == meta.tenant && s.cells[id].row.stored.eventId == sub.eventId
    ensures var reply := Respond(c, s, meta, [sub], ring);
            var same := s.cells[id].accepted == IdentityOf(meta, sub) && KnowsVersion(ring, s.cells[id].row.stored);
            && (reply == Ok(InsertResult(1, 0, 1)) <==> Acceptable(ring, meta, sub) && same)
            && (Acceptable(ring, meta, sub) && !same ==> reply == Err(EventIdConflict))
  {
    PrepareOne(c, ring, meta, sub);
    if Acceptable(ring, meta, sub) {
      var m := PrepareAll(c, ring, meta, [sub]).value;
      OnlyHit(s.cells, id, meta.tenant, m, sub.eventId);
      RespondOne(c, s, meta, sub, ring, m);
      AllMatchIsIdentity(c, cfg, s, meta, m, ring);
      OnlyIdentity(s, id, meta, sub, ring, m);
    }
  }

  lemma OnlyHit(cells: map<Id, Cell>, id: Id, tenant: string, m: map<string, Prepared>, eventId: string)
    requires UniqueKeys(cells) && id in cells && m.Keys == {eventId}
    requires cells[id].row.stored.tenant == tenant && cells[id].row.stored.eventId == eventId
    ensures Hits(cells[id], tenant, m) && eventId in StoredIds(cells, tenant)
    ensures forall other <- cells :: Hits(cells[other], tenant, m) ==> other == id
  {
    StoredIdsAre(cells, tenant);
    forall other <- cells | Hits(cells[other], tenant, m) ensures other == id {
      assert SameKey(cells[other], cells[id]);
    }
  }

  lemma PrepareOne(c: Crypto, ring: Option<KeyRing>, meta: Meta, sub: Submission)
    ensures PrepareAll(c, ring, meta, [sub]).Ok? <==> Acceptable(ring, meta, sub)
    ensures Acceptable(ring, meta, sub) ==>
              var m := PrepareAll(c, ring, meta, [sub]).value;
              m.Keys == {sub.eventId} && m[sub.eventId].submission == sub
  {
    assert [sub][..0] == [];
    assert PrepareAll(c, ring, meta, [sub][..0]) == Ok(map[]);
    AcceptableIff(c, ring, meta, sub);
  }

  /** Counts of an acknowledgement are honest: nothing is counted twice and nothing is lost. */
  lemma CountsAreHonest(c: Crypto, cfg: Config, s: Sys, meta: Meta, events: seq<Submission>, ring: Option<KeyRing>)
    requires Respond(c, s, meta, events, ring).Ok?
    ensures var r := Respond(c, s, meta, events, ring).value;
            && r.received == |events| == r.inserted + r.duplicates
            && 0 <= r.duplicates
  {
    PreparedSize(c, ring, meta, events);
    var m := PrepareAll(c, ring, meta, events).value;
    CardinalityMono(m.Keys - StoredIds(s.cells, meta.tenant), m.Keys);
  }

  lemma {:induction false} PreparedSize(c: Crypto, ring: Option<KeyRing>, meta: Meta, events: seq<Submission>)
    requires PrepareAll(c, ring, meta, events).Ok?
    ensures |PrepareAll(c, ring, meta, events).value.Keys| <= |events|
  {
    if events != [] {
      var n := |events| - 1;
      PreparedSize(c, ring, meta, events[..n]);
      var m := PrepareAll(c, ring, meta, events[..n]).value;
      assert PrepareAll(c, ring, meta, events).value.Keys == m.Keys + {events[n].eventId};
    }
  }
}
