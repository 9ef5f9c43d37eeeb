/** The statements of the store are the actions of the protocol, seen on the two tables. */
module StoreRefinement {
  import opened Prelude
  import opened Replay
  import opened Delivery
  import opened DeliveryRuns
  import DeliveryTheorems
  import S = DeliveryStore

  // ----- ingest -----

  lemma GrowsAt(before: map<Id, Cell>, after: map<Id, Cell>, id: Id)
    requires UniqueKeys(after) && (forall k <- before :: k in after && after[k].row.stored == before[k].row.stored)
    requires id in after && id !in before
    ensures after[id].row.stored.eventId !in StoredEventIds(RowsOf(before), after[id].row.stored.tenant)
  {
    var key := after[id].row.stored;
    if key.eventId in StoredIds(before, key.tenant) {
      var k := HolderOf(before, key.tenant, key.eventId);
      assert SameKey(after[k], after[id]);
    }
  }

  /** Whatever runs between insert_batch's first read and its upsert, the row table only grows in the sense it relies on. */
  lemma OthersOnlyGrow(c: Crypto, cfg: Config, s: Sys, actions: seq<Action>)
    requires Inv(c, cfg, s)
    ensures S.Grows(RowsOf(s.cells), RowsOf(Exec(c, cfg, s, actions).cells))
  {
    var t := Exec(c, cfg, s, actions);
    RunsKeepInv(c, cfg, s, actions);
    forall id <- s.cells ensures id in t.cells && t.cells[id].row.stored == s.cells[id].row.stored {
      DeliveryTheorems.RunsPreserve(c, cfg, s, actions, id);
    }
    forall id <- t.cells | id !in s.cells ensures t.cells[id].row.stored.eventId !in StoredEventIds(RowsOf(s.cells), t.cells[id].row.stored.tenant) {
      GrowsAt(s.cells, t.cells, id);
    }
    GrowsFromCells(s.cells, t.cells);
  }

  lemma GrowsFromCells(before: map<Id, Cell>, after: map<Id, Cell>)
    requires forall id <- before :: id in after && after[id].row.stored == before[id].row.stored
    requires forall id <- after :: id in before || after[id].row.stored.eventId !in StoredEventIds(RowsOf(before), after[id].row.stored.tenant)
    ensures S.Grows(RowsOf(before), RowsOf(after))
  {
  }

  /** Row ids back to the event ids they were given to. */
  function Inverse(ids: map<string, Id>): map<Id, string>
    requires forall d, e :: d in ids && e in ids && ids[d] == ids[e] ==> d == e
  {
    map e | e in ids :: ids[e] := e
  }

  /** What insert_batch has established when it returns without error and nothing interfered. */
  ghost predicate InsertedBatch(c: Crypto, s: Sys, meta: Meta, events: seq<Submission>, ring: Option<KeyRing>, m: map<string, Prepared>,
                                ids: map<string, Id>, rows: Rows, from: nat, next: nat)
  {
    && RingOf(ring, s.keys) && (forall id <- s.cells :: id < from)
    && PrepareAll(c, ring, meta, events) == Ok(m) && RowsMatch(c, ring, meta, RowsOf(s.cells), m)
    && ids.Keys == S.NewIds(m, RowsOf(s.cells), meta.tenant)
    && S.Inserted(RowsOf(s.cells), rows, ids, m, from, next, s.now)
  }

  lemma InverseOf(ids: map<string, Id>)
    requires forall d, e :: d in ids && e in ids && ids[d] == ids[e] ==> d == e
    ensures Inverse(ids).Keys == ids.Values && Inverse(ids).Values == ids.Keys
    ensures forall e <- ids :: ids[e] in Inverse(ids) && Inverse(ids)[ids[e]] == e
    ensures forall i <- Inverse(ids) :: Inverse(ids)[i] in ids && ids[Inverse(ids)[i]] == i
  {
    var alloc := Inverse(ids);
    forall e | e in ids ensures e in alloc.Values {
      assert alloc[ids[e]] == e;
    }
  }

  lemma BatchAllocates(c: Crypto, s: Sys, meta: Meta, events: seq<Submission>, ring: Option<KeyRing>, m: map<string, Prepared>,
                       ids: map<string, Id>, rows: Rows, from: nat, next: nat)
    requires InsertedBatch(c, s, meta, events, ring, m, ids, rows, from, next)
    ensures Allocates(s.cells, meta.tenant, m, Inverse(ids))
  {
    InverseOf(ids);
  }

  lemma BatchAccepted(c: Crypto, s: Sys, a: Action, m: map<string, Prepared>, ids: map<string, Id>, rows: Rows, from: nat, next: nat)
    requires a.Ingest? && InsertedBatch(c, s, a.meta, a.events, a.ring, m, ids, rows, from, next)
    requires a.at == s.now && a.alloc == Inverse(ids)
    ensures Accepts(c, s, a)
  {
    BatchAllocates(c, s, a.meta, a.events, a.ring, m, ids, rows, from, next);
  }

  lemma PreparedContent(c: Crypto, ring: Option<KeyRing>, meta: Meta, events: seq<Submission>, m: map<string, Prepared>)
    requires Injective(c) && (ring.Some? ==> ValidRing(ring.value)) && PrepareAll(c, ring, meta, events) == Ok(m)
    ensures forall i :: 0 <= i < |events| ==> events[i].eventId in m && m[events[i].eventId].submission.content == events[i].content
    ensures forall e <- m :: m[e].submission in events && m[e].submission.eventId == e
  {
    PrepareAllIff(c, ring, meta, events);
    forall e <- m ensures m[e].submission in events && m[e].submission.eventId == e {
      PreparedEntries(c, ring, meta, events, e);
    }
    forall i | 0 <= i < |events| ensures events[i].eventId in m && m[events[i].eventId].submission.content == events[i].content {
      assert IdentityOf(meta, m[events[i].eventId].submission) == IdentityOf(meta, events[i]);
    }
  }

  /** The jobs' kinds are those of the prepared events: an id is not reused within a batch. */
  lemma RelevantIsPrepared(c: Crypto, ring: Option<KeyRing>, meta: Meta, events: seq<Submission>, m: map<string, Prepared>, e: string)
    requires Injective(c) && (ring.Some? ==> ValidRing(ring.value)) && PrepareAll(c, ring, meta, events) == Ok(m) && e in m
    ensures KindOf(m[e].submission.content) == if e in S.RelevantKinds(events) then Some(S.RelevantKinds(events)[e]) else None
  {
    PreparedContent(c, ring, meta, events, m);
    S.RelevantAre(events);
  }

  /** Row and job of one cell, in two tables. */
  predicate InTables(cells: map<Id, Cell>, rows: Rows, jobs: Jobs, id: Id)
    requires id in cells
  {
    && id in rows && rows[id] == cells[id].row
    && (id in jobs <==> cells[id].job.Some?) && (id in jobs ==> jobs[id] == cells[id].job.value)
  }

  lemma TablesAre(cells: map<Id, Cell>, rows: Rows, jobs: Jobs)
    requires rows.Keys == cells.Keys && jobs.Keys <= cells.Keys && forall id <- cells :: InTables(cells, rows, jobs, id)
    ensures RowsOf(cells) == rows && JobsOf(cells) == jobs
  {
  }

  lemma StoredCellInTables(c: Crypto, cfg: Config, s: Sys, meta: Meta, events: seq<Submission>, ring: Option<KeyRing>, m: map<string, Prepared>,
                           id: Id)
    requires Inv(c, cfg, s) && Injective(c) && RingOf(ring, s.keys) && id in s.cells
    requires PrepareAll(c, ring, meta, events) == Ok(m) && RowsMatch(c, ring, meta, RowsOf(s.cells), m)
    requires Hits(s.cells[id], meta.tenant, m) && s.cells[id].row.stored.eventId in S.RelevantKinds(events)
    ensures s.cells[id].job.Some?
  {
    var cell := s.cells[id];
    var e := cell.row.stored.eventId;
    assert CellOk(c, cfg, s, cell);
    AllMatchIff(c, ring, meta, s.cells, m);
    MatchIsIdentity(c, ring, s.keys, meta, m[e].submission, cell.accepted, cell.row.stored);
    RelevantIsPrepared(c, ring, meta, events, m, e);
  }

  lemma {:induction false} RelevantInBatch(c: Crypto, ring: Option<KeyRing>, meta: Meta, events: seq<Submission>, m: map<string, Prepared>)
    requires PrepareAll(c, ring, meta, events) == Ok(m)
    ensures S.RelevantKinds(events).Keys <= m.Keys
  {
    if events != [] {
      var n := |events| - 1;
      RelevantInBatch(c, ring, meta, events[..n], PrepareAll(c, ring, meta, events[..n]).value);
    }
  }

  /** A new row and its job are the ones a new cell has. */
  lemma NewCellInTables(meta: Meta, p: Prepared, now: int, enabled: bool)
    ensures var cell := NewCell(meta, p, now, enabled);
            var kind := KindOf(p.submission.content);
            && cell.job == (if kind.Some? then Some(S.EnqueuedJob(NewRow(p, now), kind.value, now, enabled)) else None)
            && cell.row == (if kind.Some? then HoldForSymbols(NewRow(p, now), cell.job.value) else NewRow(p, now))
  {
  }

  lemma OldInTables(c: Crypto, cfg: Config, s: Sys, meta: Meta, events: seq<Submission>, ring: Option<KeyRing>, m: map<string, Prepared>,
                    ids: map<string, Id>, rows: Rows, from: nat, next: nat, enabled: bool, jobs: Jobs, id: Id)
    requires Inv(c, cfg, s) && Injective(c) && InsertedBatch(c, s, meta, events, ring, m, ids, rows, from, next) && id in s.cells
    requires jobs == S.EnqueuedJobs(rows, JobsOf(s.cells), meta.tenant, S.RelevantKinds(events), next, s.now, enabled)
    ensures InTables(s.cells, S.HeldRows(rows, JobsOf(s.cells), jobs), jobs, id)
  {
    assert id in RowsOf(s.cells) && RowsOf(s.cells)[id] == s.cells[id].row;
    if s.cells[id].job.None? {
      RelevantInBatch(c, ring, meta, events, m);
      if id in S.Unqueued(rows, JobsOf(s.cells), meta.tenant, S.RelevantKinds(events), next) {
        StoredCellInTables(c, cfg, s, meta, events, ring, m, id);
        assert false;
      }
    }
  }

  lemma NewInTables(c: Crypto, s: Sys, meta: Meta, events: seq<Submission>, ring: Option<KeyRing>, m: map<string, Prepared>,
                    ids: map<string, Id>, rows: Rows, from: nat, next: nat, enabled: bool, jobs: Jobs, e: string)
    requires Injective(c) && InsertedBatch(c, s, meta, events, ring, m, ids, rows, from, next) && e in ids
    requires jobs == S.EnqueuedJobs(rows, JobsOf(s.cells), meta.tenant, S.RelevantKinds(events), next, s.now, enabled)
    ensures var cell := NewCell(meta, m[e], s.now, enabled);
            var held := S.HeldRows(rows, JobsOf(s.cells), jobs);
            && ids[e] in held && held[ids[e]] == cell.row
            && (ids[e] in jobs <==> cell.job.Some?) && (ids[e] in jobs ==> jobs[ids[e]] == cell.job.value)
  {
    var id := ids[e];
    assert id !in s.cells && id !in JobsOf(s.cells);
    PreparedEntries(c, ring, meta, events, e);
    RelevantIsPrepared(c, ring, meta, events, m, e);
    NewCellInTables(meta, m[e], s.now, enabled);
    assert id in S.Unqueued(rows, JobsOf(s.cells), meta.tenant, S.RelevantKinds(events), next) <==> e in S.RelevantKinds(events);
  }

  lemma AcceptedMakes(c: Crypto, cfg: Config, s: Sys, a: Action, m: map<string, Prepared>)
    requires a.Ingest? && Accepts(c, s, a) && PrepareAll(c, a.ring, a.meta, a.events) == Ok(m)
    requires forall id <- a.alloc :: a.alloc[id] in m
    ensures Apply(c, cfg, s, a) == s.(cells := Ingested(s.cells, a.meta, m, a.alloc, a.at, a.enabled))
  {
  }

  /** `cells` are the stored cells and one new cell per inserted row. */
  predicate Added(before: map<Id, Cell>, meta: Meta, m: map<string, Prepared>, ids: map<string, Id>, at: int, enabled: bool, cells: map<Id, Cell>) {
    && cells.Keys == before.Keys + ids.Values
    && (forall id <- before :: cells[id] == before[id])
    && (forall e <- ids :: e in m && cells[ids[e]] == NewCell(meta, m[e], at, enabled))
  }

  lemma IngestedNew(cells: map<Id, Cell>, meta: Meta, m: map<string, Prepared>, alloc: map<Id, string>, at: int, enabled: bool, id: Id)
    requires (forall id <- alloc :: alloc[id] in m) && id in alloc && id !in cells
    ensures Ingested(cells, meta, m, alloc, at, enabled)[id] == NewCell(meta, m[alloc[id]], at, enabled)
  {
  }

  lemma IngestedAdds(before: map<Id, Cell>, meta: Meta, m: map<string, Prepared>, ids: map<string, Id>, alloc: map<Id, string>,
                     at: int, enabled: bool, cells: map<Id, Cell>)
    requires alloc.Keys == ids.Values && (forall e <- ids :: ids[e] in alloc && alloc[ids[e]] == e && ids[e] !in before)
    requires forall id <- alloc :: alloc[id] in m
    requires cells == Ingested(before, meta, m, alloc, at, enabled) && forall id <- before :: id in cells && cells[id] == before[id]
    ensures Added(before, meta, m, ids, at, enabled, cells)
  {
    IngestedKeys(before, meta, m, alloc, at, enabled);
    forall e <- ids ensures e in m && cells[ids[e]] == NewCell(meta, m[e], at, enabled) {
      IngestedNew(before, meta, m, alloc, at, enabled, ids[e]);
    }
  }

  lemma InsertedAreNew(before: map<Id, Cell>, after: Rows, ids: map<string, Id>, m: map<string, Prepared>, from: nat, next: nat, now: int)
    requires S.Inserted(RowsOf(before), after, ids, m, from, next, now) && forall id <- before :: id < from
    ensures ids.Keys <= m.Keys && ids.Values !! before.Keys && after.Keys == before.Keys + ids.Values
    ensures forall d, e :: d in ids && e in ids && ids[d] == ids[e] ==> d == e
  {
    forall id | id in ids.Values ensures id !in before {
      var e :| e in ids && ids[e] == id;
    }
  }

  lemma IngestAdds(c: Crypto, cfg: Config, s: Sys, a: Action, m: map<string, Prepared>, ids: map<string, Id>)
    requires Inv(c, cfg, s) && a.Ingest? && Accepts(c, s, a) && PrepareAll(c, a.ring, a.meta, a.events) == Ok(m)
    requires forall d, e :: d in ids && e in ids && ids[d] == ids[e] ==> d == e
    requires ids.Keys <= m.Keys && ids.Values !! s.cells.Keys && a.alloc == Inverse(ids)
    ensures Added(s.cells, a.meta, m, ids, a.at, a.enabled, Apply(c, cfg, s, a).cells)
  {
    InverseOf(ids);
    AcceptedMakes(c, cfg, s, a, m);
    IngestStep(c, cfg, s, a, Apply(c, cfg, s, a));
    assert forall e <- ids :: ids[e] in ids.Values;
    IngestedAdds(s.cells, a.meta, m, ids, a.alloc, a.at, a.enabled, Apply(c, cfg, s, a).cells);
  }

  lemma CellInTables(c: Crypto, cfg: Config, s: Sys, meta: Meta, events: seq<Submission>, ring: Option<KeyRing>, m: map<string, Prepared>,
                     ids: map<string, Id>, rows: Rows, from: nat, next: nat, enabled: bool, jobs: Jobs, held: Rows, cells: map<Id, Cell>, id: Id)
    requires Inv(c, cfg, s) && Injective(c) && InsertedBatch(c, s, meta, events, ring, m, ids, rows, from, next)
    requires Added(s.cells, meta, m, ids, s.now, enabled, cells) && id in cells
    requires jobs == S.EnqueuedJobs(rows, JobsOf(s.cells), meta.tenant, S.RelevantKinds(events), next, s.now, enabled)
    requires held == S.HeldRows(rows, JobsOf(s.cells), jobs)
    ensures InTables(cells, held, jobs, id)
  {
    if id in s.cells {
      OldInTables(c, cfg, s, meta, events, ring, m, ids, rows, from, next, enabled, jobs, id);
    } else {
      var e :| e in ids && ids[e] == id;
      NewInTables(c, s, meta, events, ring, m, ids, rows, from, next, enabled, jobs, e);
    }
  }

  lemma AddedTables(c: Crypto, cfg: Config, s: Sys, meta: Meta, events: seq<Submission>, ring: Option<KeyRing>, m: map<string, Prepared>,
                    ids: map<string, Id>, rows: Rows, from: nat, next: nat, enabled: bool, jobs: Jobs, held: Rows, cells: map<Id, Cell>)
    requires Inv(c, cfg, s) && Injective(c) && InsertedBatch(c, s, meta, events, ring, m, ids, rows, from, next)
    requires Added(s.cells, meta, m, ids, s.now, enabled, cells) && cells.Keys == rows.Keys
    requires jobs == S.EnqueuedJobs(rows, JobsOf(s.cells), meta.tenant, S.RelevantKinds(events), next, s.now, enabled)
    requires held == S.HeldRows(rows, JobsOf(s.cells), jobs)
    ensures RowsOf(cells) == held && JobsOf(cells) == jobs
  {
    forall id <- cells ensures InTables(cells, held, jobs, id) {
      CellInTables(c, cfg, s, meta, events, ring, m, ids, rows, from, next, enabled, jobs, held, cells, id);
    }
    EnqueuedWithin(s.cells, rows, meta.tenant, S.RelevantKinds(events), next, s.now, enabled);
    TablesAre(cells, held, jobs);
  }

  lemma BatchAdds(c: Crypto, cfg: Config, s: Sys, a: Action, m: map<string, Prepared>, ids: map<string, Id>, rows: Rows, from: nat, next: nat)
    requires Inv(c, cfg, s) && a.Ingest? && InsertedBatch(c, s, a.meta, a.events, a.ring, m, ids, rows, from, next)
    requires a.at == s.now && a.alloc == Inverse(ids)
    ensures Accepts(c, s, a) && Added(s.cells, a.meta, m, ids, a.at, a.enabled, Apply(c, cfg, s, a).cells)
    ensures Apply(c, cfg, s, a).cells.Keys == rows.Keys
  {
    BatchAccepted(c, s, a, m, ids, rows, from, next);
    InsertedAreNew(s.cells, rows, ids, m, from, next, s.now);
    IngestAdds(c, cfg, s, a, m, ids);
  }

  /**
   * insert_batch followed by enqueue_symbolization_jobs in one transaction is the ingest action: the
   * two tables are what that action makes, under the row ids the insert gave out.
   */
  lemma InsertAndEnqueueIsIngest(c: Crypto, cfg: Config, s: Sys, a: Action, m: map<string, Prepared>, ids: map<string, Id>, rows: Rows,
                                 from: nat, next: nat, jobs: Jobs)
    requires Inv(c, cfg, s) && Injective(c) && a.Ingest? && InsertedBatch(c, s, a.meta, a.events, a.ring, m, ids, rows, from, next)
    requires a.at == s.now && a.alloc == Inverse(ids)
    requires jobs == S.EnqueuedJobs(rows, JobsOf(s.cells), a.meta.tenant, S.RelevantKinds(a.events), next, s.now, a.enabled)
    ensures Accepts(c, s, a)
    ensures JobsOf(Apply(c, cfg, s, a).cells) == jobs
    ensures RowsOf(Apply(c, cfg, s, a).cells) == S.HeldRows(rows, JobsOf(s.cells), jobs)
  {
    BatchAdds(c, cfg, s, a, m, ids, rows, from, next);
    AddedTables(c, cfg, s, a.meta, a.events, a.ring, m, ids, rows, from, next, a.enabled, jobs,
                S.HeldRows(rows, JobsOf(s.cells), jobs), Apply(c, cfg, s, a).cells);
  }

  lemma EnqueuedWithin(cells: map<Id, Cell>, rows: Rows, tenant: string, relevant: map<string, JobKind>, n: nat, now: int, enabled: bool)
    requires cells.Keys <= rows.Keys
    ensures var jobs := S.EnqueuedJobs(rows, JobsOf(cells), tenant, relevant, n, now, enabled);
            jobs.Keys <= rows.Keys && S.HeldRows(rows, JobsOf(cells), jobs).Keys == rows.Keys
  {
    S.EnqueuedKeys(rows, JobsOf(cells), tenant, relevant, n, now, enabled);
  }

  // ----- export workers -----

  predicate Living(s: Sys, owner: Token, ids: set<Id>) {
    forall id <- ids :: id in s.cells && owner in s.cells[id].rowMemo
  }

  /** claim_batch on the tables is a claim action, whatever else the workers remember. */
  lemma ClaimBatchIsClaimRows(cfg: Config, s: Sys, owner: Token, ids: set<Id>, locked: set<Id>)
    requires owner !in s.tokens && ids <= S.DueRows(RowsOf(s.cells), s.now, locked)
    ensures RowsOf(WorkerStep(cfg, s, ClaimRows(owner, ids)).cells) == S.ClaimedRows(RowsOf(s.cells), ids, owner, s.now + cfg.rowLease)
    ensures JobsOf(WorkerStep(cfg, s, ClaimRows(owner, ids)).cells) == JobsOf(s.cells)
  {
    forall id <- ids ensures id in s.cells && ClaimableRow(s.cells[id].row, s.now) {
      assert id in RowsOf(s.cells) && RowsOf(s.cells)[id] == s.cells[id].row;
    }
    assert ClaimsNow(s, ClaimRows(owner, ids));
  }

  lemma MarkDeliveredIsDeliver(cfg: Config, s: Sys, owner: Token, ids: set<Id>)
    requires Living(s, owner, ids)
    ensures RowsOf(WorkerStep(cfg, s, DeliverRows(owner, ids)).cells) == S.DeliveredRows(RowsOf(s.cells), ids, owner, s.now)
    ensures JobsOf(WorkerStep(cfg, s, DeliverRows(owner, ids)).cells) == JobsOf(s.cells)
  {
  }

  /** The action writes one cell only. */
  predicate Targets(a: Action, id: Id) {
    (a.FailExport? || a.Start? || a.Park? || a.Complete? || a.FailSymbols?) && a.id == id
  }

  lemma OneCellStep(cfg: Config, s: Sys, a: Action, id: Id)
    requires id in s.cells && Targets(a, id)
    ensures WorkerStep(cfg, s, a) == s.(cells := s.cells[id := StepCell(cfg, s.now, a, id, s.cells[id])])
  {
    var t := WorkerStep(cfg, s, a);
    assert t.tokens == s.tokens;
    assert forall other <- s.cells :: other != id ==> t.cells[other] == s.cells[other];
    assert t.cells == s.cells[id := StepCell(cfg, s.now, a, id, s.cells[id])];
  }

  lemma OneCellTables(cells: map<Id, Cell>, id: Id, cell: Cell)
    requires id in cells && (cell.job.Some? <==> cells[id].job.Some?)
    ensures RowsOf(cells[id := cell]) == RowsOf(cells)[id := cell.row]
    ensures JobsOf(cells[id := cell]) == if cell.job.Some? then JobsOf(cells)[id := cell.job.value] else JobsOf(cells)
  {
  }

  lemma SameTables(cells: map<Id, Cell>, id: Id)
    requires id in cells
    ensures RowsOf(cells)[id := cells[id].row] == RowsOf(cells)
    ensures cells[id].job.Some? ==> JobsOf(cells)[id := cells[id].job.value] == JobsOf(cells)
  {
  }

  /** mark_failed's statements, as actions. */
  function FailActions(owner: Token, held: seq<S.Held>, retryable: bool, retryAfter: Option<nat>): seq<Action> {
    if held == [] then []
    else
      var n := |held| - 1;
      FailActions(owner, held[..n], retryable, retryAfter) + [FailExport(owner, held[n].id, retryable, retryAfter)]
  }

  /** Each listed row is held with the attempt count its claimer saw. */
  predicate HeldBy(s: Sys, owner: Token, held: seq<S.Held>) {
    forall i :: 0 <= i < |held| ==> Remembers(s, owner, held[i])
  }

  predicate Remembers(s: Sys, owner: Token, h: S.Held) {
    h.id in s.cells && owner in s.cells[h.id].rowMemo && s.cells[h.id].rowMemo[owner] == h.attempts
  }

  lemma FailCellIs(cfg: Config, now: int, owner: Token, id: Id, retryable: bool, retryAfter: Option<nat>, cell: Cell)
    requires owner in cell.rowMemo
    ensures var after := StepCell(cfg, now, FailExport(owner, id, retryable, retryAfter), id, cell);
            var seen := cell.rowMemo[owner];
            && after.row == (if OwnsRow(cell.row, owner, now)
                             then FailRow(cell.row, now, ShouldRetry(retryable, seen, cfg.rowMaxAttempts), RowDelay(retryAfter, seen))
                             else cell.row)
            && after.job == cell.job && after.rowMemo == cell.rowMemo
  {
  }

  lemma FailOneIs(c: Crypto, cfg: Config, s: Sys, owner: Token, h: S.Held, retryable: bool, retryAfter: Option<nat>, t: Sys)
    requires Remembers(s, owner, h) && t == Apply(c, cfg, s, FailExport(owner, h.id, retryable, retryAfter))
    ensures RowsOf(t.cells) == S.FailedRow(RowsOf(s.cells), h, owner, s.now, retryable, cfg.rowMaxAttempts, retryAfter)
    ensures JobsOf(t.cells) == JobsOf(s.cells) && t.now == s.now
    ensures t.cells.Keys == s.cells.Keys && forall id <- s.cells :: t.cells[id].rowMemo == s.cells[id].rowMemo
  {
    var a := FailExport(owner, h.id, retryable, retryAfter);
    WorkerIs(c, cfg, s, a);
    OneCellStep(cfg, s, a, h.id);
    FailCellIs(cfg, s.now, owner, h.id, retryable, retryAfter, s.cells[h.id]);
    OneCellTables(s.cells, h.id, StepCell(cfg, s.now, a, h.id, s.cells[h.id]));
    SameTables(s.cells, h.id);
    assert RowsOf(s.cells)[h.id] == s.cells[h.id].row;
  }

  /** mark_failed's loop is the run of one failure action per listed row. */
  lemma {:induction false} MarkFailedIsFail(c: Crypto, cfg: Config, s: Sys, owner: Token, held: seq<S.Held>, retryable: bool, retryAfter: Option<nat>)
    requires HeldBy(s, owner, held)
    ensures var t := Exec(c, cfg, s, FailActions(owner, held, retryable, retryAfter));
            && RowsOf(t.cells) == S.FailedRows(RowsOf(s.cells), held, owner, s.now, retryable, cfg.rowMaxAttempts, retryAfter)
            && JobsOf(t.cells) == JobsOf(s.cells) && t.now == s.now
            && t.cells.Keys == s.cells.Keys && forall id <- s.cells :: t.cells[id].rowMemo == s.cells[id].rowMemo
  {
    if held != [] {
      var n := |held| - 1;
      var front := FailActions(owner, held[..n], retryable, retryAfter);
      var a := FailExport(owner, held[n].id, retryable, retryAfter);
      MarkFailedIsFail(c, cfg, s, owner, held[..n], retryable, retryAfter);
      ExecSnoc(c, cfg, s, front, a);
      var mid := Exec(c, cfg, s, front);
      assert Remembers(s, owner, held[n]);
      FailOneIs(c, cfg, mid, owner, held[n], retryable, retryAfter, Apply(c, cfg, mid, a));
    }
  }

  // ----- symbolizers -----

  lemma ClaimSymbolizationIsClaimJobs(cfg: Config, s: Sys, owner: Token, ids: set<Id>, locked: set<Id>)
    requires owner !in s.tokens && ids <= S.DueJobs(JobsOf(s.cells), s.now, locked)
    ensures JobsOf(WorkerStep(cfg, s, ClaimJobs(owner, ids)).cells) == S.ClaimedJobs(JobsOf(s.cells), ids, owner, s.now + cfg.jobLease)
    ensures RowsOf(WorkerStep(cfg, s, ClaimJobs(owner, ids)).cells) == RowsOf(s.cells)
  {
    forall id <- ids ensures id in s.cells && s.cells[id].job.Some? && ClaimableJob(s.cells[id].job.value, s.now) {
      assert id in JobsOf(s.cells) && JobsOf(s.cells)[id] == s.cells[id].job.value;
    }
    assert ClaimsNow(s, ClaimJobs(owner, ids));
  }

  /** A living symbolizer and the job it claimed. */
  predicate Symbolizes(s: Sys, owner: Token, id: Id) {
    id in s.cells && s.cells[id].job.Some? && owner in s.cells[id].jobMemo
  }

  lemma JobStepTables(cfg: Config, s: Sys, a: Action, id: Id, after: Cell)
    requires id in s.cells && s.cells[id].job.Some? && Targets(a, id) && after == StepCell(cfg, s.now, a, id, s.cells[id]) && after.job.Some?
    ensures RowsOf(WorkerStep(cfg, s, a).cells) == RowsOf(s.cells)[id := after.row]
    ensures JobsOf(WorkerStep(cfg, s, a).cells) == JobsOf(s.cells)[id := after.job.value]
    ensures after.row == s.cells[id].row ==> RowsOf(WorkerStep(cfg, s, a).cells) == RowsOf(s.cells)
    ensures after.job == s.cells[id].job ==> JobsOf(WorkerStep(cfg, s, a).cells) == JobsOf(s.cells)
  {
    OneCellStep(cfg, s, a, id);
    OneCellTables(s.cells, id, after);
    SameTables(s.cells, id);
  }

  lemma StartCellTables(cfg: Config, now: int, owner: Token, id: Id, outcome: StartOutcome, cell: Cell)
    requires cell.job.Some? && owner in cell.jobMemo
    ensures var after := StepCell(cfg, now, Start(owner, id, outcome), id, cell);
            var memo := cell.jobMemo[owner];
            var may := MayStart(cell.job.value, owner, now, memo.attempts, cfg.jobMaxAttempts);
            && after.row == cell.row
            && after.job == (if may && !outcome.RolledBack? then Some(StartAttempt(cell.job.value)) else cell.job)
            && owner in after.jobMemo
            && after.jobMemo[owner].attempts == memo.attempts + (if may then 1 else 0)
  {
  }

  /**
   * start_symbolization_attempt is the start action in all its outcomes: a start whose transaction
   * commits writes the counted job, one that is rolled back or refused leaves both tables, and the
   * worker's own count moves whenever the statement matched.
   */
  lemma StartAttemptIsStart(cfg: Config, s: Sys, owner: Token, id: Id, outcome: StartOutcome)
    requires Symbolizes(s, owner, id)
    ensures var t := WorkerStep(cfg, s, Start(owner, id, outcome));
            var job := s.cells[id].job.value;
            var seen := s.cells[id].jobMemo[owner].attempts;
            var may := MayStart(job, owner, s.now, seen, cfg.jobMaxAttempts);
            && RowsOf(t.cells) == RowsOf(s.cells)
            && JobsOf(t.cells) == (if may && !outcome.RolledBack? then JobsOf(s.cells)[id := StartAttempt(job)] else JobsOf(s.cells))
            && id in t.cells && owner in t.cells[id].jobMemo
            && t.cells[id].jobMemo[owner].attempts == seen + (if may then 1 else 0)
  {
    var a := Start(owner, id, outcome);
    StartCellTables(cfg, s.now, owner, id, outcome, s.cells[id]);
    JobStepTables(cfg, s, a, id, StepCell(cfg, s.now, a, id, s.cells[id]));
    OneCellStep(cfg, s, a, id);
  }

  /** mark_symbols_missing is the park action, owned or refused. */
  lemma MarkSymbolsMissingIsPark(cfg: Config, s: Sys, owner: Token, id: Id)
    requires Symbolizes(s, owner, id)
    ensures var t := WorkerStep(cfg, s, Park(owner, id));
            var job := s.cells[id].job.value;
            && RowsOf(t.cells) == RowsOf(s.cells)
            && JobsOf(t.cells) == (if OwnsJob(job, owner, s.now) then JobsOf(s.cells)[id := ParkJob(job, s.now)] else JobsOf(s.cells))
  {
    var a := Park(owner, id);
    JobStepTables(cfg, s, a, id, StepCell(cfg, s.now, a, id, s.cells[id]));
  }

  lemma CompleteCellTables(cfg: Config, now: int, owner: Token, id: Id, status: JobStatus, fingerprint: string, cell: Cell)
    requires cell.job.Some? && owner in cell.jobMemo
    ensures var after := StepCell(cfg, now, Complete(owner, id, status, fingerprint), id, cell);
            var job := cell.job.value;
            if CompletionStatus(job.kind, status) && OwnsJob(job, owner, now)
            then after.job == Some(CompleteJob(job, status, fingerprint))
                 && after.row == ReleaseRow(PublishFingerprint(cell.row, job.kind, fingerprint))
            else after == cell
  {
  }

  /** mark_symbolized is the completion action: completed, refused, or raised on the status. */
  lemma MarkSymbolizedIsComplete(cfg: Config, s: Sys, owner: Token, id: Id, status: JobStatus, fingerprint: string)
    requires Symbolizes(s, owner, id)
    ensures var t := WorkerStep(cfg, s, Complete(owner, id, status, fingerprint));
            var job := s.cells[id].job.value;
            if CompletionStatus(job.kind, status) && OwnsJob(job, owner, s.now)
            then JobsOf(t.cells) == JobsOf(s.cells)[id := CompleteJob(job, status, fingerprint)]
                 && RowsOf(t.cells) == RowsOf(s.cells)[id := ReleaseRow(PublishFingerprint(s.cells[id].row, job.kind, fingerprint))]
            else JobsOf(t.cells) == JobsOf(s.cells) && RowsOf(t.cells) == RowsOf(s.cells)
  {
    var a := Complete(owner, id, status, fingerprint);
    CompleteCellTables(cfg, s.now, owner, id, status, fingerprint, s.cells[id]);
    JobStepTables(cfg, s, a, id, StepCell(cfg, s.now, a, id, s.cells[id]));
  }

  lemma FailSymbolsCellTables(cfg: Config, now: int, owner: Token, id: Id, retryable: bool, cell: Cell)
    requires cell.job.Some? && owner in cell.jobMemo
    ensures var after := StepCell(cfg, now, FailSymbols(owner, id, retryable), id, cell);
            var seen := cell.jobMemo[owner].attempts;
            var retry := ShouldRetry(retryable, seen, cfg.jobMaxAttempts);
            if OwnsJob(cell.job.value, owner, now)
            then after.job == Some(FailJob(cell.job.value, now, retry, seen)) && after.row == (if retry then cell.row else ReleaseRow(cell.row))
            else after == cell
  {
  }

  /** mark_symbolization_failed is the failure action: retried, given up, or refused. */
  lemma MarkSymbolizationFailedIsFail(cfg: Config, s: Sys, owner: Token, id: Id, retryable: bool)
    requires Symbolizes(s, owner, id)
    ensures var t := WorkerStep(cfg, s, FailSymbols(owner, id, retryable));
            var job := s.cells[id].job.value;
            var seen := s.cells[id].jobMemo[owner].attempts;
            var retry := ShouldRetry(retryable, seen, cfg.jobMaxAttempts);
            if OwnsJob(job, owner, s.now)
            then JobsOf(t.cells) == JobsOf(s.cells)[id := FailJob(job, s.now, retry, seen)]
                 && RowsOf(t.cells) == (if retry then RowsOf(s.cells) else RowsOf(s.cells)[id := ReleaseRow(s.cells[id].row)])
            else JobsOf(t.cells) == JobsOf(s.cells) && RowsOf(t.cells) == RowsOf(s.cells)
  {
    var a := FailSymbols(owner, id, retryable);
    FailSymbolsCellTables(cfg, s.now, owner, id, retryable, s.cells[id]);
    JobStepTables(cfg, s, a, id, StepCell(cfg, s.now, a, id, s.cells[id]));
  }

  /** requeue_matching_missing_jobs is the requeue action for the jobs that wait for the artifact. */
  lemma RequeueIsRequeue(cfg: Config, s: Sys, artifact: ArtifactIdentity)
    ensures var ids := S.WaitingFor(RowsOf(s.cells), JobsOf(s.cells), artifact);
            && JobsOf(WorkerStep(cfg, s, Requeue(ids)).cells) == S.RequeuedJobs(JobsOf(s.cells), ids, s.now)
            && RowsOf(WorkerStep(cfg, s, Requeue(ids)).cells) == RowsOf(s.cells)
  {
    RequeueTables(cfg, s, S.WaitingFor(RowsOf(s.cells), JobsOf(s.cells), artifact));
  }

  lemma RequeueTables(cfg: Config, s: Sys, ids: set<Id>)
    ensures JobsOf(WorkerStep(cfg, s, Requeue(ids)).cells) == S.RequeuedJobs(JobsOf(s.cells), ids, s.now)
    ensures RowsOf(WorkerStep(cfg, s, Requeue(ids)).cells) == RowsOf(s.cells)
  {
  }

  // ----- retention -----

  lemma MaintainIsPrune(cfg: Config, s: Sys, ids: set<Id>, locked: set<Id>)
    requires ids <= S.PrunableRows(RowsOf(s.cells), JobsOf(s.cells), s.now, cfg.keep, locked)
    ensures RowsOf(WorkerStep(cfg, s, Prune(ids)).cells) == S.PrunedRows(RowsOf(s.cells), ids, s.now)
    ensures JobsOf(WorkerStep(cfg, s, Prune(ids)).cells) == S.PrunedJobs(JobsOf(s.cells), ids)
  {
    var cells := WorkerStep(cfg, s, Prune(ids)).cells;
    forall id <- s.cells ensures id in cells && cells[id] == (if id in ids then Pruned(s.cells[id], s.now) else s.cells[id]) {
      if id in ids { PrunableIn(cfg, s, id, locked); }
    }
    PrunedTables(s.cells, cells, ids, s.now);
  }

  function Pruned(cell: Cell, now: int): Cell {
    cell.(row := PruneRow(cell.row, now),
          job := if cell.job.Some? then Some(cell.job.value.(resultKept := false)) else None)
  }

  lemma PrunedTables(before: map<Id, Cell>, after: map<Id, Cell>, ids: set<Id>, now: int)
    requires after.Keys == before.Keys
    requires forall id <- before :: after[id] == if id in ids then Pruned(before[id], now) else before[id]
    ensures RowsOf(after) == S.PrunedRows(RowsOf(before), ids, now)
    ensures JobsOf(after) == S.PrunedJobs(JobsOf(before), ids)
  {
  }

  lemma PrunableIn(cfg: Config, s: Sys, id: Id, locked: set<Id>)
    requires id in S.PrunableRows(RowsOf(s.cells), JobsOf(s.cells), s.now, cfg.keep, locked)
    ensures id in s.cells && PrunableRow(s.cells[id].row, s.cells[id].job, s.now, cfg.keep)
  {
    assert id in RowsOf(s.cells) && RowsOf(s.cells)[id] == s.cells[id].row;
    assert JobOf(JobsOf(s.cells), id) == s.cells[id].job;
  }
}
