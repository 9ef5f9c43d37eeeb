/**
 * Runs of the durable delivery protocol.
 *
 * A system state holds one cell per inbox row: the row, its job, and the history the theorems
 * speak of.  Every committed transaction is one action; gateways, export workers, symbolizers,
 * retention and crashes may be interleaved in any order.  An action whose guard fails changes
 * nothing, so a run is just a sequence of actions.
 */
module DeliveryRuns {
  import opened Prelude
  import opened Replay
  import opened Delivery

  /** A symbolizer's in-memory attempt counter; `lost` when its start was rolled back after the counter moved. */
  datatype JobMemo = JobMemo(attempts: nat, lost: bool)

  datatype Cell = Cell(
    row: Row,
    job: Option<Job>,
    accepted: Identity,            // identity of the first accepted submission
    rowMemo: map<Token, nat>,      // attempt count each living export claim remembers
    jobMemo: map<Token, JobMemo>,  // what each living symbolizer claim remembers
    retries: nat,                  // retries recorded for the row
    toolStarts: nat)               // times a symbolization tool was started

  datatype Sys = Sys(cells: map<Id, Cell>, now: int, tokens: set<Token>, keys: map<string, string>)

  datatype Config = Config(rowMaxAttempts: nat, jobMaxAttempts: nat, rowLease: nat, jobLease: nat, keep: Retention)

  /** How the transaction of start_symbolization_attempt ends for the worker. */
  datatype StartOutcome = Started | AckLost | RolledBack

  datatype Action =
    | Wait(seconds: nat)
    | AddKey(version: string, secret: string)
    | Ingest(meta: Meta, events: seq<Submission>, ring: Option<KeyRing>, enabled: bool, alloc: map<Id, string>, at: int)
    | ClaimRows(owner: Token, ids: set<Id>)
    | DeliverRows(owner: Token, ids: set<Id>)
    | FailExport(owner: Token, id: Id, retryable: bool, retryAfter: Option<nat>)
    | ClaimJobs(owner: Token, ids: set<Id>)
    | Start(owner: Token, id: Id, outcome: StartOutcome)
    | Park(owner: Token, id: Id)
    | Complete(owner: Token, id: Id, status: JobStatus, fingerprint: string)
    | FailSymbols(owner: Token, id: Id, retryable: bool)
    | Requeue(ids: set<Id>)
    | Prune(ids: set<Id>)
    | Crash(owner: Token)

  // ----- one cell -----

  function DeliverCell(cell: Cell, owner: Token, now: int): Cell {
    if OwnsRow(cell.row, owner, now) then cell.(row := DeliverRow(cell.row, now)) else cell
  }

  function FailCell(cfg: Config, cell: Cell, owner: Token, now: int, retryable: bool, retryAfter: Option<nat>): Cell
    requires owner in cell.rowMemo
  {
    var seen := cell.rowMemo[owner];
    var retry := ShouldRetry(retryable, seen, cfg.rowMaxAttempts);
    if OwnsRow(cell.row, owner, now)
    then cell.(row := FailRow(cell.row, now, retry, RowDelay(retryAfter, seen)),
               retries := cell.retries + if retry then 1 else 0)
    else cell
  }

  function StartCell(cfg: Config, cell: Cell, owner: Token, now: int, outcome: StartOutcome): Cell
    requires cell.job.Some? && owner in cell.jobMemo
  {
    var memo := cell.jobMemo[owner];
    if !MayStart(cell.job.value, owner, now, memo.attempts, cfg.jobMaxAttempts) then cell
    else
      var counted := cell.(jobMemo := cell.jobMemo[owner := JobMemo(memo.attempts + 1, outcome.RolledBack?)]);
      if outcome.RolledBack? then counted
      else counted.(job := Some(StartAttempt(cell.job.value)),
                    toolStarts := cell.toolStarts + if outcome.Started? then 1 else 0)
  }

  function ParkCell(cell: Cell, owner: Token, now: int): Cell
    requires cell.job.Some?
  {
    if OwnsJob(cell.job.value, owner, now) then cell.(job := Some(ParkJob(cell.job.value, now))) else cell
  }

  function CompleteCell(cell: Cell, owner: Token, now: int, status: JobStatus, fingerprint: string): Cell
    requires cell.job.Some?
  {
    var job := cell.job.value;
    if OwnsJob(job, owner, now)
    then cell.(job := Some(CompleteJob(job, status, fingerprint)),
               row := ReleaseRow(PublishFingerprint(cell.row, job.kind, fingerprint)))
    else cell
  }

  function FailSymbolsCell(cfg: Config, cell: Cell, owner: Token, now: int, retryable: bool): Cell
    requires cell.job.Some? && owner in cell.jobMemo
  {
    var seen := cell.jobMemo[owner].attempts;
    var retry := ShouldRetry(retryable, seen, cfg.jobMaxAttempts);
    if OwnsJob(cell.job.value, owner, now)
    then cell.(job := Some(FailJob(cell.job.value, now, retry, seen)),
               row := if retry then cell.row else ReleaseRow(cell.row))
    else cell
  }

  /** enqueue_symbolization_jobs for one stored row: nothing happens when the job exists. */
  function EnqueueCell(cell: Cell, now: int, enabled: bool): Cell {
    if cell.row.kind.None? || cell.job.Some? then cell
    else
      var job := NewJob(cell.row, now, enabled);
      cell.(job := Some(job), row := HoldForSymbols(cell.row, job))
  }

  function NewCell(meta: Meta, p: Prepared, now: int, enabled: bool): Cell {
    EnqueueCell(Cell(NewRow(p, now), None, IdentityOf(meta, p.submission), map[], map[], 0, 0),
                now, enabled)
  }

  /** The effect of a worker's action on one row. */
  function StepCell(cfg: Config, now: int, a: Action, id: Id, cell: Cell): Cell {
    match a
    case ClaimRows(owner, ids) =>
      if id in ids
      then cell.(row := ClaimRow(cell.row, owner, now + cfg.rowLease),
                 rowMemo := cell.rowMemo[owner := cell.row.attempts + 1])
      else cell
    case DeliverRows(owner, ids) =>
      if id in ids && owner in cell.rowMemo then DeliverCell(cell, owner, now) else cell
    case FailExport(owner, target, retryable, retryAfter) =>
      if id == target && owner in cell.rowMemo then FailCell(cfg, cell, owner, now, retryable, retryAfter) else cell
    case ClaimJobs(owner, ids) =>
      if id in ids && cell.job.Some?
      then cell.(job := Some(ClaimJob(cell.job.value, owner, now + cfg.jobLease)),
                 jobMemo := cell.jobMemo[owner := JobMemo(cell.job.value.attempts, false)])
      else cell
    case Start(owner, target, outcome) =>
      if id == target && cell.job.Some? && owner in cell.jobMemo then StartCell(cfg, cell, owner, now, outcome) else cell
    case Park(owner, target) =>
      if id == target && cell.job.Some? && owner in cell.jobMemo then ParkCell(cell, owner, now) else cell
    case Complete(owner, target, status, fingerprint) =>
      if id == target && cell.job.Some? && owner in cell.jobMemo && CompletionStatus(cell.job.value.kind, status)
      then CompleteCell(cell, owner, now, status, fingerprint) else cell
    case FailSymbols(owner, target, retryable) =>
      if id == target && cell.job.Some? && owner in cell.jobMemo then FailSymbolsCell(cfg, cell, owner, now, retryable) else cell
    case Requeue(ids) =>
      if id in ids && cell.job.Some? && cell.job.value.status.SymbolsMissing?
      then cell.(job := Some(RequeueJob(cell.job.value, now))) else cell
    case Prune(ids) =>
      if id in ids && PrunableRow(cell.row, cell.job, now, cfg.keep)
      then cell.(row := PruneRow(cell.row, now),
                 job := if cell.job.Some? then Some(cell.job.value.(resultKept := false)) else None)
      else cell
    case Crash(owner) =>
      cell.(rowMemo := cell.rowMemo - {owner}, jobMemo := cell.jobMemo - {owner})
    case _ => cell
  }

  // ----- the system -----

  predicate ClaimsNow(s: Sys, a: Action) {
    match a
    case ClaimRows(owner, ids) =>
      owner !in s.tokens && forall id <- ids :: id in s.cells && ClaimableRow(s.cells[id].row, s.now)
    case ClaimJobs(owner, ids) =>
      owner !in s.tokens && forall id <- ids :: id in s.cells && s.cells[id].job.Some? && ClaimableJob(s.cells[id].job.value, s.now)
    case _ => true
  }

  function Tokens(a: Action): set<Token> {
    match a
    case ClaimRows(owner, _) => {owner}
    case ClaimJobs(owner, _) => {owner}
    case _ => {}
  }

  function WorkerStep(cfg: Config, s: Sys, a: Action): Sys {
    if !ClaimsNow(s, a) then s
    else s.(cells := map id | id in s.cells :: StepCell(cfg, s.now, a, id, s.cells[id]),
            tokens := s.tokens + Tokens(a))
  }

  function RowsOf(cells: map<Id, Cell>): Rows {
    map id | id in cells :: cells[id].row
  }

  function JobsOf(cells: map<Id, Cell>): Jobs {
    map id | id in cells && cells[id].job.Some? :: cells[id].job.value
  }

  function StoredIds(cells: map<Id, Cell>, tenant: string): set<string> {
    StoredEventIds(RowsOf(cells), tenant)
  }

  lemma StoredUnderId(cells: map<Id, Cell>, id: Id)
    requires id in cells
    ensures cells[id].row.stored.eventId in StoredIds(cells, cells[id].row.stored.tenant)
  {
    assert RowsOf(cells)[id] == cells[id].row;
  }

  lemma HolderOf(cells: map<Id, Cell>, tenant: string, e: string) returns (id: Id)
    requires e in StoredIds(cells, tenant)
    ensures id in cells && cells[id].row.stored.tenant == tenant && cells[id].row.stored.eventId == e
  {
    var rows := RowsOf(cells);
    id :| id in rows && rows[id].stored.tenant == tenant && rows[id].stored.eventId == e;
  }

  /** The stored event ids, read off the cells. */
  lemma StoredIdsAre(cells: map<Id, Cell>, tenant: string)
    ensures forall id <- cells :: cells[id].row.stored.tenant == tenant ==> cells[id].row.stored.eventId in StoredIds(cells, tenant)
    ensures forall e :: e in StoredIds(cells, tenant) ==>
              exists id :: id in cells && cells[id].row.stored.tenant == tenant && cells[id].row.stored.eventId == e
  {
    forall id <- cells | cells[id].row.stored.tenant == tenant ensures cells[id].row.stored.eventId in StoredIds(cells, tenant) {
      StoredUnderId(cells, id);
    }
    forall e | e in StoredIds(cells, tenant)
      ensures exists id :: id in cells && cells[id].row.stored.tenant == tenant && cells[id].row.stored.eventId == e
    {
      var _ := HolderOf(cells, tenant, e);
    }
  }

  predicate Hits(cell: Cell, tenant: string, m: map<string, Prepared>) {
    cell.row.stored.tenant == tenant && cell.row.stored.eventId in m
  }

  predicate AllMatch(c: Crypto, ring: Option<KeyRing>, meta: Meta, cells: map<Id, Cell>, m: map<string, Prepared>) {
    RowsMatch(c, ring, meta, RowsOf(cells), m)
  }

  lemma AllMatchIff(c: Crypto, ring: Option<KeyRing>, meta: Meta, cells: map<Id, Cell>, m: map<string, Prepared>)
    ensures AllMatch(c, ring, meta, cells, m) <==>
              forall id <- cells :: Hits(cells[id], meta.tenant, m) ==>
                Matches(c, ring, meta, m[cells[id].row.stored.eventId].submission, cells[id].row.stored)
  {
    var rows := RowsOf(cells);
    assert rows.Keys == cells.Keys;
    assert forall id <- cells :: rows[id] == cells[id].row;
  }

  /** The response of one ingest request that meets no interference. */
  function Respond(c: Crypto, s: Sys, meta: Meta, events: seq<Submission>, ring: Option<KeyRing>)
    : Result<InsertResult, IngestError>
  {
    match PrepareAll(c, ring, meta, events)
    case Err(e) => Err(e)
    case Ok(m) =>
      if !AllMatch(c, ring, meta, s.cells, m) then Err(EventIdConflict)
      else
        var added := m.Keys - StoredIds(s.cells, meta.tenant);
        Ok(InsertResult(|events|, |added|, |events| - |added|))
  }

  /** `alloc` gives each new event id of the batch one new row id. */
  predicate Allocates(cells: map<Id, Cell>, tenant: string, m: map<string, Prepared>, alloc: map<Id, string>) {
    && alloc.Keys !! cells.Keys
    && alloc.Values == m.Keys - StoredIds(cells, tenant)
    && (forall i, j :: i in alloc && j in alloc && alloc[i] == alloc[j] ==> i == j)
  }

  ghost predicate Accepts(c: Crypto, s: Sys, a: Action)
    requires a.Ingest?
  {
    && a.at <= s.now
    && RingOf(a.ring, s.keys)
    && Respond(c, s, a.meta, a.events, a.ring).Ok?
    && Allocates(s.cells, a.meta.tenant, PrepareAll(c, a.ring, a.meta, a.events).value, a.alloc)
  }

  /** The table after an accepted batch. */
  function Ingested(cells: map<Id, Cell>, meta: Meta, m: map<string, Prepared>, alloc: map<Id, string>, at: int, enabled: bool)
    : map<Id, Cell>
    requires forall id <- alloc :: alloc[id] in m
  {
    map id | id in cells.Keys + alloc.Keys ::
      if id in cells then (if Hits(cells[id], meta.tenant, m) then EnqueueCell(cells[id], at, enabled) else cells[id])
      else NewCell(meta, m[alloc[id]], at, enabled)
  }

  ghost function Apply(c: Crypto, cfg: Config, s: Sys, a: Action): Sys {
    match a
    case Wait(seconds) => s.(now := s.now + seconds)
    case AddKey(version, secret) => if version == "" || version in s.keys then s else s.(keys := s.keys[version := secret])
    case Ingest(meta, events, ring, enabled, alloc, at) =>
      if !Accepts(c, s, a) then s
      else
        var m := PrepareAll(c, ring, meta, events).value;
        assert forall id <- alloc :: alloc[id] in alloc.Values;
        s.(cells := Ingested(s.cells, meta, m, alloc, at, enabled))
    case _ => WorkerStep(cfg, s, a)
  }

  ghost function Exec(c: Crypto, cfg: Config, s: Sys, actions: seq<Action>): Sys
    decreases |actions|
  {
    if actions == [] then s else Exec(c, cfg, Apply(c, cfg, s, actions[0]), actions[1..])
  }

  lemma {:induction false} ExecSnoc(c: Crypto, cfg: Config, s: Sys, actions: seq<Action>, a: Action)
    ensures Exec(c, cfg, s, actions + [a]) == Apply(c, cfg, Exec(c, cfg, s, actions), a)
    decreases |actions|
  {
    if actions == [] {
      assert [a][1..] == [];
      assert Exec(c, cfg, Apply(c, cfg, s, a), [a][1..]) == Apply(c, cfg, s, a);
      assert actions + [a] == [a];
    } else {
      assert (actions + [a])[1..] == actions[1..] + [a];
      ExecSnoc(c, cfg, Apply(c, cfg, s, actions[0]), actions[1..], a);
    }
  }

  function EmptySystem(now: int): Sys {
    Sys(map[], now, {}, map[])
  }

  // ----- invariants -----

  predicate RowShape(r: Row) {
    && (r.status.Processing? <==> r.lease.Lease?)
    && (r.prunedAt.Some? ==> Terminal(r.status))
  }

  predicate JobShape(cfg: Config, j: Job) {
    && (j.status.Running? <==> j.lease.Lease?)
    && (j.status.Symbolized? || j.status.PartiallySymbolized? ==> j.fingerprint.Some?)
    && (j.status.PartiallySymbolized? ==> j.kind.Native?)
    && j.attempts <= cfg.jobMaxAttempts
  }

  /** A row waits for symbols exactly while its job is unfinished. */
  predicate Coupled(cell: Cell) {
    && (cell.job.Some? <==> cell.row.kind.Some?)
    && (cell.job.Some? ==> cell.job.value.kind == cell.row.kind.value)
    && (cell.row.status.AwaitingSymbols? <==> cell.job.Some? && Unfinished(cell.job.value.status))
  }

  /** The current Issue identity: the job's result for a symbolized Java incident, else the raw one. */
  function CurrentFingerprint(raw: Option<string>, job: Option<Job>): Option<string> {
    if raw.Some? && Canonical(job).Some? then Canonical(job) else raw
  }

  /** The symbolized identity of a finished Java job. */
  function Canonical(job: Option<Job>): Option<string> {
    if job.Some? && job.value.kind.Java? && job.value.status.Symbolized? then job.value.fingerprint else None
  }

  predicate Remembered(cell: Cell) {
    && (cell.row.lease.Lease? && cell.row.lease.owner in cell.rowMemo ==>
          cell.rowMemo[cell.row.lease.owner] == cell.row.attempts)
    && (cell.job.Some? && cell.job.value.lease.Lease? && cell.job.value.lease.owner in cell.jobMemo ==>
          var memo := cell.jobMemo[cell.job.value.lease.owner];
          memo.attempts == cell.job.value.attempts + (if memo.lost then 1 else 0))
  }

  predicate Bounded(cfg: Config, cell: Cell) {
    && cell.retries + (if cell.row.status.Processing? then 1 else 0) <= cell.row.attempts
    && cell.retries <= Max(0, cfg.rowMaxAttempts - 1)
    && cell.toolStarts <= (if cell.job.Some? then cell.job.value.attempts else 0)
  }

  predicate KnownTokens(cell: Cell, tokens: set<Token>) {
    && (cell.row.lease.Lease? ==> cell.row.lease.owner in tokens)
    && (cell.job.Some? && cell.job.value.lease.Lease? ==> cell.job.value.lease.owner in tokens)
  }

  ghost predicate Faithful(c: Crypto, keys: map<string, string>, cell: Cell) {
    && StoredFor(c, keys, cell.accepted, cell.row.stored)
    && cell.row.kind == KindOf(cell.accepted.content)
    && cell.row.rawFingerprint == cell.accepted.content.rawFingerprint
  }

  predicate Protocol(cfg: Config, cell: Cell) {
    && RowShape(cell.row)
    && (cell.job.Some? ==> JobShape(cfg, cell.job.value))
    && Coupled(cell)
    && cell.row.fingerprint == CurrentFingerprint(cell.row.rawFingerprint, cell.job)
    && Remembered(cell)
    && Bounded(cfg, cell)
  }

  predicate SameKey(a: Cell, b: Cell) {
    a.row.stored.tenant == b.row.stored.tenant && a.row.stored.eventId == b.row.stored.eventId
  }

  predicate UniqueKeys(cells: map<Id, Cell>) {
    forall i, j :: i in cells && j in cells && SameKey(cells[i], cells[j]) ==> i == j
  }

  ghost predicate CellOk(c: Crypto, cfg: Config, s: Sys, cell: Cell) {
    Protocol(cfg, cell) && KnownTokens(cell, s.tokens) && Faithful(c, s.keys, cell)
  }

  ghost predicate Inv(c: Crypto, cfg: Config, s: Sys) {
    && UniqueKeys(s.cells)
    && "" !in s.keys
    && forall id <- s.cells :: CellOk(c, cfg, s, s.cells[id])
  }

  // ----- every action keeps the invariant -----

  // One lemma per action: what it does to one row and its job keeps the protocol's invariants.

  lemma ClaimRowsKeeps(cfg: Config, s: Sys, a: Action, id: Id, cell: Cell)
    requires id in s.cells && cell == s.cells[id] && Protocol(cfg, cell) && a.ClaimRows? && ClaimsNow(s, a)
    ensures Protocol(cfg, StepCell(cfg, s.now, a, id, cell))
  {
  }

  lemma DeliverRowsKeeps(cfg: Config, now: int, a: Action, id: Id, cell: Cell)
    requires Protocol(cfg, cell) && a.DeliverRows?
    ensures Protocol(cfg, StepCell(cfg, now, a, id, cell))
  {
  }

  lemma FailExportKeeps(cfg: Config, now: int, a: Action, id: Id, cell: Cell)
    requires Protocol(cfg, cell) && a.FailExport?
    ensures Protocol(cfg, StepCell(cfg, now, a, id, cell))
  {
  }

  lemma ClaimJobsKeeps(cfg: Config, s: Sys, a: Action, id: Id, cell: Cell)
    requires id in s.cells && cell == s.cells[id] && Protocol(cfg, cell) && a.ClaimJobs? && ClaimsNow(s, a)
    ensures Protocol(cfg, StepCell(cfg, s.now, a, id, cell))
  {
  }

  lemma StartKeeps(cfg: Config, now: int, a: Action, id: Id, cell: Cell)
    requires Protocol(cfg, cell) && a.Start?
    ensures Protocol(cfg, StepCell(cfg, now, a, id, cell))
  {
  }

  lemma ParkKeeps(cfg: Config, now: int, a: Action, id: Id, cell: Cell)
    requires Protocol(cfg, cell) && a.Park?
    ensures Protocol(cfg, StepCell(cfg, now, a, id, cell))
  {
  }

  lemma CompleteKeeps(cfg: Config, now: int, a: Action, id: Id, cell: Cell)
    requires Protocol(cfg, cell) && a.Complete?
    ensures Protocol(cfg, StepCell(cfg, now, a, id, cell))
  {
  }

  lemma FailSymbolsKeeps(cfg: Config, now: int, a: Action, id: Id, cell: Cell)
    requires Protocol(cfg, cell) && a.FailSymbols?
    ensures Protocol(cfg, StepCell(cfg, now, a, id, cell))
  {
  }

  lemma RequeueKeeps(cfg: Config, now: int, a: Action, id: Id, cell: Cell)
    requires Protocol(cfg, cell) && a.Requeue?
    ensures Protocol(cfg, StepCell(cfg, now, a, id, cell))
  {
  }

  lemma PruneKeeps(cfg: Config, now: int, a: Action, id: Id, cell: Cell)
    requires Protocol(cfg, cell) && a.Prune?
    ensures Protocol(cfg, StepCell(cfg, now, a, id, cell))
  {
  }

  lemma CrashKeeps(cfg: Config, now: int, a: Action, id: Id, cell: Cell)
    requires Protocol(cfg, cell) && a.Crash?
    ensures Protocol(cfg, StepCell(cfg, now, a, id, cell))
  {
  }

  lemma StepKnowsTokens(cfg: Config, s: Sys, a: Action, id: Id, cell: Cell)
    requires KnownTokens(cell, s.tokens)
    ensures KnownTokens(StepCell(cfg, s.now, a, id, cell), s.tokens + Tokens(a))
  {
  }

  /** Every action keeps shape, coupling, fingerprint, memory and budget of a row and its job. */
  lemma StepKeepsProtocol(cfg: Config, s: Sys, a: Action, id: Id)
    requires id in s.cells && Protocol(cfg, s.cells[id]) && KnownTokens(s.cells[id], s.tokens)
    requires ClaimsNow(s, a)
    ensures Protocol(cfg, StepCell(cfg, s.now, a, id, s.cells[id]))
    ensures KnownTokens(StepCell(cfg, s.now, a, id, s.cells[id]), s.tokens + Tokens(a))
  {
    var cell := s.cells[id];
    StepKnowsTokens(cfg, s, a, id, cell);
    match a
    case ClaimRows(_, _) => ClaimRowsKeeps(cfg, s, a, id, cell);
    case DeliverRows(_, _) => DeliverRowsKeeps(cfg, s.now, a, id, cell);
    case FailExport(_, _, _, _) => FailExportKeeps(cfg, s.now, a, id, cell);
    case ClaimJobs(_, _) => ClaimJobsKeeps(cfg, s, a, id, cell);
    case Start(_, _, _) => StartKeeps(cfg, s.now, a, id, cell);
    case Park(_, _) => ParkKeeps(cfg, s.now, a, id, cell);
    case Complete(_, _, _, _) => CompleteKeeps(cfg, s.now, a, id, cell);
    case FailSymbols(_, _, _) => FailSymbolsKeeps(cfg, s.now, a, id, cell);
    case Requeue(_) => RequeueKeeps(cfg, s.now, a, id, cell);
    case Prune(_) => PruneKeeps(cfg, s.now, a, id, cell);
    case Crash(_) => CrashKeeps(cfg, s.now, a, id, cell);
    case _ =>
  }

  lemma StepKeepsIdentity(cfg: Config, now: int, a: Action, id: Id, cell: Cell)
    ensures var after := StepCell(cfg, now, a, id, cell);
            && after.accepted == cell.accepted
            && after.row.stored == cell.row.stored
            && after.row.kind == cell.row.kind
            && after.row.rawFingerprint == cell.row.rawFingerprint
  {
  }

  lemma WorkerStepIs(cfg: Config, s: Sys, a: Action, id: Id)
    requires id in s.cells
    ensures id in WorkerStep(cfg, s, a).cells && WorkerStep(cfg, s, a).keys == s.keys
    ensures WorkerStep(cfg, s, a).cells[id] == if ClaimsNow(s, a) then StepCell(cfg, s.now, a, id, s.cells[id]) else s.cells[id]
    ensures WorkerStep(cfg, s, a).tokens == if ClaimsNow(s, a) then s.tokens + Tokens(a) else s.tokens
  {
  }

  lemma WorkerCell(c: Crypto, cfg: Config, s: Sys, a: Action, id: Id)
    requires id in s.cells && CellOk(c, cfg, s, s.cells[id])
    ensures id in WorkerStep(cfg, s, a).cells
    ensures CellOk(c, cfg, WorkerStep(cfg, s, a), WorkerStep(cfg, s, a).cells[id])
    ensures WorkerStep(cfg, s, a).cells[id].row.stored == s.cells[id].row.stored
  {
    WorkerStepIs(cfg, s, a, id);
    if ClaimsNow(s, a) {
      StepKeepsProtocol(cfg, s, a, id);
      StepKeepsIdentity(cfg, s.now, a, id, s.cells[id]);
    }
  }

  lemma InvFromCells(c: Crypto, cfg: Config, s: Sys, t: Sys)
    requires Inv(c, cfg, s) && t.cells.Keys == s.cells.Keys && t.keys == s.keys
    requires forall id <- t.cells :: CellOk(c, cfg, t, t.cells[id]) && t.cells[id].row.stored == s.cells[id].row.stored
    ensures Inv(c, cfg, t)
  {
    forall i, j | i in t.cells && j in t.cells && SameKey(t.cells[i], t.cells[j]) ensures i == j {
      assert SameKey(s.cells[i], s.cells[j]);
    }
  }

  lemma WorkerFrame(cfg: Config, s: Sys, a: Action, t: Sys)
    requires t == WorkerStep(cfg, s, a)
    ensures t.cells.Keys == s.cells.Keys && t.keys == s.keys
  {
  }

  lemma WorkerKeepsInv(c: Crypto, cfg: Config, s: Sys, a: Action, t: Sys)
    requires Inv(c, cfg, s) && t == WorkerStep(cfg, s, a)
    ensures Inv(c, cfg, t)
  {
    WorkerFrame(cfg, s, a, t);
    forall id <- t.cells ensures CellOk(c, cfg, t, t.cells[id]) && t.cells[id].row.stored == s.cells[id].row.stored {
      WorkerCell(c, cfg, s, a, id);
    }
    InvFromCells(c, cfg, s, t);
  }

  lemma NewCellOk(c: Crypto, cfg: Config, s: Sys, meta: Meta, ring: Option<KeyRing>, p: Prepared, at: int, enabled: bool)
    requires RingOf(ring, s.keys) && PrepareEvent(c, ring, meta, p.submission) == Ok(p)
    ensures CellOk(c, cfg, s, NewCell(meta, p, at, enabled))
    ensures NewCell(meta, p, at, enabled).row.stored == p.stored
  {
    PreparedStores(c, ring, s.keys, meta, p);
  }

  lemma PreparedEntries(c: Crypto, ring: Option<KeyRing>, meta: Meta, events: seq<Submission>, id: string)
    requires PrepareAll(c, ring, meta, events).Ok? && id in PrepareAll(c, ring, meta, events).value
    ensures var p := PrepareAll(c, ring, meta, events).value[id];
            && PrepareEvent(c, ring, meta, p.submission) == Ok(p)
            && p.stored.eventId == p.submission.eventId == id
            && p.stored.tenant == meta.tenant
  {
    if events != [] {
      var n := |events| - 1;
      if id != events[n].eventId {
        PreparedEntries(c, ring, meta, events[..n], id);
      }
    }
  }

  /** Replays reach no stored cell: its job exists since the row does. */
  lemma EnqueueIsIdempotent(cell: Cell, now: int, enabled: bool)
    requires Coupled(cell)
    ensures EnqueueCell(cell, now, enabled) == cell
  {
  }

  /** A prepared batch that may be stored: what an accepted request has established. */
  ghost predicate Storable(c: Crypto, s: Sys, meta: Meta, ring: Option<KeyRing>, m: map<string, Prepared>, alloc: map<Id, string>) {
    && RingOf(ring, s.keys)
    && Allocates(s.cells, meta.tenant, m, alloc)
    && (forall id <- alloc :: alloc[id] in m)
    && (forall e <- m :: EntryOf(c, ring, meta, e, m[e]))
  }

  ghost predicate EntryOf(c: Crypto, ring: Option<KeyRing>, meta: Meta, e: string, p: Prepared) {
    && PrepareEvent(c, ring, meta, p.submission) == Ok(p)
    && p.stored.eventId == e
    && p.stored.tenant == meta.tenant
  }

  lemma AcceptedIsStorable(c: Crypto, s: Sys, a: Action)
    requires a.Ingest? && Accepts(c, s, a)
    ensures Storable(c, s, a.meta, a.ring, PrepareAll(c, a.ring, a.meta, a.events).value, a.alloc)
  {
    var m := PrepareAll(c, a.ring, a.meta, a.events).value;
    forall e <- m ensures EntryOf(c, a.ring, a.meta, e, m[e]) {
      PreparedEntries(c, a.ring, a.meta, a.events, e);
    }
    forall id <- a.alloc ensures a.alloc[id] in m {
      assert a.alloc[id] in a.alloc.Values;
    }
  }

  lemma IngestCell(c: Crypto, cfg: Config, s: Sys, meta: Meta, ring: Option<KeyRing>, m: map<string, Prepared>,
                   alloc: map<Id, string>, at: int, enabled: bool, id: Id)
    requires Inv(c, cfg, s) && Storable(c, s, meta, ring, m, alloc) && id in s.cells.Keys + alloc.Keys
    ensures var cell := Ingested(s.cells, meta, m, alloc, at, enabled)[id];
            && CellOk(c, cfg, s, cell)
            && (id in s.cells ==> cell == s.cells[id])
            && (id !in s.cells ==> cell.row.stored == m[alloc[id]].stored)
  {
    if id in s.cells {
      assert CellOk(c, cfg, s, s.cells[id]);
      EnqueueIsIdempotent(s.cells[id], at, enabled);
    } else {
      assert EntryOf(c, ring, meta, alloc[id], m[alloc[id]]);
      NewCellOk(c, cfg, s, meta, ring, m[alloc[id]], at, enabled);
    }
  }

  lemma IngestedKeysUnique(c: Crypto, cfg: Config, s: Sys, meta: Meta, ring: Option<KeyRing>, m: map<string, Prepared>,
                           alloc: map<Id, string>, at: int, enabled: bool, i: Id, j: Id)
    requires Inv(c, cfg, s) && Storable(c, s, meta, ring, m, alloc)
    requires i in s.cells.Keys + alloc.Keys && j in s.cells.Keys + alloc.Keys && i != j
    ensures var cells := Ingested(s.cells, meta, m, alloc, at, enabled);
            !SameKey(cells[i], cells[j])
  {
    IngestCell(c, cfg, s, meta, ring, m, alloc, at, enabled, i);
    IngestCell(c, cfg, s, meta, ring, m, alloc, at, enabled, j);
    NewKeyIsFree(c, s, meta, ring, m, alloc, i);
    NewKeyIsFree(c, s, meta, ring, m, alloc, j);
  }

  lemma NewKeyIsFree(c: Crypto, s: Sys, meta: Meta, ring: Option<KeyRing>, m: map<string, Prepared>, alloc: map<Id, string>, i: Id)
    requires Storable(c, s, meta, ring, m, alloc)
    ensures i in alloc ==>
              && i !in s.cells
              && m[alloc[i]].stored.tenant == meta.tenant
              && m[alloc[i]].stored.eventId == alloc[i]
              && forall id <- s.cells :: s.cells[id].row.stored.tenant == meta.tenant ==> s.cells[id].row.stored.eventId != alloc[i]
  {
    StoredIdsAre(s.cells, meta.tenant);
    if i in alloc {
      assert alloc[i] in alloc.Values;
      assert EntryOf(c, ring, meta, alloc[i], m[alloc[i]]);
    }
  }

  lemma IngestedKeys(cells: map<Id, Cell>, meta: Meta, m: map<string, Prepared>, alloc: map<Id, string>, at: int, enabled: bool)
    requires forall id <- alloc :: alloc[id] in m
    ensures Ingested(cells, meta, m, alloc, at, enabled).Keys == cells.Keys + alloc.Keys
  {
  }

  lemma IngestedUnique(c: Crypto, cfg: Config, s: Sys, meta: Meta, ring: Option<KeyRing>, m: map<string, Prepared>,
                       alloc: map<Id, string>, at: int, enabled: bool, cells: map<Id, Cell>)
    requires Inv(c, cfg, s) && Storable(c, s, meta, ring, m, alloc) && cells == Ingested(s.cells, meta, m, alloc, at, enabled)
    ensures UniqueKeys(cells)
  {
    forall i, j | i in cells && j in cells && SameKey(cells[i], cells[j]) ensures i == j {
      if i != j { IngestedKeysUnique(c, cfg, s, meta, ring, m, alloc, at, enabled, i, j); }
    }
  }

  /** An accepted batch keeps the invariant and every earlier row and job. */
  lemma IngestKeepsInv(c: Crypto, cfg: Config, s: Sys, meta: Meta, ring: Option<KeyRing>, m: map<string, Prepared>,
                       alloc: map<Id, string>, at: int, enabled: bool)
    requires Inv(c, cfg, s) && Storable(c, s, meta, ring, m, alloc)
    ensures var t := s.(cells := Ingested(s.cells, meta, m, alloc, at, enabled));
            && Inv(c, cfg, t)
            && t.cells.Keys == s.cells.Keys + alloc.Keys
            && forall id <- s.cells :: t.cells[id] == s.cells[id]
  {
    var t := s.(cells := Ingested(s.cells, meta, m, alloc, at, enabled));
    IngestedUnique(c, cfg, s, meta, ring, m, alloc, at, enabled, t.cells);
    IngestedKeys(s.cells, meta, m, alloc, at, enabled);
    forall id <- t.cells ensures CellOk(c, cfg, t, t.cells[id]) && (id in s.cells ==> t.cells[id] == s.cells[id]) {
      IngestCell(c, cfg, s, meta, ring, m, alloc, at, enabled, id);
    }
  }

  lemma ApplyKeepsInv(c: Crypto, cfg: Config, s: Sys, a: Action)
    requires Inv(c, cfg, s)
    ensures Inv(c, cfg, Apply(c, cfg, s, a))
  {
    if a.Ingest? {
      if Accepts(c, s, a) {
        AcceptedIsStorable(c, s, a);
        IngestKeepsInv(c, cfg, s, a.meta, a.ring, PrepareAll(c, a.ring, a.meta, a.events).value, a.alloc, a.at, a.enabled);
      }
    } else if a.AddKey? || a.Wait? {
      forall id <- s.cells ensures CellOk(c, cfg, Apply(c, cfg, s, a), s.cells[id]) {
        assert CellOk(c, cfg, s, s.cells[id]);
      }
    } else {
      WorkerKeepsInv(c, cfg, s, a, WorkerStep(cfg, s, a));
    }
  }

  predicate IsWorker(a: Action) {
    !a.Wait? && !a.AddKey? && !a.Ingest?
  }

  lemma IngestStep(c: Crypto, cfg: Config, s: Sys, a: Action, t: Sys)
    requires Inv(c, cfg, s) && a.Ingest? && t == Apply(c, cfg, s, a)
    ensures t.tokens == s.tokens && t.keys == s.keys && t.now == s.now
    ensures forall id <- s.cells :: id in t.cells && t.cells[id] == s.cells[id]
  {
    if Accepts(c, s, a) {
      AcceptedIsStorable(c, s, a);
      IngestKeepsInv(c, cfg, s, a.meta, a.ring, PrepareAll(c, a.ring, a.meta, a.events).value, a.alloc, a.at, a.enabled);
    }
  }

  lemma WorkerIs(c: Crypto, cfg: Config, s: Sys, a: Action)
    requires IsWorker(a)
    ensures Apply(c, cfg, s, a) == WorkerStep(cfg, s, a)
  {
  }

  lemma ClockOrKeyStep(c: Crypto, cfg: Config, s: Sys, a: Action)
    requires !IsWorker(a) && !a.Ingest?
    ensures Apply(c, cfg, s, a).cells == s.cells && Apply(c, cfg, s, a).tokens == s.tokens
  {
  }

  predicate StaysOrSteps(cfg: Config, s: Sys, a: Action, id: Id, before: Cell, after: Cell) {
    after == before || (IsWorker(a) && ClaimsNow(s, a) && after == StepCell(cfg, s.now, a, id, before))
  }

  lemma WorkerStaysOrSteps(cfg: Config, s: Sys, a: Action, t: Sys, id: Id)
    requires id in s.cells && IsWorker(a) && t == WorkerStep(cfg, s, a)
    ensures id in t.cells && t.tokens >= s.tokens
    ensures StaysOrSteps(cfg, s, a, id, s.cells[id], t.cells[id])
  {
  }

  /** A stored cell either stays as it is or takes one worker step. */
  lemma ApplyCell(c: Crypto, cfg: Config, s: Sys, a: Action, t: Sys, id: Id)
    requires Inv(c, cfg, s) && id in s.cells && t == Apply(c, cfg, s, a)
    ensures id in t.cells && t.tokens >= s.tokens
    ensures StaysOrSteps(cfg, s, a, id, s.cells[id], t.cells[id])
  {
    if a.Ingest? {
      IngestStep(c, cfg, s, a, t);
    } else if IsWorker(a) {
      WorkerIs(c, cfg, s, a);
      WorkerStaysOrSteps(cfg, s, a, t, id);
    } else {
      ClockOrKeyStep(c, cfg, s, a);
    }
  }

  /** Rows come from accepted batches only. */
  lemma OnlyIngestAdds(c: Crypto, cfg: Config, s: Sys, a: Action, t: Sys, id: Id)
    requires t == Apply(c, cfg, s, a) && id !in s.cells && id in t.cells
    ensures a.Ingest? && exists p :: t.cells[id] == NewCell(a.meta, p, a.at, a.enabled)
  {
    if IsWorker(a) {
      WorkerIs(c, cfg, s, a);
      WorkerFrame(cfg, s, a, t);
    } else if a.Ingest? {
      assert Accepts(c, s, a);
      var m := PrepareAll(c, a.ring, a.meta, a.events).value;
      assert a.alloc[id] in a.alloc.Values;
      assert t.cells[id] == NewCell(a.meta, m[a.alloc[id]], a.at, a.enabled);
    } else {
      ClockOrKeyStep(c, cfg, s, a);
    }
  }

  /** The invariant holds throughout every run. */
  lemma {:induction false} RunsKeepInv(c: Crypto, cfg: Config, s: Sys, actions: seq<Action>)
    requires Inv(c, cfg, s)
    ensures Inv(c, cfg, Exec(c, cfg, s, actions))
    decreases |actions|
  {
    if actions != [] {
      ApplyKeepsInv(c, cfg, s, actions[0]);
      RunsKeepInv(c, cfg, Apply(c, cfg, s, actions[0]), actions[1..]);
    }
  }

  lemma EmptySystemOk(c: Crypto, cfg: Config, now: int)
    ensures Inv(c, cfg, EmptySystem(now))
  {
  }
}
