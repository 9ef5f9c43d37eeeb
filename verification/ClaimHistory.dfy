/**
 * Fencing, stated on the history of a run.
 *
 * The latest claim of a row or job is read off the action list alone: the last effective claim
 * that names it, whether its worker has crashed since, and whether the worker has used it up by a
 * completion or failure write before it expired.  No lease column is consulted.
 */
module ClaimHistory {
  import opened Prelude
  import opened Replay
  import opened Delivery
  import opened DeliveryRuns
  import opened DeliveryTheorems

  datatype Claim = Unclaimed | Claimed(owner: Token, expiresAt: int, used: bool, crashed: bool)

  /** The claim still entitles its worker to write. */
  predicate Current(h: Claim, owner: Token, now: int) {
    h.Claimed? && h.owner == owner && !h.used && !h.crashed && now < h.expiresAt
  }

  /** Completion and failure writes on a row. */
  predicate RowWrite(a: Action, id: Id, owner: Token) {
    || (a.DeliverRows? && a.owner == owner && id in a.ids)
    || (a.FailExport? && a.owner == owner && a.id == id)
  }

  /** Completion and failure writes on a job; a completion with a status its kind does not have raises. */
  predicate JobWrite(a: Action, id: Id, owner: Token, kind: JobKind) {
    || (a.Park? && a.owner == owner && a.id == id)
    || (a.Complete? && a.owner == owner && a.id == id && CompletionStatus(kind, a.status))
    || (a.FailSymbols? && a.owner == owner && a.id == id)
  }

  function Crashed(h: Claim, owner: Token): Claim {
    if h.Claimed? && h.owner == owner then h.(crashed := true) else h
  }

  function Used(h: Claim): Claim {
    if h.Claimed? then h.(used := true) else h
  }

  /** How one action of a run moves the latest claim of row `id`. */
  function NextRowClaim(cfg: Config, s: Sys, a: Action, id: Id, h: Claim): Claim {
    if a.ClaimRows? && ClaimsNow(s, a) && id in a.ids then Claimed(a.owner, s.now + cfg.rowLease, false, false)
    else if a.Crash? then Crashed(h, a.owner)
    else if (a.DeliverRows? || a.FailExport?) && RowWrite(a, id, a.owner) && Current(h, a.owner, s.now) then Used(h)
    else h
  }

  function NextJobClaim(cfg: Config, s: Sys, a: Action, id: Id, kind: Option<JobKind>, h: Claim): Claim {
    if a.ClaimJobs? && ClaimsNow(s, a) && id in a.ids then Claimed(a.owner, s.now + cfg.jobLease, false, false)
    else if a.Crash? then Crashed(h, a.owner)
    else if kind.Some? && (a.Park? || a.Complete? || a.FailSymbols?) && JobWrite(a, id, a.owner, kind.value)
            && Current(h, a.owner, s.now) then Used(h)
    else h
  }

  function KindIn(s: Sys, id: Id): Option<JobKind> {
    if id in s.cells then s.cells[id].row.kind else None
  }

  /** The latest claim of row `id` after `actions`, when it was `h` before them. */
  ghost function RowClaimAfter(c: Crypto, cfg: Config, s: Sys, actions: seq<Action>, id: Id, h: Claim): Claim
    decreases |actions|
  {
    if actions == [] then h
    else RowClaimAfter(c, cfg, Apply(c, cfg, s, actions[0]), actions[1..], id, NextRowClaim(cfg, s, actions[0], id, h))
  }

  ghost function JobClaimAfter(c: Crypto, cfg: Config, s: Sys, actions: seq<Action>, id: Id, h: Claim): Claim
    decreases |actions|
  {
    if actions == [] then h
    else
      var a := actions[0];
      JobClaimAfter(c, cfg, Apply(c, cfg, s, a), actions[1..], id, NextJobClaim(cfg, s, a, id, KindIn(s, id), h))
  }

  ghost function LatestRowClaim(c: Crypto, cfg: Config, now: int, actions: seq<Action>, id: Id): Claim {
    RowClaimAfter(c, cfg, EmptySystem(now), actions, id, Unclaimed)
  }

  ghost function LatestJobClaim(c: Crypto, cfg: Config, now: int, actions: seq<Action>, id: Id): Claim {
    JobClaimAfter(c, cfg, EmptySystem(now), actions, id, Unclaimed)
  }

  // ----- the lease columns remember the history -----

  /** A lease is stored exactly for an unused claim, and its worker lives unless it crashed. */
  predicate LeaseIs(lease: Lease, alive: set<Token>, h: Claim) {
    && lease == (if h.Claimed? && !h.used then Lease(h.owner, h.expiresAt) else NoLease)
    && (h.Claimed? && !h.used ==> (h.owner in alive <==> !h.crashed))
  }

  predicate RowAgrees(cells: map<Id, Cell>, id: Id, h: Claim) {
    if id in cells then LeaseIs(cells[id].row.lease, cells[id].rowMemo.Keys, h) else h.Unclaimed?
  }

  predicate JobAgrees(cells: map<Id, Cell>, id: Id, h: Claim) {
    if id in cells && cells[id].job.Some? then LeaseIs(cells[id].job.value.lease, cells[id].jobMemo.Keys, h) else h.Unclaimed?
  }

  lemma RowStepAgrees(cfg: Config, s: Sys, a: Action, id: Id, cell: Cell, h: Claim)
    requires id in s.cells && cell == s.cells[id] && Protocol(cfg, cell) && ClaimsNow(s, a) && IsWorker(a)
    requires LeaseIs(cell.row.lease, cell.rowMemo.Keys, h)
    ensures var after := StepCell(cfg, s.now, a, id, cell);
            LeaseIs(after.row.lease, after.rowMemo.Keys, NextRowClaim(cfg, s, a, id, h))
  {
  }

  lemma JobStepAgrees(cfg: Config, s: Sys, a: Action, id: Id, cell: Cell, h: Claim)
    requires id in s.cells && cell == s.cells[id] && Protocol(cfg, cell) && ClaimsNow(s, a) && IsWorker(a)
    requires cell.job.Some? && LeaseIs(cell.job.value.lease, cell.jobMemo.Keys, h)
    ensures var after := StepCell(cfg, s.now, a, id, cell);
            after.job.Some? && LeaseIs(after.job.value.lease, after.jobMemo.Keys, NextJobClaim(cfg, s, a, id, cell.row.kind, h))
  {
  }

  lemma NewCellLeases(meta: Meta, p: Prepared, at: int, enabled: bool)
    ensures var cell := NewCell(meta, p, at, enabled);
            cell.row.lease.NoLease? && (cell.job.Some? ==> cell.job.value.lease.NoLease?)
  {
  }

  /** A row stored by this action starts unclaimed. */
  lemma NewIsUnclaimed(c: Crypto, cfg: Config, s: Sys, a: Action, t: Sys, id: Id)
    requires t == Apply(c, cfg, s, a) && id !in s.cells && id in t.cells
    ensures t.cells[id].row.lease.NoLease? && (t.cells[id].job.Some? ==> t.cells[id].job.value.lease.NoLease?)
  {
    OnlyIngestAdds(c, cfg, s, a, t, id);
    var p :| t.cells[id] == NewCell(a.meta, p, a.at, a.enabled);
    NewCellLeases(a.meta, p, a.at, a.enabled);
  }

  lemma IdleForRow(cfg: Config, s: Sys, a: Action, id: Id, h: Claim)
    requires (id !in s.cells && h.Unclaimed?) || !(IsWorker(a) && ClaimsNow(s, a))
    ensures NextRowClaim(cfg, s, a, id, h) == h
  {
  }

  lemma IdleForJob(cfg: Config, s: Sys, a: Action, id: Id, h: Claim)
    requires ((id !in s.cells || s.cells[id].job.None?) && h.Unclaimed?) || !(IsWorker(a) && ClaimsNow(s, a))
    ensures NextJobClaim(cfg, s, a, id, KindIn(s, id), h) == h
  {
  }

  lemma JobsStayNone(cfg: Config, now: int, a: Action, id: Id, cell: Cell)
    requires cell.job.None?
    ensures StepCell(cfg, now, a, id, cell).job.None?
  {
  }

  /** A refused claim, or an action of no worker, leaves every stored cell alone. */
  lemma OtherStepKeepsCell(c: Crypto, cfg: Config, s: Sys, a: Action, t: Sys, id: Id)
    requires Inv(c, cfg, s) && id in s.cells && t == Apply(c, cfg, s, a) && (IsWorker(a) ==> !ClaimsNow(s, a))
    ensures id in t.cells && t.cells[id] == s.cells[id]
  {
    ApplyCell(c, cfg, s, a, t, id);
  }

  lemma WorkerStepMakes(c: Crypto, cfg: Config, s: Sys, a: Action, t: Sys, id: Id)
    requires id in s.cells && t == Apply(c, cfg, s, a) && IsWorker(a) && ClaimsNow(s, a)
    ensures id in t.cells && t.cells[id] == StepCell(cfg, s.now, a, id, s.cells[id])
  {
    WorkerIs(c, cfg, s, a);
    WorkerStepIs(cfg, s, a, id);
  }

  lemma RowHistoryStep(c: Crypto, cfg: Config, s: Sys, a: Action, t: Sys, id: Id, h: Claim, next: Claim)
    requires Inv(c, cfg, s) && RowAgrees(s.cells, id, h) && t == Apply(c, cfg, s, a) && next == NextRowClaim(cfg, s, a, id, h)
    ensures RowAgrees(t.cells, id, next)
  {
    if id !in s.cells {
      IdleForRow(cfg, s, a, id, h);
      if id in t.cells { NewIsUnclaimed(c, cfg, s, a, t, id); }
    } else if IsWorker(a) && ClaimsNow(s, a) {
      assert CellOk(c, cfg, s, s.cells[id]);
      RowStepAgrees(cfg, s, a, id, s.cells[id], h);
      WorkerStepMakes(c, cfg, s, a, t, id);
    } else {
      IdleForRow(cfg, s, a, id, h);
      OtherStepKeepsCell(c, cfg, s, a, t, id);
    }
  }

  lemma JobHistoryStep(c: Crypto, cfg: Config, s: Sys, a: Action, t: Sys, id: Id, h: Claim, next: Claim)
    requires Inv(c, cfg, s) && JobAgrees(s.cells, id, h) && t == Apply(c, cfg, s, a)
    requires next == NextJobClaim(cfg, s, a, id, KindIn(s, id), h)
    ensures JobAgrees(t.cells, id, next)
  {
    if id !in s.cells {
      IdleForJob(cfg, s, a, id, h);
      if id in t.cells { NewIsUnclaimed(c, cfg, s, a, t, id); }
    } else if IsWorker(a) && ClaimsNow(s, a) {
      WorkerStepMakes(c, cfg, s, a, t, id);
      if s.cells[id].job.Some? {
        assert CellOk(c, cfg, s, s.cells[id]);
        JobStepAgrees(cfg, s, a, id, s.cells[id], h);
      } else {
        IdleForJob(cfg, s, a, id, h);
        JobsStayNone(cfg, s.now, a, id, s.cells[id]);
      }
    } else {
      IdleForJob(cfg, s, a, id, h);
      OtherStepKeepsCell(c, cfg, s, a, t, id);
    }
  }

  /** In every run the lease columns hold exactly what the history of claims and writes says. */
  lemma {:induction false} RowHistoryAgrees(c: Crypto, cfg: Config, s: Sys, actions: seq<Action>, id: Id, h: Claim)
    requires Inv(c, cfg, s) && RowAgrees(s.cells, id, h)
    ensures RowAgrees(Exec(c, cfg, s, actions).cells, id, RowClaimAfter(c, cfg, s, actions, id, h))
    decreases |actions|
  {
    if actions != [] {
      var t := Apply(c, cfg, s, actions[0]);
      var next := NextRowClaim(cfg, s, actions[0], id, h);
      RowHistoryStep(c, cfg, s, actions[0], t, id, h, next);
      ApplyKeepsInv(c, cfg, s, actions[0]);
      RowHistoryAgrees(c, cfg, t, actions[1..], id, next);
    }
  }

  lemma {:induction false} JobHistoryAgrees(c: Crypto, cfg: Config, s: Sys, actions: seq<Action>, id: Id, h: Claim)
    requires Inv(c, cfg, s) && JobAgrees(s.cells, id, h)
    ensures JobAgrees(Exec(c, cfg, s, actions).cells, id, JobClaimAfter(c, cfg, s, actions, id, h))
    decreases |actions|
  {
    if actions != [] {
      var t := Apply(c, cfg, s, actions[0]);
      var next := NextJobClaim(cfg, s, actions[0], id, KindIn(s, id), h);
      JobHistoryStep(c, cfg, s, actions[0], t, id, h, next);
      ApplyKeepsInv(c, cfg, s, actions[0]);
      JobHistoryAgrees(c, cfg, t, actions[1..], id, next);
    }
  }

  // ----- fencing -----

  lemma RowWriteCell(cfg: Config, now: int, a: Action, id: Id, owner: Token, before: Cell, h: Claim)
    requires Protocol(cfg, before) && RowWrite(a, id, owner) && LeaseIs(before.row.lease, before.rowMemo.Keys, h)
    ensures var after := StepCell(cfg, now, a, id, before);
            && (after.row != before.row <==> Current(h, owner, now))
            && after.job == before.job
            && (after.row == before.row || (after.row.lease.NoLease? && !after.row.status.Processing?))
  {
  }

  /**
   * After any run, a completion or failure write changes the row exactly when the writer's claim
   * is the latest one in the run's history, was not used up, its worker has not crashed, and it
   * has not expired.  Late, superseded, repeated and unknown writers leave row and job alone.
   */
  lemma RowWriteIffLatestClaim(c: Crypto, cfg: Config, now: int, actions: seq<Action>, a: Action, id: Id, owner: Token)
    requires id in Exec(c, cfg, EmptySystem(now), actions).cells && RowWrite(a, id, owner)
    ensures var s := Exec(c, cfg, EmptySystem(now), actions);
            var before := s.cells[id]; var after := Apply(c, cfg, s, a).cells[id];
            && (after.row != before.row <==> Current(LatestRowClaim(c, cfg, now, actions, id), owner, s.now))
            && after.job == before.job
            && (after.row == before.row || (after.row.lease.NoLease? && !after.row.status.Processing?))
  {
    var s := Exec(c, cfg, EmptySystem(now), actions);
    EmptySystemOk(c, cfg, now);
    RunsKeepInv(c, cfg, EmptySystem(now), actions);
    assert CellOk(c, cfg, s, s.cells[id]);
    RowHistoryAgrees(c, cfg, EmptySystem(now), actions, id, Unclaimed);
    WorkerStepAt(c, cfg, s, a, id);
    RowWriteCell(cfg, s.now, a, id, owner, s.cells[id], LatestRowClaim(c, cfg, now, actions, id));
  }

  lemma JobWriteCell(cfg: Config, now: int, a: Action, id: Id, owner: Token, before: Cell, h: Claim)
    requires Protocol(cfg, before) && before.job.Some? && JobWrite(a, id, owner, before.job.value.kind)
    requires LeaseIs(before.job.value.lease, before.jobMemo.Keys, h)
    ensures var after := StepCell(cfg, now, a, id, before);
            && (after.job != before.job <==> Current(h, owner, now))
            && (after.job == before.job ==> after.row == before.row)
            && (after.job == before.job || (after.job.Some? && after.job.value.lease.NoLease? && !after.job.value.status.Running?))
  {
  }

  /** The same for the three writes that end a job's claim; a refused one leaves the row alone too. */
  lemma JobWriteIffLatestClaim(c: Crypto, cfg: Config, now: int, actions: seq<Action>, a: Action, id: Id, owner: Token)
    requires id in Exec(c, cfg, EmptySystem(now), actions).cells && Exec(c, cfg, EmptySystem(now), actions).cells[id].job.Some?
    requires JobWrite(a, id, owner, Exec(c, cfg, EmptySystem(now), actions).cells[id].job.value.kind)
    ensures var s := Exec(c, cfg, EmptySystem(now), actions);
            var before := s.cells[id]; var after := Apply(c, cfg, s, a).cells[id];
            && (after.job != before.job <==> Current(LatestJobClaim(c, cfg, now, actions, id), owner, s.now))
            && (after.job == before.job ==> after.row == before.row)
            && (after.job == before.job || (after.job.Some? && after.job.value.lease.NoLease? && !after.job.value.status.Running?))
  {
    var s := Exec(c, cfg, EmptySystem(now), actions);
    EmptySystemOk(c, cfg, now);
    RunsKeepInv(c, cfg, EmptySystem(now), actions);
    assert CellOk(c, cfg, s, s.cells[id]);
    JobHistoryAgrees(c, cfg, EmptySystem(now), actions, id, Unclaimed);
    WorkerStepAt(c, cfg, s, a, id);
    JobWriteCell(cfg, s.now, a, id, owner, s.cells[id], LatestJobClaim(c, cfg, now, actions, id));
  }

  /** The symbolizer's attempt counter was moved by a start that was then rolled back. */
  predicate LostStart(cell: Cell, owner: Token) {
    owner in cell.jobMemo && cell.jobMemo[owner].lost
  }

  lemma StartCellIs(cfg: Config, now: int, id: Id, owner: Token, outcome: StartOutcome, before: Cell, h: Claim)
    requires Protocol(cfg, before) && before.job.Some? && LeaseIs(before.job.value.lease, before.jobMemo.Keys, h)
    ensures var after := StepCell(cfg, now, Start(owner, id, outcome), id, before);
            && (after.job != before.job <==>
                  && Current(h, owner, now)
                  && !LostStart(before, owner)
                  && before.job.value.attempts < cfg.jobMaxAttempts
                  && !outcome.RolledBack?)
            && (after.toolStarts == before.toolStarts + 1 <==> after.job != before.job && outcome.Started?)
  {
  }

  /** A tool start is counted exactly for the latest living unexpired claim with budget left and a true snapshot. */
  lemma StartIffLatestClaim(c: Crypto, cfg: Config, now: int, actions: seq<Action>, id: Id, owner: Token, outcome: StartOutcome)
    requires id in Exec(c, cfg, EmptySystem(now), actions).cells && Exec(c, cfg, EmptySystem(now), actions).cells[id].job.Some?
    ensures var s := Exec(c, cfg, EmptySystem(now), actions);
            var before := s.cells[id]; var after := Apply(c, cfg, s, Start(owner, id, outcome)).cells[id];
            && (after.job != before.job <==>
                  && Current(LatestJobClaim(c, cfg, now, actions, id), owner, s.now)
                  && !LostStart(before, owner)
                  && before.job.value.attempts < cfg.jobMaxAttempts
                  && !outcome.RolledBack?)
            && (after.toolStarts == before.toolStarts + 1 <==> after.job != before.job && outcome.Started?)
  {
    var s := Exec(c, cfg, EmptySystem(now), actions);
    EmptySystemOk(c, cfg, now);
    RunsKeepInv(c, cfg, EmptySystem(now), actions);
    assert CellOk(c, cfg, s, s.cells[id]);
    JobHistoryAgrees(c, cfg, EmptySystem(now), actions, id, Unclaimed);
    WorkerStepAt(c, cfg, s, Start(owner, id, outcome), id);
    StartCellIs(cfg, s.now, id, owner, outcome, s.cells[id], LatestJobClaim(c, cfg, now, actions, id));
  }
}
