/** Retention over whole runs: evidence is kept for its full period and can be pruned from then on. */
module RetentionLaws {
  import opened Prelude
  import opened Replay
  import opened Delivery
  import opened DeliveryRuns
  import opened DeliveryTheorems

  /** How long evidence of a final row is kept. */
  function Period(cfg: Config, status: RowStatus): nat {
    match status
    case Delivered => cfg.keep.deliveredSeconds
    case DeadLetter => cfg.keep.deadLetterSeconds
    case _ => 0
  }

  /** Final rows are dated, and pruned ones were pruned after their period. */
  predicate Dated(cfg: Config, now: int, r: Row) {
    && (r.status == Delivered || r.status == DeadLetter <==> r.finalizedAt != None)
    && (r.prunedAt != None ==>
          && r.prunedAt.value <= now && r.finalizedAt != None
          && r.finalizedAt.value + Period(cfg, r.status) <= r.prunedAt.value)
  }

  lemma StepKeepsDates(cfg: Config, s: Sys, a: Action, id: Id)
    requires id in s.cells && Protocol(cfg, s.cells[id]) && ClaimsNow(s, a) && Dated(cfg, s.now, s.cells[id].row)
    ensures Dated(cfg, s.now, StepCell(cfg, s.now, a, id, s.cells[id]).row)
  {
  }

  lemma NewCellDated(cfg: Config, now: int, meta: Meta, p: Prepared, at: int, enabled: bool)
    ensures Dated(cfg, now, NewCell(meta, p, at, enabled).row)
  {
  }

  lemma DatesLast(cfg: Config, now: int, later: int, r: Row)
    requires Dated(cfg, now, r) && now <= later
    ensures Dated(cfg, later, r)
  {
  }

  ghost predicate AllDated(cfg: Config, s: Sys) {
    forall id <- s.cells :: Dated(cfg, s.now, s.cells[id].row)
  }

  lemma ClockRuns(c: Crypto, cfg: Config, s: Sys, a: Action)
    ensures s.now <= Apply(c, cfg, s, a).now
  {
  }

  lemma CellKeepsDates(c: Crypto, cfg: Config, s: Sys, a: Action, t: Sys, id: Id)
    requires Inv(c, cfg, s) && AllDated(cfg, s) && t == Apply(c, cfg, s, a) && id in s.cells
    ensures id in t.cells && Dated(cfg, t.now, t.cells[id].row)
  {
    assert CellOk(c, cfg, s, s.cells[id]);
    ClockRuns(c, cfg, s, a);
    ApplyCell(c, cfg, s, a, t, id);
    if ClaimsNow(s, a) { StepKeepsDates(cfg, s, a, id); }
    DatesLast(cfg, s.now, t.now, t.cells[id].row);
  }

  lemma {:induction false} RunsKeepDates(c: Crypto, cfg: Config, s: Sys, actions: seq<Action>)
    requires Inv(c, cfg, s) && AllDated(cfg, s)
    ensures AllDated(cfg, Exec(c, cfg, s, actions))
    decreases |actions|
  {
    if actions != [] {
      var a := actions[0];
      var t := Apply(c, cfg, s, a);
      ApplyKeepsInv(c, cfg, s, a);
      forall id <- t.cells ensures Dated(cfg, t.now, t.cells[id].row) {
        if id in s.cells {
          CellKeepsDates(c, cfg, s, a, t, id);
        } else {
          AddedIsDated(c, cfg, s, a, t, id);
        }
      }
      RunsKeepDates(c, cfg, t, actions[1..]);
    }
  }

  lemma AddedIsDated(c: Crypto, cfg: Config, s: Sys, a: Action, t: Sys, id: Id)
    requires t == Apply(c, cfg, s, a) && id !in s.cells && id in t.cells
    ensures Dated(cfg, t.now, t.cells[id].row)
  {
    OnlyIngestAdds(c, cfg, s, a, t, id);
    var p :| t.cells[id] == NewCell(a.meta, p, a.at, a.enabled);
    NewCellDated(cfg, t.now, a.meta, p, a.at, a.enabled);
  }

  lemma ReachableIsDated(c: Crypto, cfg: Config, s: Sys)
    requires Reachable(c, cfg, s)
    ensures AllDated(cfg, s)
  {
    var now, actions :| s == Exec(c, cfg, EmptySystem(now), actions);
    EmptySystemOk(c, cfg, now);
    RunsKeepDates(c, cfg, EmptySystem(now), actions);
  }

  /** Delivering or giving up a row dates it with the moment it happens. */
  lemma FinishingDates(cfg: Config, now: int, a: Action, id: Id, before: Cell)
    requires before.row.status == Processing
    ensures var after := StepCell(cfg, now, a, id, before).row;
            after.status == Delivered || after.status == DeadLetter ==> after.finalizedAt == Some(now)
  {
  }

  /**
   * A row that is final at time t, whatever runs afterwards: it stays final and dated, its evidence is
   * never pruned before t plus the period of its own status, and as long as that is ahead it is there.
   */
  lemma KeptForItsPeriod(c: Crypto, cfg: Config, first: Sys, actions: seq<Action>, id: Id, t: int)
    requires Reachable(c, cfg, first) && id in first.cells
    requires first.cells[id].row.status == Delivered || first.cells[id].row.status == DeadLetter
    requires first.cells[id].row.finalizedAt == Some(t)
    ensures var s := Exec(c, cfg, first, actions);
            var period := if first.cells[id].row.status == Delivered then cfg.keep.deliveredSeconds else cfg.keep.deadLetterSeconds;
            && id in s.cells && s.cells[id].row.status == first.cells[id].row.status && s.cells[id].row.finalizedAt == Some(t)
            && (s.now < t + period ==> s.cells[id].row.prunedAt == None)
            && (s.cells[id].row.prunedAt != None ==> t + period <= s.cells[id].row.prunedAt.value)
  {
    ReachableIsOk(c, cfg, first);
    ReachableIsDated(c, cfg, first);
    RunsPreserve(c, cfg, first, actions, id);
    RunsKeepDates(c, cfg, first, actions);
    assert Dated(cfg, Exec(c, cfg, first, actions).now, Exec(c, cfg, first, actions).cells[id].row);
  }

  /** Once the period is over, retention prunes the row: its job is finished by then, so nothing holds it back. */
  lemma PrunedAfterItsPeriod(c: Crypto, cfg: Config, s: Sys, id: Id, t: int)
    requires Reachable(c, cfg, s) && id in s.cells && s.cells[id].row.prunedAt == None && s.cells[id].row.finalizedAt == Some(t)
    requires (s.cells[id].row.status == Delivered && t + cfg.keep.deliveredSeconds <= s.now)
             || (s.cells[id].row.status == DeadLetter && t + cfg.keep.deadLetterSeconds <= s.now)
    ensures var after := Apply(c, cfg, s, Prune({id})).cells[id];
            && after.row.prunedAt == Some(s.now) && after.row.payloadBytes == 0
            && after.row.status == s.cells[id].row.status && after.row.stored == s.cells[id].row.stored
            && after.row.fingerprint == s.cells[id].row.fingerprint && after.row.rawFingerprint == s.cells[id].row.rawFingerprint
  {
    ReachableIsOk(c, cfg, s);
    assert CellOk(c, cfg, s, s.cells[id]);
    WorkerStepAt(c, cfg, s, Prune({id}), id);
  }
}
