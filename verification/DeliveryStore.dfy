/**
 * The two tables and the statements that gateways, export workers, symbolizers and retention run
 * on them, as they are run: row by row, in place.
 */
module DeliveryStore {
  import opened Prelude
  import opened Replay
  import opened Delivery
  import opened DeliveryLaws

  /** A row as its claimer remembers it. */
  datatype Held = Held(id: Id, attempts: nat)

  // ----- what each statement makes of a table -----

  function ClaimedRows(rows: Rows, ids: set<Id>, owner: Token, expiresAt: int): Rows {
    map id | id in rows :: if id in ids then ClaimRow(rows[id], owner, expiresAt) else rows[id]
  }

  /** A claim takes a row that was due or whose lease had run out, and shuts everyone else out until the new lease ends. */
  ghost predicate Claims(before: Row, after: Row, owner: Token, now: int, leaseSeconds: nat) {
    && before.prunedAt == None
    && (|| (before.status == Pending && before.nextAttemptAt <= now)
        || (before.status == Processing && before.lease != NoLease && before.lease.expiresAt <= now))
    && OwnedUntil(after, owner, now + leaseSeconds) && ClaimableFrom(after, now + leaseSeconds)
    && after.attempts == before.attempts + 1
    && after == before.(status := Processing, lease := after.lease, attempts := after.attempts)
  }

  lemma ClaimedRow(rows: Rows, ids: set<Id>, id: Id, owner: Token, now: int, leaseSeconds: nat)
    requires id in ids && id in rows && ClaimableRow(rows[id], now)
    ensures Claims(rows[id], ClaimedRows(rows, ids, owner, now + leaseSeconds)[id], owner, now, leaseSeconds)
  {
    RowClaimableIff(rows[id], now);
    ClaimExcludes(rows[id], now, owner, leaseSeconds);
  }

  function DeliveredRows(rows: Rows, ids: set<Id>, owner: Token, now: int): Rows {
    map id | id in rows :: if id in ids && OwnsRow(rows[id], owner, now) then DeliverRow(rows[id], now) else rows[id]
  }

  function FailedRow(rows: Rows, h: Held, owner: Token, now: int, retryable: bool, maxAttempts: nat, retryAfter: Option<nat>): Rows {
    if h.id in rows && OwnsRow(rows[h.id], owner, now)
    then rows[h.id := FailRow(rows[h.id], now, ShouldRetry(retryable, h.attempts, maxAttempts), RowDelay(retryAfter, h.attempts))]
    else rows
  }

  function FailedRows(rows: Rows, held: seq<Held>, owner: Token, now: int, retryable: bool, maxAttempts: nat, retryAfter: Option<nat>): Rows {
    if held == [] then rows
    else FailedRow(FailedRows(rows, held[..|held| - 1], owner, now, retryable, maxAttempts, retryAfter),
                   held[|held| - 1], owner, now, retryable, maxAttempts, retryAfter)
  }

  /** The first listed snapshot of a row. */
  function FirstHeld(held: seq<Held>, id: Id): Option<Held> {
    if held == [] then None
    else
      var n := |held| - 1;
      var earlier := FirstHeld(held[..n], id);
      if earlier.Some? then earlier else if held[n].id == id then Some(held[n]) else None
  }

  lemma {:induction false} FirstHeldIs(held: seq<Held>, id: Id)
    ensures FirstHeld(held, id).None? ==> forall i :: 0 <= i < |held| ==> held[i].id != id
    ensures FirstHeld(held, id).Some? ==>
              exists i :: 0 <= i < |held| && held[i] == FirstHeld(held, id).value && held[i].id == id && forall j :: 0 <= j < i ==> held[j].id != id
  {
    if held != [] {
      var n := |held| - 1;
      FirstHeldIs(held[..n], id);
      assert forall i :: 0 <= i < n ==> held[..n][i] == held[i];
      if FirstHeld(held[..n], id).Some? {
        var i :| 0 <= i < n && held[..n][i] == FirstHeld(held, id).value && held[..n][i].id == id && forall j :: 0 <= j < i ==> held[..n][j].id != id;
        assert held[i] == FirstHeld(held, id).value;
        assert forall j :: 0 <= j < i ==> held[j].id != id;
      }
    }
  }

  /** What the failure write makes of one row: its first listed snapshot decides, if the owner still holds it. */
  function SettledRow(r: Row, id: Id, held: seq<Held>, owner: Token, now: int, retryable: bool, maxAttempts: nat, retryAfter: Option<nat>): Row {
    var h := FirstHeld(held, id);
    if h.Some? && OwnsRow(r, owner, now)
    then FailRow(r, now, ShouldRetry(retryable, h.value.attempts, maxAttempts), RowDelay(retryAfter, h.value.attempts))
    else r
  }

  /** The statement-by-statement failure loop decides every row once and at the same time. */
  lemma {:induction false} FailedRowsSettle(rows: Rows, held: seq<Held>, owner: Token, now: int, retryable: bool, maxAttempts: nat,
                                            retryAfter: Option<nat>, id: Id)
    requires id in rows
    ensures var after := FailedRows(rows, held, owner, now, retryable, maxAttempts, retryAfter);
            after.Keys == rows.Keys && after[id] == SettledRow(rows[id], id, held, owner, now, retryable, maxAttempts, retryAfter)
  {
    if held != [] {
      FailedRowsSettle(rows, held[..|held| - 1], owner, now, retryable, maxAttempts, retryAfter, id);
    }
  }

  /**
   * What the failure write makes of one row: settled by its first listed snapshot if it is listed and
   * still held in time, untouched otherwise.
   */
  ghost predicate Fails(before: Row, after: Row, seen: Option<Held>, owner: Token, now: int, retryable: bool, maxAttempts: nat,
                        retryAfter: Option<nat>)
  {
    if seen != None && before.status == Processing && before.lease != NoLease && before.lease.owner == owner && now < before.lease.expiresAt
    then Settled(before, after, now, retryable, seen.value.attempts, maxAttempts, retryAfter)
    else after == before
  }

  lemma SettledRowFails(r: Row, id: Id, held: seq<Held>, owner: Token, now: int, retryable: bool, maxAttempts: nat, retryAfter: Option<nat>)
    ensures Fails(r, SettledRow(r, id, held, owner, now, retryable, maxAttempts, retryAfter), FirstHeld(held, id),
                  owner, now, retryable, maxAttempts, retryAfter)
  {
    var h := FirstHeld(held, id);
    if h.Some? { FailureSettles(r, now, retryable, h.value.attempts, maxAttempts, retryAfter); }
  }

  /** A row the owner still holds has not been decided by an earlier statement of the loop. */
  lemma FailOneMore(was: Rows, rows: Rows, held: seq<Held>, i: nat, owner: Token, now: int, retryable: bool, maxAttempts: nat, retryAfter: Option<nat>)
    requires i < |held| && rows == FailedRows(was, held[..i], owner, now, retryable, maxAttempts, retryAfter) && rows.Keys == was.Keys
    ensures FailedRows(was, held[..i + 1], owner, now, retryable, maxAttempts, retryAfter)
            == FailedRow(rows, held[i], owner, now, retryable, maxAttempts, retryAfter)
    ensures held[i].id in rows && OwnsRow(rows[held[i].id], owner, now) ==> rows[held[i].id] == was[held[i].id]
  {
    assert held[..i + 1][..i] == held[..i];
    if held[i].id in was { FailedRowsSettle(was, held[..i], owner, now, retryable, maxAttempts, retryAfter, held[i].id); }
  }

  /**
   * What a delivery makes of one row: a listed row that its owner holds in time is delivered for good,
   * nobody owns or claims it again; any other row is as it was, whatever its status.
   */
  ghost predicate Delivers(before: Row, after: Row, listed: bool, owner: Token, now: int) {
    if listed && before.status == Processing && before.lease != NoLease && before.lease.owner == owner && now < before.lease.expiresAt
    then
      && after.status == Delivered && after.deliveredAt == Some(now) && after.finalizedAt == Some(now)
      && Unowned(after) && NeverClaimable(after)
      && after == before.(status := Delivered, lease := NoLease, deliveredAt := Some(now), finalizedAt := Some(now))
    else after == before
  }

  lemma DeliveredRow(rows: Rows, ids: set<Id>, owner: Token, now: int, id: Id)
    requires id in rows
    ensures Delivers(rows[id], DeliveredRows(rows, ids, owner, now)[id], id in ids, owner, now)
  {
    DeliveryIsFinal(rows[id], now);
  }

  /** Every delivered row frees one place for new events. */
  lemma DeliveryFrees(rows: Rows, after: Rows, ids: set<Id>, owner: Token, now: int, n: nat)
    requires after == DeliveredRows(rows, ids, owner, now) && forall id <- rows :: id < n
    ensures LiveRows(after, n) == LiveRows(rows, n) - |ChangedRows(rows, after)|
  {
    assert after.Keys == rows.Keys;
    forall id <- rows ensures after[id] == rows[id] || (rows[id].status == Processing && after[id].status == Delivered) {
      DeliveredRow(rows, ids, owner, now, id);
    }
    FinishingFreesCapacity(rows, after, n, ChangedRows(rows, after));
  }

  function GivenUp(before: Rows, after: Rows): set<Id> {
    set id | id in ChangedRows(before, after) && after[id].status == DeadLetter
  }

  /** Every dead-lettered row frees one place; a retried one keeps its own. */
  lemma FailureFrees(rows: Rows, after: Rows, held: seq<Held>, owner: Token, now: int, retryable: bool, maxAttempts: nat,
                     retryAfter: Option<nat>, n: nat)
    requires after == FailedRows(rows, held, owner, now, retryable, maxAttempts, retryAfter) && after.Keys == rows.Keys
    requires forall id <- rows :: id < n
    ensures LiveRows(after, n) == LiveRows(rows, n) - |GivenUp(rows, after)|
  {
    forall id <- rows
      ensures after[id] == rows[id] || (rows[id].status == Processing && (after[id].status == Pending || after[id].status == DeadLetter))
    {
      FailedRowsSettle(rows, held, owner, now, retryable, maxAttempts, retryAfter, id);
    }
    FinishingFreesCapacity(rows, after, n, GivenUp(rows, after));
  }

  function Below(ids: set<Id>, n: nat): set<Id> {
    set id | id in ids && id < n
  }

  lemma DeliverOneMore(rows: Rows, ids: set<Id>, owner: Token, now: int, i: Id)
    ensures var before := DeliveredRows(rows, Below(ids, i), owner, now);
            && (i in rows ==> before[i] == rows[i])
            && DeliveredRows(rows, Below(ids, i + 1), owner, now)
               == (if i in rows && i in ids && OwnsRow(rows[i], owner, now) then before[i := DeliverRow(rows[i], now)] else before)
  {
  }

  lemma DeliveredBelow(rows: Rows, ids: set<Id>, n: nat, owner: Token, now: int)
    requires forall id <- rows :: id < n
    ensures DeliveredRows(rows, Below(ids, n), owner, now) == DeliveredRows(rows, ids, owner, now)
  {
  }

  /** The rows that differ between two states of a table. */
  function ChangedRows(before: Rows, after: Rows): set<Id> {
    set id | id in before && id in after && after[id] != before[id]
  }

  function PrunedRows(rows: Rows, ids: set<Id>, now: int): Rows {
    map id | id in rows :: if id in ids then PruneRow(rows[id], now) else rows[id]
  }

  function PrunedJobs(jobs: Jobs, ids: set<Id>): Jobs {
    map id | id in jobs :: if id in ids then jobs[id].(resultKept := false) else jobs[id]
  }

  /** What retention does to one row and its job: only evidence whose time is over goes, and nothing but the evidence. */
  ghost predicate Prunes(before: Row, job: Option<Job>, after: Row, jobAfter: Option<Job>, now: int, keep: Retention) {
    && RetentionOver(before, job, now, keep)
    && after == before.(prunedAt := Some(now), payloadBytes := 0, stack := "", frames := [])
    && jobAfter == (match job case Some(j) => Some(j.(resultKept := false)) case None => None)
  }

  lemma PrunedRow(rows: Rows, jobs: Jobs, ids: set<Id>, id: Id, now: int, keep: Retention)
    requires id in ids && id in rows && PrunableRow(rows[id], JobOf(jobs, id), now, keep)
    ensures Prunes(rows[id], JobOf(jobs, id), PrunedRows(rows, ids, now)[id], JobOf(PrunedJobs(jobs, ids), id), now, keep)
  {
    PrunableIff(rows[id], JobOf(jobs, id), now, keep);
    PruningDropsEvidence(rows[id], now);
  }

  function Ids(s: seq<Id>): set<Id> {
    set i | 0 <= i < |s| :: s[i]
  }

  function DueRows(rows: Rows, now: int, locked: set<Id>): set<Id> {
    set id | id in rows && ClaimableRow(rows[id], now) && id !in locked
  }

  function DueJobs(jobs: Jobs, now: int, locked: set<Id>): set<Id> {
    set id | id in jobs && ClaimableJob(jobs[id], now) && id !in locked
  }

  function PrunableRows(rows: Rows, jobs: Jobs, now: int, keep: Retention, locked: set<Id>): set<Id> {
    set id | id in rows && PrunableRow(rows[id], JobOf(jobs, id), now, keep) && id !in locked
  }

  /** Claims choose among the rows that are due and that no other transaction has locked. */
  lemma DueRowsAre(rows: Rows, now: int, locked: set<Id>, id: Id)
    requires id in rows
    ensures var r := rows[id];
            id in DueRows(rows, now, locked) <==>
              && id !in locked && r.prunedAt == None
              && (|| (r.status == Pending && r.nextAttemptAt <= now)
                  || (r.status == Processing && r.lease != NoLease && r.lease.expiresAt <= now))
  {
    RowClaimableIff(rows[id], now);
  }

  lemma DueJobsAre(jobs: Jobs, now: int, locked: set<Id>, id: Id)
    requires id in jobs
    ensures var j := jobs[id];
            id in DueJobs(jobs, now, locked) <==>
              && id !in locked
              && (|| ((j.status == Queued || j.status == SymbolsMissing) && j.nextAttemptAt <= now)
                  || (j.status == Running && j.lease != NoLease && j.lease.expiresAt <= now))
  {
    JobClaimableIff(jobs[id], now);
  }

  lemma PrunableRowsAre(rows: Rows, jobs: Jobs, now: int, keep: Retention, locked: set<Id>, id: Id)
    requires id in rows
    ensures id in PrunableRows(rows, jobs, now, keep, locked) <==> id !in locked && RetentionOver(rows[id], JobOf(jobs, id), now, keep)
  {
    PrunableIff(rows[id], JobOf(jobs, id), now, keep);
  }

  function ClaimedJobs(jobs: Jobs, ids: set<Id>, owner: Token, expiresAt: int): Jobs {
    map id | id in jobs :: if id in ids then ClaimJob(jobs[id], owner, expiresAt) else jobs[id]
  }

  /** A claim takes a due, parked or abandoned job and spends no attempt. */
  ghost predicate JobClaims(before: Job, after: Job, owner: Token, now: int, leaseSeconds: nat) {
    && (|| ((before.status == Queued || before.status == SymbolsMissing) && before.nextAttemptAt <= now)
        || (before.status == Running && before.lease != NoLease && before.lease.expiresAt <= now))
    && JobOwnedUntil(after, owner, now + leaseSeconds) && JobClaimableFrom(after, now + leaseSeconds)
    && after == before.(status := Running, lease := after.lease)
  }

  lemma ClaimedJob(jobs: Jobs, ids: set<Id>, id: Id, owner: Token, now: int, leaseSeconds: nat)
    requires id in ids && id in jobs && ClaimableJob(jobs[id], now)
    ensures JobClaims(jobs[id], ClaimedJobs(jobs, ids, owner, now + leaseSeconds)[id], owner, now, leaseSeconds)
  {
    JobClaimableIff(jobs[id], now);
    JobClaimExcludes(jobs[id], owner, now, leaseSeconds);
  }

  /** Jobs by number: the due ones, as positions in job order. */
  function DueNumbers(jobs: Jobs, order: seq<Id>, now: int, locked: set<Id>): set<nat> {
    set n | 0 <= n < |order| && order[n] in DueJobs(jobs, now, locked)
  }

  /** The inbox ids of numbered jobs. */
  function InboxIds(order: seq<Id>, numbers: seq<nat>): set<Id>
    requires forall k :: 0 <= k < |numbers| ==> numbers[k] < |order|
  {
    set k | 0 <= k < |numbers| :: order[numbers[k]]
  }

  /** Jobs whose crash waits for the artifact. */
  function WaitingFor(rows: Rows, jobs: Jobs, a: ArtifactIdentity): set<Id> {
    set id | id in jobs && id in rows && jobs[id].status.SymbolsMissing? && WaitsFor(rows[id], jobs[id].kind, a)
  }

  function RequeuedJobs(jobs: Jobs, ids: set<Id>, now: int): Jobs {
    map id | id in jobs :: if id in ids && jobs[id].status.SymbolsMissing? then RequeueJob(jobs[id], now) else jobs[id]
  }

  /** What a new artifact does to one job: it wakes it exactly if its crash is parked for want of this artifact. */
  ghost predicate Wakes(r: Row, before: Job, after: Job, a: ArtifactIdentity, now: int) {
    if before.status == SymbolsMissing && Needs(r, before.kind, a)
    then JobClaimableFrom(after, now) && after == before.(status := Queued, nextAttemptAt := now)
    else after == before
  }

  /** The jobs whose status differs between two states of the table. */
  function Moved(before: Jobs, after: Jobs): set<Id> {
    set id | id in before && id in after && after[id].status != before[id].status
  }

  lemma WokenJobs(rows: Rows, jobs: Jobs, a: ArtifactIdentity, now: int)
    requires jobs.Keys <= rows.Keys
    ensures var after := RequeuedJobs(jobs, WaitingFor(rows, jobs, a), now);
            && (forall id <- jobs :: Wakes(rows[id], jobs[id], after[id], a, now))
            && Moved(jobs, after) == WaitingFor(rows, jobs, a)
  {
    var after := RequeuedJobs(jobs, WaitingFor(rows, jobs, a), now);
    forall id <- jobs ensures Wakes(rows[id], jobs[id], after[id], a, now) {
      WaitsForIff(rows[id], jobs[id].kind, a);
    }
  }

  lemma RequeueOneMore(jobs: Jobs, ids: set<Id>, i: Id, now: int)
    requires forall id <- ids :: id in jobs && jobs[id].status.SymbolsMissing?
    ensures var before := RequeuedJobs(jobs, Below(ids, i), now);
            && (i in jobs ==> before[i] == jobs[i])
            && RequeuedJobs(jobs, Below(ids, i + 1), now) == if i in ids then before[i := RequeueJob(jobs[i], now)] else before
  {
  }

  lemma BelowOneMore(ids: set<Id>, i: Id)
    ensures |Below(ids, i + 1)| == |Below(ids, i)| + (if i in ids then 1 else 0)
  {
    assert Below(ids, i + 1) == Below(ids, i) + (if i in ids then {i} else {});
  }

  /** One pass over the parked jobs that match. */
  method UpdateRequeued(jobs: Jobs, matching: set<Id>, bound: nat, now: int) returns (after: Jobs, changed: nat)
    requires forall id <- matching :: id < bound && id in jobs && jobs[id].status.SymbolsMissing?
    ensures after == RequeuedJobs(jobs, matching, now) && changed == |matching|
  {
    after, changed := jobs, 0;
    for i := 0 to bound
      invariant after == RequeuedJobs(jobs, Below(matching, i), now)
      invariant changed == |Below(matching, i)|
    {
      RequeueOneMore(jobs, matching, i, now);
      BelowOneMore(matching, i);
      if i in matching {
        after := after[i := RequeueJob(after[i], now)];
        changed := changed + 1;
      }
    }
    assert Below(matching, bound) == matching;
  }

  lemma NoneLeftWaiting(rows: Rows, jobs: Jobs, a: ArtifactIdentity, now: int)
    ensures WaitingFor(rows, RequeuedJobs(jobs, WaitingFor(rows, jobs, a), now), a) == {}
  {
    var after := RequeuedJobs(jobs, WaitingFor(rows, jobs, a), now);
    assert forall id <- jobs :: id in WaitingFor(rows, jobs, a) || after[id] == jobs[id];
  }

  /** The crash events of a batch. */
  function RelevantKinds(events: seq<Submission>): map<string, JobKind> {
    if events == [] then map[]
    else
      var n := |events| - 1;
      var kind := KindOf(events[n].content);
      if kind.Some? then RelevantKinds(events[..n])[events[n].eventId := kind.value] else RelevantKinds(events[..n])
  }

  lemma {:induction false} RelevantAre(events: seq<Submission>)
    ensures forall i :: 0 <= i < |events| && KindOf(events[i].content).Some? ==> events[i].eventId in RelevantKinds(events)
    ensures forall e <- RelevantKinds(events) ::
              exists i :: 0 <= i < |events| && events[i].eventId == e && KindOf(events[i].content) == Some(RelevantKinds(events)[e])
  {
    if events != [] {
      var n := |events| - 1;
      var front := events[..n];
      RelevantAre(front);
      forall e <- RelevantKinds(events)
        ensures exists i :: 0 <= i < |events| && events[i].eventId == e && KindOf(events[i].content) == Some(RelevantKinds(events)[e])
      {
        if events[n].eventId == e && KindOf(events[n].content).Some? {
          assert KindOf(events[n].content) == Some(RelevantKinds(events)[e]);
        } else {
          assert e in RelevantKinds(front) && RelevantKinds(front)[e] == RelevantKinds(events)[e];
          var i :| 0 <= i < n && front[i].eventId == e && KindOf(front[i].content) == Some(RelevantKinds(front)[e]);
          assert events[i] == front[i];
        }
      }
      forall i | 0 <= i < |events| && KindOf(events[i].content).Some? ensures events[i].eventId in RelevantKinds(events) {
        if i < n { assert front[i] == events[i]; }
      }
    }
  }

  /** A batch event of this id that is a crash of this kind. */
  predicate CrashInBatch(events: seq<Submission>, eventId: string, kind: JobKind) {
    exists i :: 0 <= i < |events| && events[i].eventId == eventId && KindOf(events[i].content) == Some(kind)
  }

  /**
   * What enqueueing does to one row: a crash of the batch without a job gets one of its kind, due at
   * once and holding the row back exactly when symbolization is on and the crash can be matched with
   * an artifact; a row with a job, of another tenant, or of no crash of the batch stays as it is.
   */
  ghost predicate Enqueues(before: Row, job: Option<Job>, after: Row, jobAfter: Option<Job>,
                           tenant: string, events: seq<Submission>, enabled: bool, now: int)
  {
    if job != None || before.stored.tenant != tenant || (forall kind :: !CrashInBatch(events, before.stored.eventId, kind))
    then after == before && jobAfter == job
    else
      && jobAfter != None && CrashInBatch(events, before.stored.eventId, jobAfter.value.kind)
      && var j := jobAfter.value;
      && j.attempts == 0 && JobUnowned(j) && j.fingerprint == None && !j.resultKept
      && if !enabled then j.status == Disabled && after == before
         else if Matchable(before, j.kind)
         then j.status == Queued && JobClaimableFrom(j, now)
              && after == (if before.status == Pending then before.(status := AwaitingSymbols) else before)
         else j.status == MetadataMissing && after == before
  }

  lemma NewJobEnqueues(r: Row, kind: JobKind, tenant: string, events: seq<Submission>, enabled: bool, now: int)
    requires r.stored.tenant == tenant && CrashInBatch(events, r.stored.eventId, kind)
    ensures var job := EnqueuedJob(r, kind, now, enabled);
            Enqueues(r, None, HoldForSymbols(r, job), Some(job), tenant, events, enabled, now)
  {
    SymbolIdentityIff(r.(kind := Some(kind)), kind);
  }

  lemma EnqueuedRow(rows: Rows, jobs: Jobs, tenant: string, events: seq<Submission>, n: nat, now: int, enabled: bool, id: Id)
    requires id in rows && id < n && jobs.Keys <= rows.Keys
    ensures var after := EnqueuedJobs(rows, jobs, tenant, RelevantKinds(events), n, now, enabled);
            Enqueues(rows[id], JobOf(jobs, id), HeldRows(rows, jobs, after)[id], JobOf(after, id), tenant, events, enabled, now)
  {
    RelevantAre(events);
    var relevant := RelevantKinds(events);
    var r := rows[id];
    if r.stored.eventId in relevant && r.stored.tenant == tenant && id !in jobs {
      NewJobEnqueues(r, relevant[r.stored.eventId], tenant, events, enabled, now);
    }
  }

  /** Crash rows of the batch that have no job yet. */
  function Unqueued(rows: Rows, jobs: Jobs, tenant: string, relevant: map<string, JobKind>, bound: nat): set<Id> {
    set id | id in rows && id < bound && rows[id].stored.tenant == tenant && rows[id].stored.eventId in relevant && id !in jobs
  }

  function EnqueuedJob(r: Row, kind: JobKind, now: int, enabled: bool): Job {
    NewJob(r.(kind := Some(kind)), now, enabled)
  }

  /** The jobs once the crash rows below `n` have theirs. */
  function EnqueuedJobs(rows: Rows, jobs: Jobs, tenant: string, relevant: map<string, JobKind>, n: nat, now: int, enabled: bool): Jobs {
    map id | id in jobs.Keys + Unqueued(rows, jobs, tenant, relevant, n) ::
      if id in jobs then jobs[id] else EnqueuedJob(rows[id], relevant[rows[id].stored.eventId], now, enabled)
  }

  /** Only a new waiting job holds its row back. */
  function HeldRows(rows: Rows, before: Jobs, after: Jobs): Rows {
    map id | id in rows :: if id in after && id !in before then HoldForSymbols(rows[id], after[id]) else rows[id]
  }

  function NewlyQueued(before: Jobs, after: Jobs): set<Id> {
    set id | id in after && id !in before && after[id].status.Queued?
  }

  lemma EnqueueOneMore(rows: Rows, jobs: Jobs, tenant: string, relevant: map<string, JobKind>, i: nat, now: int, enabled: bool)
    ensures var done := EnqueuedJobs(rows, jobs, tenant, relevant, i, now, enabled);
            EnqueuedJobs(rows, jobs, tenant, relevant, i + 1, now, enabled)
            == if i in rows && rows[i].stored.tenant == tenant && rows[i].stored.eventId in relevant && i !in jobs
               then done[i := EnqueuedJob(rows[i], relevant[rows[i].stored.eventId], now, enabled)] else done
    ensures i in EnqueuedJobs(rows, jobs, tenant, relevant, i, now, enabled) ==> i in jobs
  {
  }

  lemma EnqueuedKeys(rows: Rows, jobs: Jobs, tenant: string, relevant: map<string, JobKind>, n: nat, now: int, enabled: bool)
    requires jobs.Keys <= rows.Keys
    ensures var all := EnqueuedJobs(rows, jobs, tenant, relevant, n, now, enabled);
            all.Keys <= rows.Keys && HeldRows(rows, jobs, all).Keys == rows.Keys
  {
  }

  lemma HoldOneMore(rows: Rows, before: Jobs, after: Jobs, i: Id, job: Job)
    requires i in rows && i !in before && i !in after
    ensures HeldRows(rows, before, after)[i] == rows[i]
    ensures HeldRows(rows, before, after)[i := HoldForSymbols(rows[i], job)] == HeldRows(rows, before, after[i := job])
  {
  }

  lemma QueuedOneMore(before: Jobs, after: Jobs, i: Id, job: Job)
    requires i !in before && i !in after
    ensures |NewlyQueued(before, after[i := job])| == |NewlyQueued(before, after)| + (if job.status.Queued? then 1 else 0)
  {
    assert NewlyQueued(before, after[i := job]) == NewlyQueued(before, after) + (if job.status.Queued? then {i} else {});
  }

  lemma PruneOneMore(rows: Rows, jobs: Jobs, ids: set<Id>, id: Id, now: int)
    requires id in rows && id !in ids
    ensures PrunedRows(rows, ids, now)[id] == rows[id]
    ensures PrunedRows(rows, ids, now)[id := PruneRow(rows[id], now)] == PrunedRows(rows, ids + {id}, now)
    ensures id in jobs ==> PrunedJobs(jobs, ids)[id := jobs[id].(resultKept := false)] == PrunedJobs(jobs, ids + {id})
    ensures id !in jobs ==> PrunedJobs(jobs, ids) == PrunedJobs(jobs, ids + {id})
  {
  }

  function TenantCount(rows: Rows, ids: seq<Id>, tenant: string): nat {
    if ids == [] then 0
    else
      var n := |ids| - 1;
      TenantCount(rows, ids[..n], tenant) + (if ids[n] in rows && rows[ids[n]].stored.tenant == tenant then 1 else 0)
  }

  /** `counts` holds exactly the tenants that occur, each with its number of rows. */
  ghost predicate CountsTenants(rows: Rows, ids: seq<Id>, counts: map<string, nat>) {
    forall t :: (if t in counts then counts[t] else 0) == TenantCount(rows, ids, t)
  }

  lemma CountOneMore(rows: Rows, ids: seq<Id>, id: Id, counts: map<string, nat>)
    requires CountsTenants(rows, ids, counts) && id in rows
    ensures var t := rows[id].stored.tenant;
            CountsTenants(rows, ids + [id], counts[t := (if t in counts then counts[t] else 0) + 1])
  {
    assert (ids + [id])[..|ids|] == ids;
    forall t ensures TenantCount(rows, ids + [id], t) == TenantCount(rows, ids, t) + (if rows[id].stored.tenant == t then 1 else 0) {
    }
  }

  /** ORDER BY id LIMIT n: the first `limit` candidates, ascending, and nothing else. */
  ghost predicate FirstOf(candidates: set<Id>, limit: nat, chosen: seq<Id>) {
    && |chosen| <= limit
    && (forall i, j :: 0 <= i < j < |chosen| ==> chosen[i] < chosen[j])
    && (forall i :: 0 <= i < |chosen| ==> chosen[i] in candidates)
    && (forall id <- candidates :: id in chosen || (|chosen| == limit && forall i :: 0 <= i < |chosen| ==> chosen[i] < id))
  }

  method SelectFirst(candidates: set<Id>, bound: nat, limit: nat) returns (chosen: seq<Id>)
    requires forall id <- candidates :: id < bound
    ensures FirstOf(candidates, limit, chosen)
  {
    chosen := [];
    for id := 0 to bound
      invariant |chosen| <= limit
      invariant forall i, j :: 0 <= i < j < |chosen| ==> chosen[i] < chosen[j]
      invariant forall i :: 0 <= i < |chosen| ==> chosen[i] in candidates && chosen[i] < id
      invariant forall k <- candidates :: k < id ==> k in chosen || (|chosen| == limit && forall i :: 0 <= i < |chosen| ==> chosen[i] < k)
    {
      if id in candidates && |chosen| < limit {
        chosen := chosen + [id];
      }
    }
  }

  // ----- ingest -----

  /** What others may commit: no row goes, no stored identity changes, and only new keys are added. */
  predicate Grows(before: Rows, after: Rows) {
    && (forall id <- before :: id in after && after[id].stored == before[id].stored)
    && (forall id <- after :: id in before || after[id].stored.eventId !in StoredEventIds(before, after[id].stored.tenant))
  }

  lemma GrowsKeys(before: Rows, after: Rows)
    requires Grows(before, after)
    ensures before.Keys <= after.Keys
  {
  }

  function Restrict(m: map<string, Prepared>, ids: set<string>): map<string, Prepared> {
    map e | e in m && e in ids :: m[e]
  }

  lemma StoredHas(rows: Rows, id: Id)
    requires id in rows
    ensures rows[id].stored.eventId in StoredEventIds(rows, rows[id].stored.tenant)
  {
  }

  /** What raced in between the first read and the upsert. */
  function RacedIds(m: map<string, Prepared>, added: set<string>, found: set<string>): set<string> {
    set e | e in m && e !in added && e !in found
  }

  /** Which of the ids are stored. */
  function Found(rows: Rows, tenant: string, ids: set<string>): set<string> {
    set e | e in ids && e in StoredEventIds(rows, tenant)
  }

  /** The event ids of the batch whose key is free. */
  function NewIds(m: map<string, Prepared>, rows: Rows, tenant: string): set<string> {
    set e | e in m && e !in StoredEventIds(rows, tenant)
  }

  lemma MatchSurvives(c: Crypto, ring: Option<KeyRing>, meta: Meta, m: map<string, Prepared>, before: Rows, mid: Rows)
    requires Grows(before, mid) && RowsMatch(c, ring, meta, mid, m)
    ensures RowsMatch(c, ring, meta, before, m)
  {
  }

  lemma FirstReadDecides(c: Crypto, ring: Option<KeyRing>, meta: Meta, m: map<string, Prepared>, before: Rows, mid: Rows)
    requires Grows(before, mid)
    ensures RowsMatch(c, ring, meta, before, Restrict(m, m.Keys)) == RowsMatch(c, ring, meta, before, m)
    ensures RowsMatch(c, ring, meta, mid, m) ==> RowsMatch(c, ring, meta, before, m)
  {
    assert Restrict(m, m.Keys) == m;
    if RowsMatch(c, ring, meta, mid, m) { MatchSurvives(c, ring, meta, m, before, mid); }
  }

  lemma RacedMatches(c: Crypto, ring: Option<KeyRing>, meta: Meta, m: map<string, Prepared>, mid: Rows, after: Rows,
                     ids: map<string, Id>, raced: set<string>)
    requires raced <= m.Keys && raced !! ids.Keys && RowsMatch(c, ring, meta, mid, m)
    requires forall id <- after :: (id in mid && after[id] == mid[id]) || after[id].stored.eventId in ids
    ensures RowsMatch(c, ring, meta, after, Restrict(m, raced))
  {
  }

  lemma BothReadsCover(c: Crypto, ring: Option<KeyRing>, meta: Meta, m: map<string, Prepared>, before: Rows, mid: Rows, after: Rows,
                       raced: set<string>, id: Id)
    requires Grows(before, mid) && id in mid && id in after && after[id] == mid[id]
    requires RowsMatch(c, ring, meta, before, m) && RowsMatch(c, ring, meta, after, Restrict(m, raced))
    requires mid[id].stored.tenant == meta.tenant && mid[id].stored.eventId in m
    requires mid[id].stored.eventId in raced || mid[id].stored.eventId in StoredEventIds(before, meta.tenant)
    ensures Matches(c, ring, meta, m[mid[id].stored.eventId].submission, mid[id].stored)
  {
    if id !in before {
      assert mid[id].stored.eventId in raced;
      assert Restrict(m, raced)[after[id].stored.eventId] == m[mid[id].stored.eventId];
    }
  }

  /**
   * The two reads around the upsert decide as one read at the upsert would: what was stored before
   * keeps its identity, what raced in is read again, and the rest is this batch's own.
   */
  lemma TwoReadsDecide(c: Crypto, ring: Option<KeyRing>, meta: Meta, m: map<string, Prepared>, before: Rows, mid: Rows, after: Rows,
                       ids: map<string, Id>, from: nat, next: nat, now: int)
    requires Grows(before, mid) && ids.Keys == NewIds(m, mid, meta.tenant)
    requires Inserted(mid, after, ids, m, from, next, now)
    requires forall e <- m :: m[e].stored.eventId == e
    ensures var raced := RacedIds(m, ids.Keys, Found(before, meta.tenant, m.Keys));
            RowsMatch(c, ring, meta, mid, m)
            <==> RowsMatch(c, ring, meta, before, m) && RowsMatch(c, ring, meta, after, Restrict(m, raced))
  {
    var raced := RacedIds(m, ids.Keys, Found(before, meta.tenant, m.Keys));
    if RowsMatch(c, ring, meta, mid, m) {
      MatchSurvives(c, ring, meta, m, before, mid);
      InsertedKeys(mid, after, ids, m, from, next, now);
      RacedMatches(c, ring, meta, m, mid, after, ids, raced);
    }
    if RowsMatch(c, ring, meta, before, m) && RowsMatch(c, ring, meta, after, Restrict(m, raced)) {
      forall id <- mid | mid[id].stored.tenant == meta.tenant && mid[id].stored.eventId in m
        ensures Matches(c, ring, meta, m[mid[id].stored.eventId].submission, mid[id].stored)
      {
        StoredHas(mid, id);
        BothReadsCover(c, ring, meta, m, before, mid, after, raced, id);
      }
    }
  }

  lemma InsertedKeys(before: Rows, after: Rows, ids: map<string, Id>, m: map<string, Prepared>, from: nat, next: nat, now: int)
    requires Inserted(before, after, ids, m, from, next, now) && forall e <- m :: m[e].stored.eventId == e
    ensures forall id <- after :: (id in before && after[id] == before[id]) || after[id].stored.eventId in ids
  {
    forall id <- after ensures (id in before && after[id] == before[id]) || after[id].stored.eventId in ids {
      if id !in before {
        assert id in ids.Values;
        var e :| e in ids && ids[e] == id;
      }
    }
  }

  /** Every id the upsert did not insert and the first read had not found is stored by now, so the second read finds it. */
  lemma RacedAreStored(before: Rows, mid: Rows, after: Rows, ids: map<string, Id>, m: map<string, Prepared>, tenant: string,
                       from: nat, next: nat, now: int)
    requires ids.Keys == NewIds(m, mid, tenant) && Inserted(mid, after, ids, m, from, next, now)
    ensures RacedIds(m, ids.Keys, Found(before, tenant, m.Keys)) <= StoredEventIds(after, tenant)
    ensures forall e :: e in RacedIds(m, ids.Keys, Found(before, tenant, m.Keys)) <==> e in m && Stored(mid, tenant, e) && !Stored(before, tenant, e)
  {
    forall e | e in m && e in StoredEventIds(mid, tenant) ensures e in StoredEventIds(after, tenant) {
      var id :| id in mid && mid[id].stored.tenant == tenant && mid[id].stored.eventId == e;
      assert after[id] == mid[id];
    }
  }

  /** The tenant has a row for the event. */
  ghost predicate Stored(rows: Rows, tenant: string, eventId: string) {
    exists id :: id in rows && rows[id].stored.tenant == tenant && rows[id].stored.eventId == eventId
  }

  lemma {:induction false} PreparedIds(c: Crypto, ring: Option<KeyRing>, meta: Meta, events: seq<Submission>)
    requires PrepareAll(c, ring, meta, events).Ok?
    ensures var m := PrepareAll(c, ring, meta, events).value; forall e <- m :: m[e].stored.eventId == e
  {
    if events != [] { PreparedIds(c, ring, meta, events[..|events| - 1]); }
  }

  /** `after` is `before` plus one new row per event id of `ids`, and nothing else. */
  predicate Inserted(before: Rows, after: Rows, ids: map<string, Id>, m: map<string, Prepared>, from: nat, next: nat, now: int) {
    && (forall id <- before :: id in after && after[id] == before[id])
    && (forall e <- ids :: e in m && from <= ids[e] < next && ids[e] in after && after[ids[e]] == NewRow(m[e], now))
    && (forall d, e :: d in ids && e in ids && ids[d] == ids[e] ==> d == e)
    && after.Keys == before.Keys + ids.Values
  }

  lemma ValuesOfUpdate(ids: map<string, Id>, e: string, next: Id)
    requires e !in ids
    ensures ids[e := next].Values == ids.Values + {next}
  {
    var after := ids[e := next];
    forall id | id in ids.Values ensures id in after.Values {
      var d :| d in ids && ids[d] == id;
      assert after[d] == id;
    }
    assert after[e] == next;
  }

  lemma InsertOneMore(before: Rows, after: Rows, ids: map<string, Id>, m: map<string, Prepared>, from: nat, next: nat, now: int, e: string)
    requires Inserted(before, after, ids, m, from, next, now) && e in m && e !in ids && from <= next
    requires forall id <- before :: id < from
    ensures Inserted(before, after[next := NewRow(m[e], now)], ids[e := next], m, from, next + 1, now)
  {
    var rows, all := after[next := NewRow(m[e], now)], ids[e := next];
    assert next !in before;
    forall d <- all ensures d in m && from <= all[d] < next + 1 && all[d] in rows && rows[all[d]] == NewRow(m[d], now) {
      if d != e { assert ids[d] != next; }
    }
    assert rows.Keys == before.Keys + all.Values by {
      ValuesOfUpdate(ids, e, next);
    }
  }

  lemma InsertedBelow(before: Rows, after: Rows, ids: map<string, Id>, m: map<string, Prepared>, from: nat, next: nat, now: int)
    requires Inserted(before, after, ids, m, from, next, now) && from <= next
    requires forall id <- before :: id < from
    ensures forall id <- after :: id < next
  {
  }

  /** One INSERT ... VALUES over the new event ids, in any order. */
  method InsertRows(rows: Rows, from: nat, m: map<string, Prepared>, added: set<string>, now: int)
    returns (after: Rows, next: nat, inserted: nat, ghost ids: map<string, Id>)
    requires added <= m.Keys && forall id <- rows :: id < from
    ensures from <= next && ids.Keys == added && inserted == |added|
    ensures Inserted(rows, after, ids, m, from, next, now)
  {
    after, next, inserted, ids := rows, from, 0, map[];
    var todo := added;
    while todo != {}
      invariant from <= next && todo <= added && ids.Keys == added - todo && inserted == |added| - |todo|
      invariant Inserted(rows, after, ids, m, from, next, now)
      decreases todo
    {
      var e :| e in todo;
      InsertOneMore(rows, after, ids, m, from, next, now, e);
      after, ids := after[next := NewRow(m[e], now)], ids[e := next];
      todo, inserted, next := todo - {e}, inserted + 1, next + 1;
    }
  }

  /** SELECT the stored identities of `ids` and compare each with the prepared event. */
  method ReadIdentities(rows: Rows, bound: nat, c: Crypto, ring: Option<KeyRing>, meta: Meta, m: map<string, Prepared>, ids: set<string>)
    returns (found: set<string>, ok: bool)
    requires (forall id <- rows :: id < bound) && ids <= m.Keys
    ensures found == Found(rows, meta.tenant, ids)
    ensures ok <==> RowsMatch(c, ring, meta, rows, Restrict(m, ids))
  {
    found, ok := {}, true;
    for i := 0 to bound
      invariant forall id <- rows :: id < i && rows[id].stored.tenant == meta.tenant && rows[id].stored.eventId in ids ==> rows[id].stored.eventId in found
      invariant found <= Found(rows, meta.tenant, ids)
      invariant ok <==> forall id <- rows :: id < i && rows[id].stored.tenant == meta.tenant && rows[id].stored.eventId in ids ==>
                          Matches(c, ring, meta, m[rows[id].stored.eventId].submission, rows[id].stored)
    {
      if i in rows && rows[i].stored.tenant == meta.tenant && rows[i].stored.eventId in ids {
        StoredHas(rows, i);
        found := found + {rows[i].stored.eventId};
        if !Matches(c, ring, meta, m[rows[i].stored.eventId].submission, rows[i].stored) { ok := false; }
      }
    }
  }

  /**
   * The upsert on what is stored by then, and the second read of what raced in; a mismatch rolls
   * the transaction's rows back.  The second read always finds what it asks for.
   */
  method UpsertAndVerify(c: Crypto, ring: Option<KeyRing>, meta: Meta, m: map<string, Prepared>, found: set<string>, now: int,
                         before: Rows, elsewhere: Rows, next: nat)
    returns (ok: bool, after: Rows, after': nat, inserted: nat, ghost ids: map<string, Id>)
    requires Grows(before, elsewhere) && forall id <- elsewhere :: id < next
    requires found == Found(before, meta.tenant, m.Keys) && RowsMatch(c, ring, meta, before, m)
    requires forall e <- m :: m[e].stored.eventId == e
    ensures next <= after' && forall id <- after :: id < after'
    ensures ok <==> RowsMatch(c, ring, meta, elsewhere, m)
    ensures ids.Keys == NewIds(m, elsewhere, meta.tenant) && inserted == |ids.Keys|
    ensures if ok then Inserted(elsewhere, after, ids, m, next, after', now) else after == elsewhere
  {
    var added := NewIds(m, elsewhere, meta.tenant);
    after, after', inserted, ids := InsertRows(elsewhere, next, m, added, now);
    InsertedBelow(elsewhere, after, ids, m, next, after', now);
    TwoReadsDecide(c, ring, meta, m, before, elsewhere, after, ids, next, after', now);
    RacedAreStored(before, elsewhere, after, ids, m, meta.tenant, next, after', now);
    var raced := RacedIds(m, added, found);
    var seen;
    seen, ok := ReadIdentities(after, after', c, ring, meta, m, raced);
    assert seen == raced;
    if !ok { after := elsewhere; }
  }

  /** The whole transaction on the tables it meets: `before` at its first read, `elsewhere` at its upsert. */
  method ReadAndInsert(c: Crypto, ring: Option<KeyRing>, meta: Meta, events: seq<Submission>, now: int,
                       before: Rows, bound: nat, elsewhere: Rows, next: nat)
    returns (r: Result<InsertResult, IngestError>, after: Rows, after': nat, ghost ids: map<string, Id>)
    requires Grows(before, elsewhere) && bound <= next && (forall id <- before :: id < bound) && (forall id <- elsewhere :: id < next)
    ensures before.Keys <= after.Keys && forall id <- after :: id < after'
    ensures var prepared := PrepareAll(c, ring, meta, events);
            && (prepared.Err? ==> r == Err(prepared.error) && after == before)
            && (prepared.Ok? ==> (r.Ok? <==> RowsMatch(c, ring, meta, elsewhere, prepared.value)))
            && (prepared.Ok? && r.Err? ==>
                  && r == Err(EventIdConflict)
                  && after == if RowsMatch(c, ring, meta, before, prepared.value) then elsewhere else before)
            && (prepared.Ok? && r.Ok? ==>
                  && ids.Keys == NewIds(prepared.value, elsewhere, meta.tenant)
                  && Inserted(elsewhere, after, ids, prepared.value, next, after', now)
                  && r.value == InsertResult(|events|, |ids.Keys|, |events| - |ids.Keys|))
  {
    after, after', ids := before, bound, map[];
    var prepared := PrepareUniqueEvents(c, ring, meta, events);
    if prepared.Err? { r := Err(prepared.error); return; }
    var m := prepared.value;
    PreparedIds(c, ring, meta, events);
    GrowsKeys(before, elsewhere);
    var found, ok := ReadIdentities(before, bound, c, ring, meta, m, m.Keys);
    FirstReadDecides(c, ring, meta, m, before, elsewhere);
    if !ok { r := Err(EventIdConflict); return; }
    var inserted;
    ok, after, after', inserted, ids := UpsertAndVerify(c, ring, meta, m, found, now, before, elsewhere, next);
    r := if ok then Ok(InsertResult(|events|, inserted, |events| - inserted)) else Err(EventIdConflict);
  }

  // ----- capacity -----

  lemma {:induction false} LiveRowsGrow(rows: Rows, i: nat, n: nat)
    requires i <= n
    ensures LiveRows(rows, i) <= LiveRows(rows, n)
    decreases n
  {
    if i < n { LiveRowsGrow(rows, i, n - 1); }
  }

  /** check_inbox_capacity: counting stops one past the limit and still decides by the full count. */
  method CheckCapacity(rows: Rows, bound: nat, maxLive: nat, maxRawBytes: nat) returns (ok: bool)
    ensures ok <==> |UnfinishedIds(rows, bound)| <= maxLive && RawBytes(rows, bound) <= maxRawBytes
  {
    var count, i := 0, 0;
    while i < bound && count <= maxLive
      invariant i <= bound
      invariant count == LiveRows(rows, i)
    {
      if i in rows && Live(rows[i]) { count := count + 1; }
      i := i + 1;
    }
    LiveRowsGrow(rows, i, bound);
    LiveRowsAreUnfinished(rows, bound);
    var bytes := 0;
    for j := 0 to bound
      invariant bytes == RawBytes(rows, j)
    {
      if j in rows && rows[j].prunedAt.None? { bytes := bytes + rows[j].payloadBytes; }
    }
    ok := count <= maxLive && bytes <= maxRawBytes;
  }

  // ----- the store -----

  lemma IdsSnoc(ids: seq<Id>, i: nat)
    requires i < |ids| && forall j, k :: 0 <= j < k < |ids| ==> ids[j] != ids[k]
    ensures ids[i] !in Ids(ids[..i])
    ensures ids[..i + 1] == ids[..i] + [ids[i]]
    ensures Ids(ids[..i + 1]) == Ids(ids[..i]) + {ids[i]}
  {
  }

  /** One job per number, each job once. */
  ghost predicate Numbers(order: seq<Id>, ids: set<Id>) {
    ids == Ids(order) && forall i, j :: 0 <= i < j < |order| ==> order[i] != order[j]
  }

  lemma NumberOneMore(order: seq<Id>, jobs: Jobs, id: Id, job: Job)
    requires Numbers(order, jobs.Keys) && id !in jobs
    ensures Numbers(order + [id], jobs[id := job].Keys)
  {
    forall k | k in jobs.Keys + {id} ensures k in Ids(order + [id]) {
      if k != id {
        var i :| 0 <= i < |order| && order[i] == k;
        assert (order + [id])[i] == k;
      } else {
        assert (order + [id])[|order|] == k;
      }
    }
  }

  lemma ChangedOneMore(before: Rows, rows: Rows, id: Id, r: Row)
    requires before.Keys == rows.Keys && id in rows && rows[id] == before[id] && r != before[id]
    ensures |ChangedRows(before, rows[id := r])| == |ChangedRows(before, rows)| + 1
  {
    assert ChangedRows(before, rows[id := r]) == ChangedRows(before, rows) + {id};
  }

  /** The delivery UPDATE, row by row. */
  method UpdateDelivered(rows: Rows, bound: nat, owner: Token, ids: set<Id>, now: int) returns (after: Rows, changed: nat)
    requires forall id <- rows :: id < bound
    ensures after == DeliveredRows(rows, ids, owner, now)
    ensures changed == |ChangedRows(rows, after)|
  {
    after, changed := rows, 0;
    for i := 0 to bound
      invariant after == DeliveredRows(rows, Below(ids, i), owner, now)
      invariant changed == |ChangedRows(rows, after)|
    {
      DeliverOneMore(rows, ids, owner, now, i);
      if i in after && i in ids && OwnsRow(after[i], owner, now) {
        ChangedOneMore(rows, after, i, DeliverRow(after[i], now));
        after := after[i := DeliverRow(after[i], now)];
        changed := changed + 1;
      }
    }
    DeliveredBelow(rows, ids, bound, owner, now);
  }

  /** The failure UPDATEs, one per listed row. */
  method UpdateFailed(rows: Rows, owner: Token, held: seq<Held>, retryable: bool, maxAttempts: nat, retryAfter: Option<nat>, now: int)
    returns (after: Rows, changed: nat)
    ensures after == FailedRows(rows, held, owner, now, retryable, maxAttempts, retryAfter) && after.Keys == rows.Keys
    ensures changed == |ChangedRows(rows, after)|
  {
    after, changed := rows, 0;
    for i := 0 to |held|
      invariant after == FailedRows(rows, held[..i], owner, now, retryable, maxAttempts, retryAfter) && after.Keys == rows.Keys
      invariant changed == |ChangedRows(rows, after)|
    {
      FailOneMore(rows, after, held, i, owner, now, retryable, maxAttempts, retryAfter);
      var h := held[i];
      if h.id in after && OwnsRow(after[h.id], owner, now) {
        var failed := FailRow(after[h.id], now, ShouldRetry(retryable, h.attempts, maxAttempts), RowDelay(retryAfter, h.attempts));
        ChangedOneMore(rows, after, h.id, failed);
        after := after[h.id := failed];
        changed := changed + 1;
      }
    }
    assert held[..|held|] == held;
  }

  lemma InboxIdsSnoc(order: seq<Id>, numbers: seq<nat>, i: nat)
    requires i < |numbers| && forall k :: 0 <= k < |numbers| ==> numbers[k] < |order|
    requires forall j, k :: 0 <= j < k < |numbers| ==> numbers[j] < numbers[k]
    requires forall j, k :: 0 <= j < k < |order| ==> order[j] != order[k]
    ensures order[numbers[i]] !in InboxIds(order, numbers[..i])
    ensures InboxIds(order, numbers[..i + 1]) == InboxIds(order, numbers[..i]) + {order[numbers[i]]}
  {
    assert forall k :: 0 <= k < i ==> numbers[..i + 1][k] == numbers[..i][k];
  }

  lemma ClaimOneMore(jobs: Jobs, ids: set<Id>, id: Id, owner: Token, expiresAt: int)
    requires id in jobs && id !in ids
    ensures var before := ClaimedJobs(jobs, ids, owner, expiresAt);
            before[id] == jobs[id] && before[id := ClaimJob(jobs[id], owner, expiresAt)] == ClaimedJobs(jobs, ids + {id}, owner, expiresAt)
  {
  }

  /** The dictionary of crash events that enqueueing starts from. */
  method Relevant(events: seq<Submission>) returns (relevant: map<string, JobKind>)
    ensures relevant == RelevantKinds(events)
  {
    relevant := map[];
    for i := 0 to |events|
      invariant relevant == RelevantKinds(events[..i])
    {
      assert events[..i + 1][..i] == events[..i];
      var kind := KindOf(events[i].content);
      if kind.Some? { relevant := relevant[events[i].eventId := kind.value]; }
    }
    assert events[..|events|] == events;
  }

  /** The INSERT of the new jobs and the UPDATE of the rows that wait for them, row by row. */
  method EnqueueRows(rows: Rows, jobs: Jobs, order: seq<Id>, bound: nat, tenant: string, relevant: map<string, JobKind>, enabled: bool, now: int)
    returns (rows': Rows, jobs': Jobs, order': seq<Id>, waiting: nat)
    requires Numbers(order, jobs.Keys)
    ensures order <= order' && Numbers(order', jobs'.Keys)
    ensures jobs' == EnqueuedJobs(rows, jobs, tenant, relevant, bound, now, enabled)
    ensures rows' == HeldRows(rows, jobs, jobs')
    ensures waiting == |NewlyQueued(jobs, jobs')|
  {
    rows', jobs', order', waiting := rows, jobs, order, 0;
    assert HeldRows(rows, jobs, jobs) == rows;
    for i := 0 to bound
      invariant order <= order' && Numbers(order', jobs'.Keys)
      invariant jobs' == EnqueuedJobs(rows, jobs, tenant, relevant, i, now, enabled)
      invariant rows' == HeldRows(rows, jobs, jobs')
      invariant waiting == |NewlyQueued(jobs, jobs')|
    {
      EnqueueOneMore(rows, jobs, tenant, relevant, i, now, enabled);
      if i in rows && rows[i].stored.tenant == tenant && rows[i].stored.eventId in relevant && i !in jobs {
        var job := EnqueuedJob(rows[i], relevant[rows[i].stored.eventId], now, enabled);
        HoldOneMore(rows, jobs, jobs', i, job);
        QueuedOneMore(jobs, jobs', i, job);
        NumberOneMore(order', jobs', i, job);
        rows' := rows'[i := HoldForSymbols(rows[i], job)];
        jobs', order' := jobs'[i := job], order' + [i];
        if job.status.Queued? { waiting := waiting + 1; }
      }
    }
  }

  /** A job is known by its inbox id; its own id is its position in `jobOrder`. */
  class InboxStore {
    var rows: Rows
    var jobs: Jobs
    var jobOrder: seq<Id>
    var nextId: nat

    ghost predicate Valid()
      reads this
    {
      (forall id <- rows :: id < nextId) && jobs.Keys <= rows.Keys && Numbers(jobOrder, jobs.Keys)
    }

    constructor ()
      ensures Valid() && rows == map[] && jobs == map[] && nextId == 0
    {
      rows, jobs, jobOrder, nextId := map[], map[], [], 0;
    }

    /**
     * insert_batch.  Other transactions may commit `elsewhere` between the first read and the
     * upsert; the answer is what one look at that table would have given.  On a conflict that
     * raced in, the transaction's own rows are rolled back.
     */
    method InsertBatch(c: Crypto, ring: Option<KeyRing>, meta: Meta, events: seq<Submission>, now: int, elsewhere: Rows, next: nat)
      returns (r: Result<InsertResult, IngestError>, ghost ids: map<string, Id>)
      requires Valid() && Grows(rows, elsewhere) && nextId <= next && forall id <- elsewhere :: id < next
      modifies this`rows, this`nextId
      ensures Valid()
      ensures var prepared := PrepareAll(c, ring, meta, events);
              && (prepared.Err? ==> r == Err(prepared.error) && rows == old(rows))
              && (prepared.Ok? ==> (r.Ok? <==> RowsMatch(c, ring, meta, elsewhere, prepared.value)))
              && (prepared.Ok? && r.Err? ==>
                    && r == Err(EventIdConflict)
                    && rows == if RowsMatch(c, ring, meta, old(rows), prepared.value) then elsewhere else old(rows))
              && (prepared.Ok? && r.Ok? ==>
                    && ids.Keys == NewIds(prepared.value, elsewhere, meta.tenant)
                    && Inserted(elsewhere, rows, ids, prepared.value, next, nextId, now)
                    && r.value == InsertResult(|events|, |ids.Keys|, |events| - |ids.Keys|))
    {
      GrowsKeys(rows, elsewhere);
      r, rows, nextId, ids := ReadAndInsert(c, ring, meta, events, now, rows, nextId, elsewhere, next);
    }

    /** claim_batch; `locked` are rows another transaction holds, which SKIP LOCKED passes over. */
    method ClaimBatch(owner: Token, limit: nat, leaseSeconds: nat, now: int, locked: set<Id>) returns (claimed: seq<Id>)
      requires Valid()
      modifies this`rows
      ensures Valid()
      ensures FirstOf(DueRows(old(rows), now, locked), limit, claimed)
      ensures rows == ClaimedRows(old(rows), Ids(claimed), owner, now + leaseSeconds)
      ensures forall id <- claimed :: id in rows && id !in locked && Claims(old(rows)[id], rows[id], owner, now, leaseSeconds)
    {
      claimed := SelectFirst(DueRows(rows, now, locked), nextId, limit);
      for i := 0 to |claimed|
        invariant rows == ClaimedRows(old(rows), Ids(claimed[..i]), owner, now + leaseSeconds)
      {
        var id := claimed[i];
        assert id !in Ids(claimed[..i]);
        assert Ids(claimed[..i + 1]) == Ids(claimed[..i]) + {id};
        rows := rows[id := ClaimRow(rows[id], owner, now + leaseSeconds)];
      }
      assert claimed[..|claimed|] == claimed;
      forall id <- claimed ensures id in rows && id !in locked && Claims(old(rows)[id], rows[id], owner, now, leaseSeconds) {
        ClaimedRow(old(rows), Ids(claimed), id, owner, now, leaseSeconds);
      }
    }

    /** mark_delivered: one guarded UPDATE over the listed ids. */
    method MarkDelivered(owner: Token, ids: set<Id>, now: int) returns (changed: nat)
      requires Valid()
      modifies this`rows
      ensures Valid()
      ensures rows == DeliveredRows(old(rows), ids, owner, now)
      ensures forall id <- old(rows) :: Delivers(old(rows)[id], rows[id], id in ids, owner, now)
      ensures changed == |ChangedRows(old(rows), rows)|
      ensures LiveRows(rows, nextId) == LiveRows(old(rows), nextId) - changed
    {
      ghost var was := rows;
      rows, changed := UpdateDelivered(rows, nextId, owner, ids, now);
      forall id <- was ensures Delivers(was[id], rows[id], id in ids, owner, now) {
        DeliveredRow(was, ids, owner, now, id);
      }
      DeliveryFrees(was, rows, ids, owner, now, nextId);
    }

    /** mark_failed: one guarded UPDATE per listed row. */
    method MarkFailed(owner: Token, held: seq<Held>, retryable: bool, maxAttempts: nat, retryAfter: Option<nat>, now: int)
      returns (changed: nat)
      requires Valid()
      modifies this`rows
      ensures Valid()
      ensures rows == FailedRows(old(rows), held, owner, now, retryable, maxAttempts, retryAfter)
      ensures rows.Keys == old(rows).Keys
      ensures forall id <- old(rows) :: Fails(old(rows)[id], rows[id], FirstHeld(held, id), owner, now, retryable, maxAttempts, retryAfter)
      ensures changed == |ChangedRows(old(rows), rows)|
      ensures LiveRows(rows, nextId)
              == LiveRows(old(rows), nextId) - |GivenUp(old(rows), rows)|
    {
      ghost var was := rows;
      rows, changed := UpdateFailed(rows, owner, held, retryable, maxAttempts, retryAfter, now);
      forall id <- was ensures Fails(was[id], rows[id], FirstHeld(held, id), owner, now, retryable, maxAttempts, retryAfter) {
        FailedRowsSettle(was, held, owner, now, retryable, maxAttempts, retryAfter, id);
        SettledRowFails(was[id], id, held, owner, now, retryable, maxAttempts, retryAfter);
      }
      FailureFrees(was, rows, held, owner, now, retryable, maxAttempts, retryAfter, nextId);
    }

    /** claim_symbolization_batch, in the order of job ids. */
    method ClaimSymbolizationBatch(owner: Token, limit: nat, leaseSeconds: nat, now: int, locked: set<Id>) returns (claimed: seq<nat>)
      requires Valid()
      modifies this`jobs
      ensures Valid()
      ensures FirstOf(DueNumbers(old(jobs), jobOrder, now, locked), limit, claimed)
      ensures jobs == ClaimedJobs(old(jobs), InboxIds(jobOrder, claimed), owner, now + leaseSeconds)
      ensures forall n <- claimed :: n < |jobOrder| && jobOrder[n] !in locked && JobClaims(old(jobs)[jobOrder[n]], jobs[jobOrder[n]], owner, now, leaseSeconds)
    {
      claimed := SelectFirst(DueNumbers(jobs, jobOrder, now, locked), |jobOrder|, limit);
      for i := 0 to |claimed|
        invariant jobs == ClaimedJobs(old(jobs), InboxIds(jobOrder, claimed[..i]), owner, now + leaseSeconds)
      {
        var id := jobOrder[claimed[i]];
        InboxIdsSnoc(jobOrder, claimed, i);
        ClaimOneMore(old(jobs), InboxIds(jobOrder, claimed[..i]), id, owner, now + leaseSeconds);
        jobs := jobs[id := ClaimJob(jobs[id], owner, now + leaseSeconds)];
      }
      assert claimed[..|claimed|] == claimed;
      forall n <- claimed ensures n < |jobOrder| && jobOrder[n] !in locked && JobClaims(old(jobs)[jobOrder[n]], jobs[jobOrder[n]], owner, now, leaseSeconds) {
        ClaimedJob(old(jobs), InboxIds(jobOrder, claimed), jobOrder[n], owner, now, leaseSeconds);
      }
    }

    method StartSymbolizationAttempt(owner: Token, id: Id, snapshot: nat, maxAttempts: nat, now: int) returns (count: Option<nat>)
      requires Valid()
      modifies this`jobs
      ensures Valid()
      ensures count.Some? <==>
                && id in old(jobs) && old(jobs)[id].status == Running && old(jobs)[id].lease != NoLease
                && old(jobs)[id].lease.owner == owner && now < old(jobs)[id].lease.expiresAt
                && old(jobs)[id].attempts == snapshot < maxAttempts
      ensures count.Some? ==> count.value == snapshot + 1 && jobs == old(jobs)[id := old(jobs)[id].(attempts := snapshot + 1)]
      ensures count.None? ==> jobs == old(jobs)
    {
      if id in jobs && MayStart(jobs[id], owner, now, snapshot, maxAttempts) {
        jobs := jobs[id := StartAttempt(jobs[id])];
        return Some(jobs[id].attempts);
      }
      return None;
    }

    /** mark_symbols_missing: the job sleeps until the recheck time, owned by nobody; its row keeps waiting. */
    method MarkSymbolsMissing(owner: Token, id: Id, now: int) returns (changed: bool)
      requires Valid()
      modifies this`jobs
      ensures Valid()
      ensures changed <==> id in old(jobs) && OwnsJob(old(jobs)[id], owner, now)
      ensures !changed ==> jobs == old(jobs)
      ensures changed ==>
                && jobs.Keys == old(jobs).Keys && (forall other <- jobs :: other != id ==> jobs[other] == old(jobs)[other])
                && jobs[id] == ParkJob(old(jobs)[id], now)
                && Unfinished(jobs[id].status) && jobs[id].attempts == old(jobs)[id].attempts
                && (forall t: int :: ClaimableJob(jobs[id], t) <==> now + 60 <= t)
                && (forall other: Token, t: int :: !OwnsJob(jobs[id], other, t))
    {
      changed := id in jobs && OwnsJob(jobs[id], owner, now);
      if changed { jobs := jobs[id := ParkJob(jobs[id], now)]; }
    }

    /** mark_symbolized: the result, the Issue identity and the release of the row in one transaction. */
    method MarkSymbolized(owner: Token, id: Id, kind: JobKind, status: JobStatus, fingerprint: string, now: int)
      returns (r: Result<bool, ()>)
      requires Valid()
      modifies this`rows, this`jobs
      ensures Valid()
      ensures r.Err? <==> !(status == Symbolized || (status == PartiallySymbolized && kind == Native))
      ensures r.Ok? ==> (r.value <==> id in old(jobs) && OwnsJob(old(jobs)[id], owner, now))
      ensures r == Ok(true) ==>
                && jobs == old(jobs)[id := CompleteJob(old(jobs)[id], status, fingerprint)]
                && rows == old(rows)[id := ReleaseRow(PublishFingerprint(old(rows)[id], kind, fingerprint))]
                && jobs[id].status == status && jobs[id].fingerprint == Some(fingerprint) && JobUnowned(jobs[id]) && JobNeverClaimable(jobs[id])
                && rows[id].status == (if old(rows)[id].status == AwaitingSymbols then Pending else old(rows)[id].status)
                && rows[id].fingerprint == (if kind == Java && old(rows)[id].fingerprint != None then Some(fingerprint) else old(rows)[id].fingerprint)
                && rows[id].rawFingerprint == old(rows)[id].rawFingerprint
      ensures r != Ok(true) ==> jobs == old(jobs) && rows == old(rows)
    {
      if !CompletionStatus(kind, status) { return Err(()); }
      if id !in jobs || !OwnsJob(jobs[id], owner, now) { return Ok(false); }
      jobs := jobs[id := CompleteJob(jobs[id], status, fingerprint)];
      if kind.Java? && rows[id].fingerprint.Some? {
        rows := rows[id := rows[id].(fingerprint := Some(fingerprint))];
      }
      ReleaseInbox(id);
      return Ok(true);
    }

    /** _release_inbox: the row no longer waits for symbols, and nothing else about any row changes. */
    method ReleaseInbox(id: Id)
      requires Valid() && id in rows
      modifies this`rows
      ensures Valid()
      ensures rows == old(rows)[id := ReleaseRow(old(rows)[id])]
      ensures !rows[id].status.AwaitingSymbols? && (old(rows)[id].status.AwaitingSymbols? ==> rows[id].status.Pending?)
      ensures forall other <- rows :: other != id || !old(rows)[id].status.AwaitingSymbols? ==> rows[other] == old(rows)[other]
    {
      if rows[id].status.AwaitingSymbols? {
        rows := rows[id := rows[id].(status := Pending)];
      } else {
        assert rows == rows[id := rows[id]];
      }
    }

    method MarkSymbolizationFailed(owner: Token, id: Id, snapshot: nat, retryable: bool, maxAttempts: nat, now: int) returns (changed: bool)
      requires Valid()
      modifies this`rows, this`jobs
      ensures Valid()
      ensures changed <==> id in old(jobs) && OwnsJob(old(jobs)[id], owner, now)
      ensures changed ==>
                var retry := ShouldRetry(retryable, snapshot, maxAttempts);
                && jobs == old(jobs)[id := FailJob(old(jobs)[id], now, retry, snapshot)]
                && rows == (if retry then old(rows) else old(rows)[id := ReleaseRow(old(rows)[id])])
      ensures changed ==> JobSettled(old(jobs)[id], jobs[id], now, retryable, snapshot, maxAttempts)
      ensures !changed ==> jobs == old(jobs) && rows == old(rows)
    {
      changed := id in jobs && OwnsJob(jobs[id], owner, now);
      if changed {
        JobFailureSettles(jobs[id], now, retryable, snapshot, maxAttempts);
        var retry := ShouldRetry(retryable, snapshot, maxAttempts);
        jobs := jobs[id := FailJob(jobs[id], now, retry, snapshot)];
        if !retry { ReleaseInbox(id); }
      }
    }

    /** requeue_matching_missing_jobs: wake the parked jobs whose crash needs the new artifact, and no others. */
    method RequeueMatchingMissingJobs(a: ArtifactIdentity, now: int) returns (changed: nat)
      requires Valid()
      modifies this`jobs
      ensures Valid()
      ensures jobs == RequeuedJobs(old(jobs), WaitingFor(rows, old(jobs), a), now)
      ensures jobs.Keys == old(jobs).Keys && forall id <- jobs :: Wakes(rows[id], old(jobs)[id], jobs[id], a, now)
      ensures changed == |Moved(old(jobs), jobs)|
      ensures WaitingFor(rows, jobs, a) == {}
    {
      ghost var was := jobs;
      jobs, changed := UpdateRequeued(jobs, WaitingFor(rows, jobs, a), nextId, now);
      NoneLeftWaiting(rows, was, a, now);
      WokenJobs(rows, was, a, now);
    }

    /** enqueue_symbolization_jobs for the crash events of one batch; jobs that exist stay as they are. */
    method EnqueueSymbolizationJobs(tenant: string, events: seq<Submission>, enabled: bool, now: int) returns (waiting: nat)
      requires Valid()
      modifies this`rows, this`jobs, this`jobOrder
      ensures Valid() && old(jobOrder) <= jobOrder
      ensures jobs == EnqueuedJobs(old(rows), old(jobs), tenant, RelevantKinds(events), nextId, now, enabled)
      ensures rows == HeldRows(old(rows), old(jobs), jobs)
      ensures forall id <- old(rows) ::
                Enqueues(old(rows)[id], JobOf(old(jobs), id), rows[id], JobOf(jobs, id), tenant, events, enabled, now)
      ensures waiting == |NewlyQueued(old(jobs), jobs)|
    {
      var relevant := Relevant(events);
      EnqueuedKeys(rows, jobs, tenant, relevant, nextId, now, enabled);
      rows, jobs, jobOrder, waiting := EnqueueRows(rows, jobs, jobOrder, nextId, tenant, relevant, enabled, now);
      forall id <- old(rows) ensures Enqueues(old(rows)[id], JobOf(old(jobs), id), rows[id], JobOf(jobs, id), tenant, events, enabled, now) {
        EnqueuedRow(old(rows), old(jobs), tenant, events, nextId, now, enabled, id);
      }
    }

    /** The pruning half of maintain_once, with its per-tenant audit counts. */
    method MaintainOnce(keep: Retention, batch: nat, now: int, locked: set<Id>) returns (pruned: seq<Id>, perTenant: map<string, nat>)
      requires Valid()
      modifies this`rows, this`jobs
      ensures Valid()
      ensures FirstOf(PrunableRows(old(rows), old(jobs), now, keep, locked), batch, pruned)
      ensures rows == PrunedRows(old(rows), Ids(pruned), now)
      ensures jobs == PrunedJobs(old(jobs), Ids(pruned))
      ensures forall id <- pruned :: id in rows && id !in locked && Prunes(old(rows)[id], JobOf(old(jobs), id), rows[id], JobOf(jobs, id), now, keep)
      ensures forall id <- old(rows) :: RetentionOver(old(rows)[id], JobOf(old(jobs), id), now, keep) && id !in locked ==>
                id in pruned || |pruned| == batch
      ensures CountsTenants(old(rows), pruned, perTenant)
    {
      pruned := SelectFirst(PrunableRows(rows, jobs, now, keep, locked), nextId, batch);
      perTenant := map[];
      for i := 0 to |pruned|
        invariant rows == PrunedRows(old(rows), Ids(pruned[..i]), now)
        invariant jobs == PrunedJobs(old(jobs), Ids(pruned[..i]))
        invariant CountsTenants(old(rows), pruned[..i], perTenant)
      {
        var id := pruned[i];
        IdsSnoc(pruned, i);
        PruneOneMore(old(rows), old(jobs), Ids(pruned[..i]), id, now);
        CountOneMore(old(rows), pruned[..i], id, perTenant);
        var tenant := rows[id].stored.tenant;
        rows := rows[id := PruneRow(rows[id], now)];
        if id in jobs { jobs := jobs[id := jobs[id].(resultKept := false)]; }
        perTenant := perTenant[tenant := (if tenant in perTenant then perTenant[tenant] else 0) + 1];
      }
      assert pruned[..|pruned|] == pruned;
      forall id <- pruned ensures id in rows && id !in locked && Prunes(old(rows)[id], JobOf(old(jobs), id), rows[id], JobOf(jobs, id), now, keep) {
        PrunedRow(old(rows), old(jobs), Ids(pruned), id, now, keep);
      }
      forall id <- old(rows) | RetentionOver(old(rows)[id], JobOf(old(jobs), id), now, keep) && id !in locked
        ensures id in pruned || |pruned| == batch
      {
        PrunableIff(old(rows)[id], JobOf(old(jobs), id), now, keep);
        assert id in PrunableRows(old(rows), old(jobs), now, keep, locked);
      }
    }
  }
}
