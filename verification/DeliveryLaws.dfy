/**
 * What the statements mean for whoever calls them next: who may claim or write a row or job, and
 * from when on.  Statuses, columns and numbers are spelled out; none of the guards the statements
 * share is used to state them.
 */
module DeliveryLaws {
  import opened Prelude
  import opened Replay
  import opened Delivery

  // ----- claiming and writing -----

  /** A row can be claimed when it is due or its lease has run out, and never once its evidence is gone. */
  lemma RowClaimableIff(r: Row, now: int)
    ensures ClaimableRow(r, now) <==>
              && r.prunedAt == None
              && (r.status == Pending ==> r.nextAttemptAt <= now)
              && (r.status == Processing ==> r.lease != NoLease && r.lease.expiresAt <= now)
              && r.status != AwaitingSymbols && r.status != Delivered && r.status != DeadLetter
  {
  }

  lemma JobClaimableIff(j: Job, now: int)
    ensures ClaimableJob(j, now) <==>
              && (j.status == Queued || j.status == SymbolsMissing ==> j.nextAttemptAt <= now)
              && (j.status == Running ==> j.lease != NoLease && j.lease.expiresAt <= now)
              && j.status !in {Symbolized, PartiallySymbolized, MetadataMissing, Disabled, Failed}
  {
  }

  /** A write needs the row in processing, under this owner's unexpired lease. */
  lemma RowOwnedIff(r: Row, owner: Token, now: int)
    ensures OwnsRow(r, owner, now) <==> r.status == Processing && r.lease != NoLease && r.lease.owner == owner && now < r.lease.expiresAt
  {
  }

  lemma JobOwnedIff(j: Job, owner: Token, now: int)
    ensures OwnsJob(j, owner, now) <==> j.status == Running && j.lease != NoLease && j.lease.owner == owner && now < j.lease.expiresAt
  {
  }

  ghost predicate ClaimableFrom(r: Row, from: int) {
    forall t: int :: ClaimableRow(r, t) <==> from <= t
  }

  ghost predicate NeverClaimable(r: Row) {
    forall t: int :: !ClaimableRow(r, t)
  }

  ghost predicate JobClaimableFrom(j: Job, from: int) {
    forall t: int :: ClaimableJob(j, t) <==> from <= t
  }

  ghost predicate JobNeverClaimable(j: Job) {
    forall t: int :: !ClaimableJob(j, t)
  }

  /** The only writer of the row, until `until`. */
  ghost predicate OwnedUntil(r: Row, owner: Token, until: int) {
    forall o: Token, t: int :: OwnsRow(r, o, t) <==> o == owner && t < until
  }

  ghost predicate JobOwnedUntil(j: Job, owner: Token, until: int) {
    forall o: Token, t: int :: OwnsJob(j, o, t) <==> o == owner && t < until
  }

  ghost predicate Unowned(r: Row) {
    forall o: Token, t: int :: !OwnsRow(r, o, t)
  }

  ghost predicate JobUnowned(j: Job) {
    forall o: Token, t: int :: !OwnsJob(j, o, t)
  }

  /** A claim excludes every other worker until it expires, and from then on anyone may claim again. */
  lemma ClaimExcludes(r: Row, now: int, owner: Token, lease: nat)
    requires ClaimableRow(r, now)
    ensures var after := ClaimRow(r, owner, now + lease);
            && OwnedUntil(after, owner, now + lease) && ClaimableFrom(after, now + lease)
            && after.attempts == r.attempts + 1
            && after == r.(status := after.status, lease := after.lease, attempts := after.attempts)
  {
  }

  lemma JobClaimExcludes(j: Job, owner: Token, now: int, lease: nat)
    ensures var after := ClaimJob(j, owner, now + lease);
            && JobOwnedUntil(after, owner, now + lease) && JobClaimableFrom(after, now + lease)
            && after == j.(status := after.status, lease := after.lease)
  {
  }

  /** Delivery is final: nobody owns or may claim the row again, and it keeps the delivery time. */
  lemma DeliveryIsFinal(r: Row, now: int)
    ensures var after := DeliverRow(r, now);
            && after.status == Delivered && Unowned(after) && NeverClaimable(after)
            && after.deliveredAt == Some(now) && after.finalizedAt == Some(now)
            && after == r.(status := Delivered, lease := NoLease, deliveredAt := Some(now), finalizedAt := Some(now))
  {
  }

  const BACKOFF: seq<nat> := [1, 2, 4, 8, 16, 32, 64, 128, 256]

  /** Seconds before attempt number `attempts` is tried again: doubling, flat from the eighth on. */
  function Pause(attempts: nat): nat {
    BACKOFF[if attempts < 8 then attempts else 8]
  }

  /** The cap of 300 seconds never binds: the exponent is capped at 8 first. */
  lemma BackoffIsPause(attempts: nat)
    ensures Backoff(attempts) == Pause(attempts) <= 256
  {
    assert Pow2(2) == 4 && Pow2(3) == 8;
    assert Pow2(4) == 16 && Pow2(5) == 32;
    assert Pow2(6) == 64 && Pow2(7) == 128 && Pow2(8) == 256;
  }

  /** A non-zero Retry-After wins over the backoff. */
  function RetryPause(retryAfter: Option<nat>, attempts: nat): nat {
    match retryAfter
    case Some(s) => if s > 0 then s else Pause(attempts)
    case None => Pause(attempts)
  }

  /**
   * A failed row is tried again exactly from the promised time on while it is retryable and has
   * attempts left, and is otherwise a dead letter that nobody claims again.
   */
  ghost predicate Settled(before: Row, after: Row, now: int, retryable: bool, seen: nat, maxAttempts: nat, retryAfter: Option<nat>) {
    && Unowned(after)
    && after == before.(status := after.status, lease := NoLease, nextAttemptAt := after.nextAttemptAt, finalizedAt := after.finalizedAt)
    && if retryable && seen < maxAttempts
       then after.status == Pending && after.finalizedAt == None
            && (before.prunedAt == None ==> ClaimableFrom(after, now + RetryPause(retryAfter, seen)))
       else after.status == DeadLetter && after.finalizedAt == Some(now) && NeverClaimable(after)
  }

  lemma FailureSettles(r: Row, now: int, retryable: bool, seen: nat, maxAttempts: nat, retryAfter: Option<nat>)
    ensures Settled(r, FailRow(r, now, ShouldRetry(retryable, seen, maxAttempts), RowDelay(retryAfter, seen)),
                    now, retryable, seen, maxAttempts, retryAfter)
  {
    BackoffIsPause(seen);
  }

  /** The same for a job: retried after the backoff of its remembered attempts, or failed for good. */
  ghost predicate JobSettled(before: Job, after: Job, now: int, retryable: bool, seen: nat, maxAttempts: nat) {
    && JobUnowned(after)
    && after == before.(status := after.status, lease := NoLease, nextAttemptAt := after.nextAttemptAt)
    && if retryable && seen < maxAttempts
       then after.status == Queued && JobClaimableFrom(after, now + Pause(seen))
       else after.status == Failed && JobNeverClaimable(after)
  }

  lemma JobFailureSettles(j: Job, now: int, retryable: bool, seen: nat, maxAttempts: nat)
    ensures JobSettled(j, FailJob(j, now, ShouldRetry(retryable, seen, maxAttempts), seen), now, retryable, seen, maxAttempts)
  {
    BackoffIsPause(seen);
  }

  /** A parked job sleeps one minute; a woken one is due at once; both keep their attempts. */
  lemma ParkAndWake(j: Job, now: int)
    ensures var parked := ParkJob(j, now);
            && parked.status == SymbolsMissing && JobUnowned(parked) && JobClaimableFrom(parked, now + 60)
            && parked == j.(status := SymbolsMissing, lease := NoLease, nextAttemptAt := parked.nextAttemptAt)
    ensures var woken := RequeueJob(j, now);
            && woken.status == Queued && JobClaimableFrom(woken, now)
            && woken == j.(status := Queued, nextAttemptAt := woken.nextAttemptAt)
  {
  }

  /** An attempt is spent under the same claim: owner and expiry stay. */
  lemma StartKeepsClaim(j: Job, owner: Token, now: int, seen: nat, maxAttempts: nat)
    ensures MayStart(j, owner, now, seen, maxAttempts) <==>
              j.status == Running && j.lease != NoLease && j.lease.owner == owner && now < j.lease.expiresAt
              && j.attempts == seen < maxAttempts
    ensures StartAttempt(j).attempts == j.attempts + 1 && StartAttempt(j).(attempts := j.attempts) == j
  {
  }

  /** Only Java jobs complete in one way; native ones may be partial.  A completed job is never claimed again. */
  lemma CompletionIsFinal(j: Job, status: JobStatus, fingerprint: string)
    ensures CompletionStatus(j.kind, status) <==> status == Symbolized || (status == PartiallySymbolized && j.kind == Native)
    ensures CompletionStatus(j.kind, status) ==>
              var after := CompleteJob(j, status, fingerprint);
              && after.status == status && after.fingerprint == Some(fingerprint) && after.resultKept
              && JobUnowned(after) && JobNeverClaimable(after) && after.attempts == j.attempts && after.kind == j.kind
  {
  }

  /** Releasing a row is the only way out of waiting, and makes it due when it was. */
  lemma ReleaseMakesDue(r: Row, kind: JobKind, fingerprint: string)
    ensures var after := ReleaseRow(r);
            if r.status == AwaitingSymbols
            then after == r.(status := Pending) && (r.prunedAt == None ==> ClaimableFrom(after, r.nextAttemptAt))
            else after == r
    ensures var after := PublishFingerprint(r, kind, fingerprint);
            && after == r.(fingerprint := after.fingerprint)
            && after.fingerprint == (if kind == Java && r.fingerprint != None then Some(fingerprint) else r.fingerprint)
  {
  }

  // ----- capacity -----

  /** Rows below `n` that are still on their way: pending, in processing, or waiting for symbols. */
  function UnfinishedIds(rows: Rows, n: nat): set<Id> {
    set id | id in rows && id < n && rows[id].status in {Pending, Processing, AwaitingSymbols}
  }

  lemma UnfinishedOneMore(rows: Rows, n: nat)
    ensures |UnfinishedIds(rows, n + 1)|
            == |UnfinishedIds(rows, n)| + (if n in rows && rows[n].status in {Pending, Processing, AwaitingSymbols} then 1 else 0)
  {
    var counted := n in rows && rows[n].status in {Pending, Processing, AwaitingSymbols};
    assert UnfinishedIds(rows, n + 1) == UnfinishedIds(rows, n) + (if counted then {n} else {});
  }

  /** The live count is the number of unfinished rows: delivered and dead-letter rows are free. */
  lemma {:induction false} LiveRowsAreUnfinished(rows: Rows, n: nat)
    ensures LiveRows(rows, n) == |UnfinishedIds(rows, n)|
  {
    if n == 0 {
      assert UnfinishedIds(rows, 0) == {};
    } else {
      LiveRowsAreUnfinished(rows, n - 1);
      UnfinishedOneMore(rows, n - 1);
    }
  }

  /** Raw bytes are counted row by row until a row is pruned, whatever its status. */
  lemma {:induction false} RawBytesOfOneMore(rows: Rows, id: Id, r: Row, n: nat)
    requires id !in rows && id < n
    ensures RawBytes(rows[id := r], n) == RawBytes(rows, n) + (if r.prunedAt == None then r.payloadBytes else 0)
    ensures RawBytes(map[], n) == 0
  {
    if n - 1 == id {
      RawBytesBelow(rows, id, r, id);
    } else {
      RawBytesOfOneMore(rows, id, r, n - 1);
    }
    NoBytes(n);
  }

  lemma {:induction false} RawBytesBelow(rows: Rows, id: Id, r: Row, n: nat)
    requires n <= id
    ensures RawBytes(rows[id := r], n) == RawBytes(rows, n)
  {
    if n > 0 { RawBytesBelow(rows, id, r, n - 1); }
  }

  lemma {:induction false} NoBytes(n: nat)
    ensures RawBytes(map[], n) == 0
  {
    if n > 0 { NoBytes(n - 1); }
  }

  /** Every row that a statement finishes lowers the live count by one; untouched rows count as before. */
  lemma FinishingFreesCapacity(before: Rows, after: Rows, n: nat, finished: set<Id>)
    requires after.Keys == before.Keys && finished <= UnfinishedIds(before, n)
    requires forall id <- finished :: after[id].status in {Delivered, DeadLetter}
    requires forall id <- before :: id in finished || (after[id].status in {Pending, Processing, AwaitingSymbols} <==>
                                                       before[id].status in {Pending, Processing, AwaitingSymbols})
    ensures LiveRows(after, n) == LiveRows(before, n) - |finished|
  {
    LiveRowsAreUnfinished(before, n);
    LiveRowsAreUnfinished(after, n);
    assert UnfinishedIds(after, n) == UnfinishedIds(before, n) - finished;
    assert UnfinishedIds(before, n) == UnfinishedIds(after, n) + finished;
  }

  // ----- retention -----

  /** Evidence whose time is over: a final row, its job finished, the period of its own status past. */
  predicate RetentionOver(r: Row, job: Option<Job>, now: int, keep: Retention) {
    && r.prunedAt == None
    && (job == None || job.value.status in {Symbolized, PartiallySymbolized, MetadataMissing, Disabled, Failed})
    && match r.status
       case Delivered => EndedAt(r) + keep.deliveredSeconds <= now
       case DeadLetter => EndedAt(r) + keep.deadLetterSeconds <= now
       case _ => false
  }

  /** When the row was finalized; rows of older versions have only a delivery or a last attempt time. */
  function EndedAt(r: Row): int {
    match (r.finalizedAt, r.deliveredAt)
    case (Some(t), _) => t
    case (None, Some(t)) => t
    case (None, None) => r.nextAttemptAt
  }

  lemma PrunableIff(r: Row, job: Option<Job>, now: int, keep: Retention)
    ensures PrunableRow(r, job, now, keep) <==> RetentionOver(r, job, now, keep)
  {
  }

  /** Pruning drops the evidence and keeps scope, identity, fingerprints, status and times. */
  lemma PruningDropsEvidence(r: Row, now: int)
    ensures var after := PruneRow(r, now);
            && after.prunedAt == Some(now) && after.payloadBytes == 0 && after.stack == "" && after.frames == []
            && after == r.(prunedAt := Some(now), payloadBytes := 0, stack := "", frames := [])
  {
  }

  // ----- what an accepted event becomes -----

  /** Eight to 128 lower-case hexadecimal digits. */
  predicate HexId(s: string) {
    8 <= |s| <= 128 && forall c :: c in s ==> ('0' <= c <= '9') || ('a' <= c <= 'f')
  }

  lemma BuildIdIff(s: string)
    ensures IsBuildId(s) <==> HexId(s)
  {
    if HexId(s) {
      forall i | 0 <= i < |s| ensures '0' <= s[i] <= '9' || 'a' <= s[i] <= 'f' { assert s[i] in s; }
    }
  }

  /** A build identity is spelled out at occurrence. */
  predicate Spelled(r: Row) {
    && r.stored.releaseQuality == OCCURRENCE_BOUND
    && r.stored.release.versionCode != None && r.stored.release.versionCode.value != ""
    && r.stored.release.appBuild != None && r.stored.release.appBuild.value != ""
    && r.stored.release.variant != None && r.stored.release.variant.value != ""
  }

  /** The crash can be matched with an artifact. */
  predicate Matchable(r: Row, kind: JobKind) {
    && r.stack != "" && Spelled(r)
    && (kind == Native ==>
          r.frames != [] && r.frames[0].abi in {"arm64-v8a", "armeabi-v7a", "x86_64", "x86"} && HexId(Lower(r.frames[0].buildId)))
  }

  lemma SymbolIdentityIff(r: Row, kind: JobKind)
    ensures HasSymbolIdentity(r, kind) <==> Matchable(r, kind)
  {
    if kind == Native && r.frames != [] {
      BuildIdIff(Lower(r.frames[0].buildId));
      assert SUPPORTED_ABIS == {"arm64-v8a", "armeabi-v7a", "x86_64", "x86"};
    }
  }

  /**
   * A new row is due at once and unowned, with the accepted content; a crash gets a job, which holds
   * the row back exactly when symbolization is on and the crash can be matched with an artifact.
   */
  lemma AcceptedBecomes(p: Prepared, now: int, enabled: bool)
    ensures var content := p.submission.content;
            var r := NewRow(p, now);
            && r.stored == p.stored && r.attempts == 0 && Unowned(r) && ClaimableFrom(r, now)
            && r.stack == content.stack && r.frames == content.frames && r.payloadBytes == content.sizeBytes
            && r.rawFingerprint == r.fingerprint == content.rawFingerprint
            && r.deliveredAt == None && r.finalizedAt == None && r.prunedAt == None
            && r.kind == (if content.moduleName != "crash" then None
                          else if content.eventName == "java_crash" then Some(Java)
                          else if content.eventName in {"native_crash", "tombstone_crash"} then Some(Native) else None)
    ensures var r := NewRow(p, now);
            r.kind != None ==>
              var job := NewJob(r, now, enabled);
              var held := HoldForSymbols(r, job);
              && job.kind == r.kind.value && job.attempts == 0 && JobUnowned(job) && job.fingerprint == None && !job.resultKept
              && if !enabled then job.status == Disabled && held == r
                 else if Matchable(r, job.kind) then job.status == Queued && JobClaimableFrom(job, now) && held == r.(status := AwaitingSymbols)
                 else job.status == MetadataMissing && held == r
  {
    var r := NewRow(p, now);
    if r.kind.Some? { SymbolIdentityIff(r, r.kind.value); }
  }

  /** The crash of this row needs just this artifact: same tenant, app, build and kind, and one of its modules. */
  ghost predicate Needs(r: Row, kind: JobKind, a: ArtifactIdentity) {
    && a.kind == kind && r.stored.tenant == a.tenant && r.stored.appId == a.appId
    && r.stored.release.versionCode == Some(a.versionCode)
    && r.stored.release.appBuild == Some(a.appBuild)
    && r.stored.release.variant == Some(a.variant)
    && (kind == Java ==>
          && r.stored.releaseQuality == OCCURRENCE_BOUND && a.versionCode != "" && a.appBuild != "" && a.variant != ""
          && a.abi == "" && a.buildId == "")
    && (kind == Native ==> exists f :: f in r.frames && f.abi == a.abi && Lower(f.buildId) == a.buildId)
  }

  lemma WaitsForIff(r: Row, kind: JobKind, a: ArtifactIdentity)
    ensures WaitsFor(r, kind, a) <==> Needs(r, kind, a)
  {
    if f :| f in r.frames && f.abi == a.abi && Lower(f.buildId) == a.buildId {
      var i :| 0 <= i < |r.frames| && r.frames[i] == f;
    }
  }

  /** Only a pending row is held back, and only by a job that is queued. */
  lemma HoldsOnlyPending(r: Row, job: Job)
    ensures HoldForSymbols(r, job) == if job.status == Queued && r.status == Pending then r.(status := AwaitingSymbols) else r
  {
  }

  /** An owner is the worker's name, cut to fit the column, and the claim's token. */
  lemma OwnerNamesWorker(worker: string, token: string)
    requires |token| == TOKEN_LENGTH
    ensures TOKEN_LENGTH == 32
    ensures |NewLeaseOwner(worker, token)| <= 128
    ensures exists k: nat :: k <= |worker| && (k == |worker| || k == 95) && NewLeaseOwner(worker, token) == worker[..k] + ":" + token
  {
    var k := if |worker| <= 95 then |worker| else 95;
    assert worker[..k] + ":" + token == NewLeaseOwner(worker, token);
  }
}
