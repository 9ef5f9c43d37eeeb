/**
 * Inbox rows, symbolization jobs, and the guarded statements that workers run on one of them.
 * A job is known by the id of its inbox row (the column is unique).  Times are whole seconds.
 */
module Delivery {
  import opened Prelude
  import opened Replay

  type Id = nat
  type Token = string

  const MAX_LEASE_OWNER_LENGTH: nat := 128
  const MAX_BACKOFF_SECONDS: nat := 300
  const SYMBOL_ARTIFACT_RECHECK_SECONDS: nat := 60
  const TOKEN_LENGTH: nat := 32

  /** lease_owner and lease_expires_at, which every statement sets or clears together. */
  datatype Lease = NoLease | Lease(owner: Token, expiresAt: int)

  datatype RowStatus = Pending | Processing | AwaitingSymbols | Delivered | DeadLetter

  /** pending is Queued, processing is Running. */
  datatype JobStatus =
    Queued | Running | SymbolsMissing | Symbolized | PartiallySymbolized | MetadataMissing | Disabled | Failed

  datatype Row = Row(
    stored: StoredIdentity, kind: Option<JobKind>, stack: string, frames: seq<FrameIdentity>,
    rawFingerprint: Option<string>, fingerprint: Option<string>,
    status: RowStatus, attempts: nat, nextAttemptAt: int, lease: Lease,
    deliveredAt: Option<int>, finalizedAt: Option<int>, prunedAt: Option<int>, payloadBytes: nat)

  datatype Job = Job(
    kind: JobKind, status: JobStatus, attempts: nat, nextAttemptAt: int, lease: Lease,
    fingerprint: Option<string>, resultKept: bool)

  /** Counts returned by one whole-batch insert. */
  datatype InsertResult = InsertResult(received: nat, inserted: nat, duplicates: int)

  datatype Retention = Retention(deliveredSeconds: nat, deadLetterSeconds: nat)

  // ----- lease tokens -----

  function NewLeaseOwner(worker: string, token: string): Token
    requires |token| == TOKEN_LENGTH
  {
    var room := MAX_LEASE_OWNER_LENGTH - TOKEN_LENGTH - 1;
    (if |worker| <= room then worker else worker[..room]) + ":" + token
  }

  /** Distinct claim tokens give distinct owners, whatever the workers are called. */
  lemma OwnersAreDistinct(w1: string, t1: string, w2: string, t2: string)
    requires |t1| == TOKEN_LENGTH && |t2| == TOKEN_LENGTH && t1 != t2
    ensures NewLeaseOwner(w1, t1) != NewLeaseOwner(w2, t2)
    ensures |NewLeaseOwner(w1, t1)| <= MAX_LEASE_OWNER_LENGTH
  {
    var a, b := NewLeaseOwner(w1, t1), NewLeaseOwner(w2, t2);
    assert a[|a| - TOKEN_LENGTH..] == t1;
    assert b[|b| - TOKEN_LENGTH..] == t2;
  }

  // ----- inbox rows -----

  predicate Terminal(status: RowStatus) {
    status.Delivered? || status.DeadLetter?
  }

  predicate Live(r: Row) {
    r.status.Pending? || r.status.Processing? || r.status.AwaitingSymbols?
  }

  function NewRow(p: Prepared, now: int): Row {
    var content := p.submission.content;
    Row(p.stored, KindOf(content), content.stack, content.frames, content.rawFingerprint, content.rawFingerprint,
        Pending, 0, now, NoLease, None, None, None, content.sizeBytes)
  }

  predicate ClaimableRow(r: Row, now: int) {
    && r.prunedAt.None?
    && (|| (r.status.Pending? && r.nextAttemptAt <= now)
        || (r.status.Processing? && r.lease.Lease? && r.lease.expiresAt <= now))
  }

  function ClaimRow(r: Row, owner: Token, expiresAt: int): Row {
    r.(status := Processing, lease := Lease(owner, expiresAt), attempts := r.attempts + 1)
  }

  /** The WHERE clause of every completion and failure write. */
  predicate OwnsRow(r: Row, owner: Token, now: int) {
    r.status.Processing? && r.lease.Lease? && r.lease.owner == owner && r.lease.expiresAt > now
  }

  function DeliverRow(r: Row, now: int): Row {
    r.(status := Delivered, deliveredAt := Some(now), finalizedAt := Some(now), lease := NoLease)
  }

  function Pow2(n: nat): nat {
    if n == 0 then 1 else 2 * Pow2(n - 1)
  }

  function Backoff(attempts: nat): nat {
    Min(Pow2(Min(attempts, 8)), MAX_BACKOFF_SECONDS)
  }

  predicate ShouldRetry(retryable: bool, attempts: nat, maxAttempts: nat) {
    retryable && attempts < maxAttempts
  }

  /** A zero Retry-After counts as none. */
  function RowDelay(retryAfter: Option<nat>, attempts: nat): nat {
    if retryAfter.Some? && retryAfter.value != 0 then retryAfter.value else Backoff(attempts)
  }

  function FailRow(r: Row, now: int, retry: bool, delay: nat): Row {
    r.(status := if retry then Pending else DeadLetter,
       finalizedAt := if retry then None else Some(now),
       nextAttemptAt := now + delay,
       lease := NoLease)
  }

  function TerminalTime(r: Row): int {
    if r.finalizedAt.Some? then r.finalizedAt.value
    else if r.deliveredAt.Some? then r.deliveredAt.value
    else r.nextAttemptAt
  }

  predicate PrunableRow(r: Row, job: Option<Job>, now: int, keep: Retention) {
    && r.prunedAt.None?
    && !(job.Some? && Unfinished(job.value.status))
    && (|| (r.status.Delivered? && TerminalTime(r) <= now - keep.deliveredSeconds)
        || (r.status.DeadLetter? && TerminalTime(r) <= now - keep.deadLetterSeconds))
  }

  function PruneRow(r: Row, now: int): Row {
    r.(prunedAt := Some(now), payloadBytes := 0, stack := "", frames := [])
  }

  // ----- symbolization jobs -----

  predicate Unfinished(status: JobStatus) {
    status.Queued? || status.Running? || status.SymbolsMissing?
  }

  const SUPPORTED_ABIS: set<string> := {"arm64-v8a", "armeabi-v7a", "x86_64", "x86"}

  /** 8 to 128 lower-case hexadecimal digits. */
  predicate IsBuildId(s: string) {
    8 <= |s| <= 128 && forall i :: 0 <= i < |s| ==> '0' <= s[i] <= '9' || 'a' <= s[i] <= 'f'
  }

  predicate Filled(v: Option<string>) {
    v.Some? && v.value != ""
  }

  /** A release identity frozen at occurrence, with every part an exact lookup needs. */
  predicate HasExactRelease(r: Row) {
    && r.stored.releaseQuality.OCCURRENCE_BOUND?
    && Filled(r.stored.release.versionCode) && Filled(r.stored.release.appBuild) && Filled(r.stored.release.variant)
  }

  /** The complete identity a crash needs before its export may wait for symbols. */
  predicate HasSymbolIdentity(r: Row, kind: JobKind) {
    && r.stack != "" && HasExactRelease(r)
    && (kind.Java? || (r.frames != [] && r.frames[0].abi in SUPPORTED_ABIS && IsBuildId(Lower(r.frames[0].buildId))))
  }

  /** The exact build identity a symbol artifact is registered under; Java mappings have no module. */
  datatype ArtifactIdentity = ArtifactIdentity(
    kind: JobKind, tenant: string, appId: string, versionCode: string, appBuild: string, variant: string,
    abi: string, buildId: string)

  predicate SameBuild(r: Row, a: ArtifactIdentity) {
    && r.stored.tenant == a.tenant && r.stored.appId == a.appId
    && r.stored.release.versionCode == Some(a.versionCode)
    && r.stored.release.appBuild == Some(a.appBuild)
    && r.stored.release.variant == Some(a.variant)
  }

  /** Whether a newly registered artifact is one that the crash waits for. */
  predicate WaitsFor(r: Row, kind: JobKind, a: ArtifactIdentity) {
    && kind == a.kind && SameBuild(r, a)
    && if kind.Java? then HasExactRelease(r) && a.abi == "" && a.buildId == ""
       else exists i :: 0 <= i < |r.frames| && r.frames[i].abi == a.abi && Lower(r.frames[i].buildId) == a.buildId
  }

  /** The identity a crash looks its (first) artifact up under. */
  function LookupIdentity(r: Row, kind: JobKind): ArtifactIdentity
    requires HasSymbolIdentity(r, kind)
  {
    var release := r.stored.release;
    ArtifactIdentity(kind, r.stored.tenant, r.stored.appId, release.versionCode.value, release.appBuild.value, release.variant.value,
                     if kind.Java? then "" else r.frames[0].abi, if kind.Java? then "" else Lower(r.frames[0].buildId))
  }

  /**
   * Registering the artifact a crash looks up wakes it.  A Java crash is woken by nothing else; a
   * native one exactly by an artifact of its build for one of its frames' modules.
   */
  lemma WokenByWhatItNeeds(r: Row, kind: JobKind, a: ArtifactIdentity)
    requires HasSymbolIdentity(r, kind)
    ensures WaitsFor(r, kind, LookupIdentity(r, kind))
    ensures kind.Java? ==> (WaitsFor(r, kind, a) <==> a == LookupIdentity(r, kind))
    ensures kind.Native? ==>
              (WaitsFor(r, kind, a) <==>
                 exists i :: 0 <= i < |r.frames| && a == LookupIdentity(r, kind).(abi := r.frames[i].abi, buildId := Lower(r.frames[i].buildId)))
  {
  }

  function NewJob(r: Row, now: int, enabled: bool): Job
    requires r.kind.Some?
  {
    var status := if !enabled then Disabled else if HasSymbolIdentity(r, r.kind.value) then Queued else MetadataMissing;
    Job(r.kind.value, status, 0, now, NoLease, None, false)
  }

  /** The row of a job that was just enqueued: only a waiting job holds a pending row back. */
  function HoldForSymbols(r: Row, job: Job): Row {
    if job.status.Queued? && r.status.Pending? then r.(status := AwaitingSymbols) else r
  }

  predicate ClaimableJob(j: Job, now: int) {
    || (j.status.Queued? && j.nextAttemptAt <= now)
    || (j.status.Running? && j.lease.Lease? && j.lease.expiresAt <= now)
    || (j.status.SymbolsMissing? && j.nextAttemptAt <= now)
  }

  function ClaimJob(j: Job, owner: Token, expiresAt: int): Job {
    j.(status := Running, lease := Lease(owner, expiresAt))
  }

  predicate OwnsJob(j: Job, owner: Token, now: int) {
    j.status.Running? && j.lease.Lease? && j.lease.owner == owner && j.lease.expiresAt > now
  }

  predicate MayStart(j: Job, owner: Token, now: int, snapshot: nat, maxAttempts: nat) {
    OwnsJob(j, owner, now) && j.attempts == snapshot && j.attempts < maxAttempts
  }

  function StartAttempt(j: Job): Job {
    j.(attempts := j.attempts + 1)
  }

  function ParkJob(j: Job, now: int): Job {
    j.(status := SymbolsMissing, nextAttemptAt := now + SYMBOL_ARTIFACT_RECHECK_SECONDS, lease := NoLease)
  }

  /** mark_symbolized raises on any other completion. */
  predicate CompletionStatus(kind: JobKind, status: JobStatus) {
    status.Symbolized? || (status.PartiallySymbolized? && kind.Native?)
  }

  function CompleteJob(j: Job, status: JobStatus, fingerprint: string): Job {
    j.(status := status, fingerprint := Some(fingerprint), resultKept := true, lease := NoLease)
  }

  function PublishFingerprint(r: Row, kind: JobKind, fingerprint: string): Row {
    if kind.Java? && r.fingerprint.Some? then r.(fingerprint := Some(fingerprint)) else r
  }

  function ReleaseRow(r: Row): Row {
    if r.status.AwaitingSymbols? then r.(status := Pending) else r
  }

  function FailJob(j: Job, now: int, retry: bool, attempts: nat): Job {
    j.(status := if retry then Queued else Failed, nextAttemptAt := now + Backoff(attempts), lease := NoLease)
  }

  function RequeueJob(j: Job, now: int): Job {
    j.(status := Queued, nextAttemptAt := now)
  }

  // ----- the two tables -----

  type Rows = map<Id, Row>
  type Jobs = map<Id, Job>

  function JobOf(jobs: Jobs, id: Id): Option<Job> {
    if id in jobs then Some(jobs[id]) else None
  }

  function StoredEventIds(rows: Rows, tenant: string): set<string> {
    set id | id in rows && rows[id].stored.tenant == tenant :: rows[id].stored.eventId
  }

  /** Every stored event of the batch has the submitted identity. */
  predicate RowsMatch(c: Crypto, ring: Option<KeyRing>, meta: Meta, rows: Rows, m: map<string, Prepared>) {
    forall id <- rows :: rows[id].stored.tenant == meta.tenant && rows[id].stored.eventId in m ==>
      Matches(c, ring, meta, m[rows[id].stored.eventId].submission, rows[id].stored)
  }

  /** Live rows with an id below n. */
  function LiveRows(rows: Rows, n: nat): nat {
    if n == 0 then 0 else LiveRows(rows, n - 1) + (if n - 1 in rows && Live(rows[n - 1]) then 1 else 0)
  }

  function BytesOf(r: Row): nat {
    if r.prunedAt.None? then r.payloadBytes else 0
  }

  /** Unpruned raw bytes of the rows with an id below n. */
  function RawBytes(rows: Rows, n: nat): nat {
    if n == 0 then 0 else RawBytes(rows, n - 1) + (if n - 1 in rows then BytesOf(rows[n - 1]) else 0)
  }
}
