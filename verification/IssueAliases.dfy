/**
 * Issue identities and their raw aliases: the migration that introduced them and the lookup of old links.
 */
module IssueAliases {
  import opened Prelude
  import opened Replay
  import opened Delivery
  import opened DeliveryRuns
  import DeliveryTheorems
  import F = Facts
  import W = WindowFacts

  // ----- migration 0007 -----

  type Column = map<Id, Option<string>>

  /** What the migration makes of the fingerprint column: completed Java jobs supply the current identity. */
  function UpgradedColumn(raw: Column, jobs: Jobs): Column {
    map id | id in raw :: CurrentFingerprint(raw[id], JobOf(jobs, id))
  }

  /** What may happen to rows and jobs while either version of the server runs. */
  datatype Change =
    | NewEvent(id: Id, accepted: Option<string>, queued: Option<Job>)
    | Enqueue(id: Id, job: Job)
    | Finish(id: Id, status: JobStatus, fingerprint: string)
    | Move(id: Id, job: Job)
    | Expire(id: Id)

  predicate Done(job: Job) {
    job.status.Symbolized? || job.status.PartiallySymbolized?
  }

  /** The change is one the server makes: new ids, new or unfinished jobs, completions of the job's kind, expired results. */
  predicate Applies(change: Change, original: Column, jobs: Jobs) {
    match change
    case NewEvent(id, _, job) => id !in original && id !in jobs && (job.Some? ==> !Done(job.value))
    case Enqueue(id, job) => id in original && id !in jobs && !Done(job)
    case Finish(id, status, _) => id in original && id in jobs && !Done(jobs[id]) && CompletionStatus(jobs[id].kind, status)
    case Move(id, job) => id in original && id in jobs && !Done(jobs[id]) && !Done(job) && job.kind == jobs[id].kind
    case Expire(id) => id in original && id in jobs
  }

  function JobsAfter(change: Change, original: Column, jobs: Jobs): Jobs
    requires Applies(change, original, jobs)
  {
    match change
    case NewEvent(id, _, job) => if job.Some? then jobs[id := job.value] else jobs
    case Enqueue(id, job) => jobs[id := job]
    case Finish(id, status, fingerprint) => jobs[id := CompleteJob(jobs[id], status, fingerprint)]
    case Move(id, job) => jobs[id := job]
    case Expire(id) => jobs[id := jobs[id].(resultKept := false)]
  }

  lemma NewEventColumn(raw: Column, jobs: Jobs, id: Id, fingerprint: Option<string>, job: Option<Job>)
    requires id !in raw && id !in jobs && (job.Some? ==> !Done(job.value))
    ensures UpgradedColumn(raw[id := fingerprint], if job.Some? then jobs[id := job.value] else jobs)
            == UpgradedColumn(raw, jobs)[id := fingerprint]
  {
  }

  lemma EnqueuedColumn(raw: Column, jobs: Jobs, id: Id, job: Job)
    requires id in raw && id !in jobs && !Done(job)
    ensures UpgradedColumn(raw, jobs[id := job]) == UpgradedColumn(raw, jobs)
  {
  }

  lemma ExpiredColumn(raw: Column, jobs: Jobs, id: Id)
    requires id in raw && id in jobs
    ensures UpgradedColumn(raw, jobs[id := jobs[id].(resultKept := false)]) == UpgradedColumn(raw, jobs)
  {
  }

  lemma MovedColumn(raw: Column, jobs: Jobs, id: Id, job: Job)
    requires id in raw && id in jobs && !Done(jobs[id]) && !Done(job)
    ensures UpgradedColumn(raw, jobs[id := job]) == UpgradedColumn(raw, jobs)
  {
  }

  /** Publishing a result with its job is what the migration would have made of that job. */
  lemma FinishedColumn(raw: Column, jobs: Jobs, id: Id, status: JobStatus, fingerprint: string)
    requires id in raw && id in jobs && !Done(jobs[id]) && CompletionStatus(jobs[id].kind, status)
    ensures var before := UpgradedColumn(raw, jobs);
            UpgradedColumn(raw, jobs[id := CompleteJob(jobs[id], status, fingerprint)])
            == if jobs[id].kind.Java? && before[id].Some? then before[id := Some(fingerprint)] else before
  {
  }

  lemma UpgradeOneMore(raw: Column, jobs: Jobs, done: set<Id>, id: Id)
    requires id in raw && id !in done
    ensures var before := PartlyUpgraded(raw, jobs, done);
            && before[id] == raw[id]
            && PartlyUpgraded(raw, jobs, done + {id})
               == if raw[id].Some? && Canonical(JobOf(jobs, id)).Some? then before[id := Canonical(JobOf(jobs, id))] else before
  {
  }

  function PartlyUpgraded(raw: Column, jobs: Jobs, done: set<Id>): Column {
    map id | id in raw :: if id in done then CurrentFingerprint(raw[id], JobOf(jobs, id)) else raw[id]
  }

  /** What the upgrade makes of one identity: a symbolized Java job with a result replaces it, unless it is null. */
  predicate Upgraded(before: Option<string>, job: Option<Job>, after: Option<string>) {
    if before != None && job != None && job.value.kind == Java && job.value.status == Symbolized && job.value.fingerprint != None
    then after == job.value.fingerprint
    else after == before
  }

  /**
   * The fingerprint columns of inbox_events with the job table beside them.  The raw column exists
   * between upgrade and downgrade; `original` is what each event was accepted with.
   */
  class FingerprintColumns {
    var jobs: Jobs
    var current: Column
    var raw: Option<Column>
    ghost var original: Column

    ghost predicate Valid()
      reads this
    {
      if raw.None? then current == original
      else raw.value == original && current == UpgradedColumn(original, jobs)
    }

    constructor (table: Jobs, column: Column)
      ensures Valid() && jobs == table && current == column && original == column && raw == None
    {
      jobs := table;
      current := column;
      raw := None;
      original := column;
    }

    /** Preserve the raw aliases, then apply the results of completed jobs row by row. */
    method Upgrade()
      requires Valid() && raw.None?
      modifies this`current, this`raw
      ensures Valid() && raw == Some(old(current)) && current.Keys == old(current).Keys
      ensures forall id <- current :: Upgraded(old(current)[id], JobOf(jobs, id), current[id])
    {
      ghost var was := current;
      raw := Some(current);
      var todo := current.Keys;
      while todo != {}
        invariant todo <= was.Keys && raw == Some(was)
        invariant current == PartlyUpgraded(was, jobs, was.Keys - todo)
        decreases todo
      {
        var id :| id in todo;
        UpgradeOneMore(was, jobs, was.Keys - todo, id);
        assert was.Keys - (todo - {id}) == was.Keys - todo + {id};
        if current[id].Some? && Canonical(JobOf(jobs, id)).Some? {
          current := current[id := Canonical(JobOf(jobs, id))];
        }
        todo := todo - {id};
      }
      assert PartlyUpgraded(was, jobs, was.Keys) == UpgradedColumn(was, jobs);
    }

    /** Restore the original identities row by row and drop the alias column. */
    method Downgrade()
      requires Valid() && raw.Some?
      modifies this`current, this`raw
      ensures Valid() && raw == None && current == original
    {
      var todo := current.Keys;
      while todo != {}
        invariant current.Keys == original.Keys && todo <= current.Keys && raw == Some(original)
        invariant forall id <- current :: id in todo || current[id] == original[id]
        decreases todo
      {
        var id :| id in todo;
        current := current[id := raw.value[id]];
        todo := todo - {id};
      }
      raw := None;
    }

    /** One step of the running server; only the upgraded one publishes a finished Java job's identity. */
    method Change(change: Change)
      requires Valid() && Applies(change, original, jobs)
      modifies this
      ensures Valid() && raw.Some? == old(raw).Some?
      ensures jobs == JobsAfter(change, old(original), old(jobs))
      ensures original == if change.NewEvent? then old(original)[change.id := change.accepted] else old(original)
    {
      match change
      case NewEvent(id, fingerprint, job) =>
        NewEventColumn(original, jobs, id, fingerprint, job);
        current := current[id := fingerprint];
        original := original[id := fingerprint];
        if raw.Some? { raw := Some(raw.value[id := fingerprint]); }
        if job.Some? { jobs := jobs[id := job.value]; }
      case Finish(id, status, fingerprint) =>
        FinishedColumn(original, jobs, id, status, fingerprint);
        if raw.Some? && jobs[id].kind.Java? && current[id].Some? { current := current[id := Some(fingerprint)]; }
        jobs := jobs[id := CompleteJob(jobs[id], status, fingerprint)];
      case Enqueue(id, job) =>
        EnqueuedColumn(original, jobs, id, job);
        jobs := jobs[id := job];
      case Move(id, job) =>
        MovedColumn(original, jobs, id, job);
        jobs := jobs[id := job];
      case Expire(id) =>
        ExpiredColumn(original, jobs, id);
        jobs := jobs[id := jobs[id].(resultKept := false)];
    }

    /** Up, any work of the server, and down again: every identity is the one its event was accepted with. */
    method UpWorkDown(changes: seq<Change>) returns (applied: nat)
      requires Valid() && raw.None?
      modifies this
      ensures Valid() && raw == None && current == original
      ensures forall id <- old(current) :: id in current && current[id] == old(current)[id]
    {
      ghost var was := current;
      applied := 0;
      Upgrade();
      for i := 0 to |changes|
        invariant Valid() && raw.Some?
        invariant forall id <- was :: id in original && original[id] == was[id]
      {
        if Applies(changes[i], raw.value, jobs) {
          Change(changes[i]);
          applied := applied + 1;
        }
      }
      Downgrade();
    }
  }

  function RawColumn(rows: Rows): Column {
    map id | id in rows :: rows[id].rawFingerprint
  }

  function FingerprintColumn(rows: Rows): Column {
    map id | id in rows :: rows[id].fingerprint
  }

  /**
   * After any run of the delivery protocol the fingerprint column is what the migration computes from the
   * raw column and the jobs, and the raw column is what a downgrade restores: the accepted fingerprints.
   */
  lemma RunsAgreeWithMigration(c: Crypto, cfg: Config, s: Sys)
    requires DeliveryTheorems.Reachable(c, cfg, s)
    ensures FingerprintColumn(RowsOf(s.cells)) == UpgradedColumn(RawColumn(RowsOf(s.cells)), JobsOf(s.cells))
    ensures RawColumn(RowsOf(s.cells)) == map id | id in s.cells :: s.cells[id].accepted.content.rawFingerprint
  {
    var rows, jobs := RowsOf(s.cells), JobsOf(s.cells);
    forall id <- s.cells
      ensures id in rows && JobOf(jobs, id) == s.cells[id].job
      ensures rows[id].fingerprint == CurrentFingerprint(rows[id].rawFingerprint, JobOf(jobs, id))
      ensures rows[id].rawFingerprint == s.cells[id].accepted.content.rawFingerprint
    {
      DeliveryTheorems.FingerprintIsCurrent(c, cfg, s, id);
    }
  }

  /** The job of this id after the change. */
  ghost predicate Explains(change: Change, original: Column, jobs: Jobs, id: Id, after: Option<Job>) {
    change.id == id && Applies(change, original, jobs) && JobOf(JobsAfter(change, original, jobs), id) == after
  }

  lemma CellChanges(cfg: Config, s: Sys, a: Action, id: Id)
    requires id in s.cells && ClaimsNow(s, a)
    ensures var after := StepCell(cfg, s.now, a, id, s.cells[id]).job;
            after == s.cells[id].job
            || exists change :: Explains(change, RawColumn(RowsOf(s.cells)), JobsOf(s.cells), id, after)
  {
    var original, jobs := RawColumn(RowsOf(s.cells)), JobsOf(s.cells);
    var after := StepCell(cfg, s.now, a, id, s.cells[id]).job;
    if after != s.cells[id].job {
      var change := if a.Complete? then Finish(id, a.status, a.fingerprint)
                    else if after.Some? && !a.Prune? then Move(id, after.value)
                    else Expire(id);
      assert Explains(change, original, jobs, id, after);
    }
  }

  lemma IngestChanges(s: Sys, meta: Meta, m: map<string, Prepared>, alloc: map<Id, string>, at: int, enabled: bool, id: Id)
    requires (forall i <- alloc :: alloc[i] in m) && id in Ingested(s.cells, meta, m, alloc, at, enabled)
    ensures var after := Ingested(s.cells, meta, m, alloc, at, enabled)[id].job;
            JobOf(JobsOf(s.cells), id) == after
            || exists change :: Explains(change, RawColumn(RowsOf(s.cells)), JobsOf(s.cells), id, after)
  {
    var original, jobs := RawColumn(RowsOf(s.cells)), JobsOf(s.cells);
    var after := Ingested(s.cells, meta, m, alloc, at, enabled)[id].job;
    if JobOf(jobs, id) != after && after.Some? {
      var change := if id in s.cells then Enqueue(id, after.value) else NewEvent(id, None, after);
      assert Explains(change, original, jobs, id, after);
    }
  }

  lemma WorkerChanges(cfg: Config, s: Sys, a: Action, id: Id)
    requires id in s.cells
    ensures var after := WorkerStep(cfg, s, a).cells[id].job;
            JobOf(JobsOf(s.cells), id) == after
            || exists change :: Explains(change, RawColumn(RowsOf(s.cells)), JobsOf(s.cells), id, after)
  {
    assert JobOf(JobsOf(s.cells), id) == s.cells[id].job;
    if ClaimsNow(s, a) { CellChanges(cfg, s, a, id); }
  }

  /** Every step of the delivery protocol changes a job only in ways the migration tolerates. */
  lemma StepsAreChanges(c: Crypto, cfg: Config, s: Sys, a: Action, id: Id)
    requires id in Apply(c, cfg, s, a).cells
    ensures var after := Apply(c, cfg, s, a).cells[id].job;
            JobOf(JobsOf(s.cells), id) == after
            || exists change :: Explains(change, RawColumn(RowsOf(s.cells)), JobsOf(s.cells), id, after)
  {
    if a.Ingest? && Accepts(c, s, a) {
      var m := PrepareAll(c, a.ring, a.meta, a.events).value;
      forall i <- a.alloc ensures a.alloc[i] in m { assert a.alloc[i] in a.alloc.Values; }
      IngestChanges(s, a.meta, m, a.alloc, a.at, a.enabled, id);
    } else {
      WorkerChanges(cfg, s, a, id);
    }
  }

  // ----- old links -----

  datatype ResolveError = AmbiguousFingerprint

  /** An event in scope and window whose raw alias is the link and that has an issue. */
  predicate Linked(scope: W.Principal, w: F.Window, link: string, e: W.StoredEvent) {
    && e.scope == scope && W.InWindow(w, e.occurredMs)
    && e.rawFingerprint == Some(link) && e.fingerprint.Some?
  }

  /** The link is looked up under its own tenant, app and environment, within the window, its end excluded. */
  lemma LinkedIff(scope: W.Principal, w: F.Window, link: string, e: W.StoredEvent)
    ensures Linked(scope, w, link, e) <==>
              && e.scope.tenant == scope.tenant && e.scope.app == scope.app && e.scope.environment == scope.environment
              && w.fromMs <= e.occurredMs && e.occurredMs < w.toMs
              && e.fingerprint != None && e.rawFingerprint != None && e.rawFingerprint.value == link
  {
  }

  /** SELECT DISTINCT incident_fingerprint ... */
  function LinkedIssues(scope: W.Principal, w: F.Window, link: string, table: seq<W.StoredEvent>): seq<string> {
    if table == [] then []
    else
      var e := table[|table| - 1];
      var before := LinkedIssues(scope, w, link, table[..|table| - 1]);
      if Linked(scope, w, link, e) && e.fingerprint.value !in before then before + [e.fingerprint.value] else before
  }

  /** resolve_issue_fingerprint: at most two rows are fetched, and two are one too many. */
  function ResolveIssue(scope: W.Principal, w: F.Window, link: string, table: seq<W.StoredEvent>): Result<string, ResolveError> {
    var all := LinkedIssues(scope, w, link, table);
    var matches := if |all| <= 2 then all else all[..2];
    if |matches| > 1 then Err(AmbiguousFingerprint)
    else if matches == [] then Ok(link)
    else Ok(matches[0])
  }

  predicate Distinct(s: seq<string>) {
    forall i, j :: 0 <= i < j < |s| ==> s[i] != s[j]
  }

  lemma {:induction false} LinkedIssuesAre(scope: W.Principal, w: F.Window, link: string, table: seq<W.StoredEvent>)
    ensures Distinct(LinkedIssues(scope, w, link, table))
    ensures forall p :: p in LinkedIssues(scope, w, link, table) <==> exists e :: e in table && Linked(scope, w, link, e) && e.fingerprint.value == p
  {
    if table != [] {
      var n := |table| - 1;
      LinkedIssuesAre(scope, w, link, table[..n]);
      assert table == table[..n] + [table[n]];
      var before, all := LinkedIssues(scope, w, link, table[..n]), LinkedIssues(scope, w, link, table);
      forall p ensures p in all <==> exists e :: e in table && Linked(scope, w, link, e) && e.fingerprint.value == p {
        if p in before {
          var e :| e in table[..n] && Linked(scope, w, link, e) && e.fingerprint.value == p;
          assert e in table;
        }
        if e :| e in table && Linked(scope, w, link, e) && e.fingerprint.value == p {
          assert e in table[..n] || e == table[n];
        }
      }
    }
  }

  /** All events behind the link belong to one issue. */
  ghost predicate OneIssue(scope: W.Principal, w: F.Window, link: string, table: seq<W.StoredEvent>, issue: string) {
    forall e :: e in table && Linked(scope, w, link, e) ==> e.fingerprint == Some(issue)
  }

  /**
   * A link resolves exactly when one issue covers every event behind it; it is then that issue (or the
   * link itself when no event is behind it), and the issue's query finds all of those events.
   */
  lemma ResolvesIffOneIssue(scope: W.Principal, w: F.Window, link: string, table: seq<W.StoredEvent>)
    ensures var r := ResolveIssue(scope, w, link, table);
            && (r.Ok? <==> exists issue :: OneIssue(scope, w, link, table, issue))
            && (r.Ok? ==> OneIssue(scope, w, link, table, r.value))
            && (r.Ok? && r.value != link ==> exists e :: e in table && Linked(scope, w, link, e) && e.fingerprint == Some(r.value))
  {
    var all := LinkedIssues(scope, w, link, table);
    LinkedIssuesAre(scope, w, link, table);
    var r := ResolveIssue(scope, w, link, table);
    if r.Ok? {
      forall e | e in table && Linked(scope, w, link, e) ensures e.fingerprint == Some(r.value) {
        assert e.fingerprint.value in all;
      }
      assert OneIssue(scope, w, link, table, r.value);
      if r.value != link { assert r.value in all; }
    } else {
      assert all[0] in all && all[1] in all && all[0] != all[1];
    }
  }

  /** Every event behind a resolved link is matched by the query for the resolved issue. */
  lemma ResolvedLinkCoversAll(scope: W.Principal, w: F.Window, link: string, table: seq<W.StoredEvent>, e: W.StoredEvent)
    requires e in table && Linked(scope, w, link, e) && ResolveIssue(scope, w, link, table).Ok?
    ensures W.Matches(W.Query(scope, w, None, Some(ResolveIssue(scope, w, link, table).value)), e)
  {
    ResolvesIffOneIssue(scope, w, link, table);
  }
}
