/**
 * Loading the facts of one scoped window: filter, project each event, GROUP BY, bound the groups.
 */
module WindowFacts {
  import opened Prelude
  import opened Sanitizer
  import opened Normalization
  import opened Facts
  import Grouping

  datatype Principal = Principal(tenant: string, app: string, environment: string)

  /** One durable event as the query plane sees it. */
  datatype StoredEvent = StoredEvent(
    id: nat, scope: Principal, occurredMs: int, late: bool,
    appVersion: Option<string>, releaseQuality: IdentityQuality, installationQuality: IdentityQuality,
    hmac: Option<string>, keyVersion: Option<string>,
    fingerprint: Option<string>, rawFingerprint: Option<string>,
    schemaVersion: string, protocol: string, status: string,
    moduleName: Option<string>, eventName: Option<string>, scene: Option<string>,
    normalized: Normalized, pruned: bool, retainedScene: Option<string>)

  /** One query: scope and window always, releases and fingerprint when given. */
  datatype Query = Query(
    scope: Principal, window: Window, releases: Option<seq<string>>, fingerprint: Option<string>)

  datatype QueryError = BudgetExceeded(maxRows: nat)

  /** _validate_window: what every endpoint has checked before it loads facts. */
  predicate PositiveWindow(w: Window) {
    0 < w.fromMs < w.toMs
  }

  predicate InWindow(w: Window, ms: int) {
    w.fromMs <= ms < w.toMs
  }

  predicate Matches(q: Query, e: StoredEvent) {
    && e.scope == q.scope && InWindow(q.window, e.occurredMs)
    && (q.releases.Some? ==> e.appVersion.Some? && e.appVersion.value in q.releases.value)
    && (q.fingerprint.Some? ==> e.fingerprint == q.fingerprint)
  }

  function SceneOf(e: StoredEvent): Option<string> {
    if e.pruned then None else e.scene
  }

  function SceneStateOf(e: StoredEvent): Evidence {
    if e.pruned then
      if e.retainedScene == Some("EXPIRED") then Expired
      else if e.retainedScene == Some("MISSING") then Missing
      else RetentionUnknown
    else if e.scene.Some? && e.scene.value != "" then Available
    else Missing
  }

  function EmitOf(e: StoredEvent): Option<int> { IntColumn(e.normalized.registered, EmitCount) }
  function DropsOf(e: StoredEvent): Option<int> { IntColumn(e.normalized.registered, DropCount) }
  function RateOf(e: StoredEvent): Option<real> { NumberColumn(e.normalized.registered, DropRate) }

  /** A missing module or name reads as the empty string. */
  function OrEmpty(s: Option<string>): string {
    if s.Some? then s.value else ""
  }

  /** Only the exact product events have a family. */
  function FamilyOf(moduleName: string, name: string): Family {
    if moduleName == "crash" && name == "java_crash" then JavaCrash
    else if moduleName == "anr" && name == "anr_detected" then Anr
    else if moduleName == "crash" && name == "app_exit" then AppExit
    else if moduleName == "core" && name == "sdk_health" then SdkHealth
    else Unregistered
  }

  function CoreOf(w: Window, e: StoredEvent): Core {
    Core(e.appVersion, e.releaseQuality, e.installationQuality, e.hmac, e.keyVersion, e.fingerprint,
         e.schemaVersion, e.protocol, e.status, e.moduleName, e.eventName, FamilyOf(OrEmpty(e.moduleName), OrEmpty(e.eventName)),
         Healthy(EmitOf(e), DropsOf(e), RateOf(e)), e.late, BucketOf(w, e.occurredMs))
  }

  /** The weight-1 fact of one event. */
  function EventFact(w: Window, e: StoredEvent): Fact {
    Fact(Dims(CoreOf(w, e), SceneOf(e), SceneStateOf(e)), EmitOf(e), e.id, e.occurredMs, e.occurredMs, DropsOf(e), RateOf(e), 1)
  }

  /** One fact per matching event, in table order. */
  function EventFacts(q: Query, table: seq<StoredEvent>): seq<Fact> {
    if table == [] then []
    else
      var n := |table| - 1;
      var before := EventFacts(q, table[..n]);
      if Matches(q, table[n]) then before + [EventFact(q.window, table[n])] else before
  }

  /** load_window_facts: at most maxRows + 1 groups are fetched, and one too many is an error. */
  function LoadWindowFacts(q: Query, table: seq<StoredEvent>, maxRows: nat): Result<seq<Fact>, QueryError> {
    var groups := GroupBy(EventFacts(q, table));
    var rows := if |groups| <= maxRows + 1 then groups else groups[..maxRows + 1];
    if |rows| > maxRows then Err(BudgetExceeded(maxRows)) else Ok(rows)
  }

  /** The table in primary-key order. */
  predicate InIdOrder(table: seq<StoredEvent>) {
    forall i, j :: 0 <= i < j < |table| ==> table[i].id < table[j].id
  }

  lemma EventFactIsFair(q: Query, e: StoredEvent)
    requires PositiveWindow(q.window) && Matches(q, e)
    ensures Fair(q.window, EventFact(q.window, e))
  {
  }

  lemma {:induction false} EventFactsAreFair(q: Query, table: seq<StoredEvent>)
    requires PositiveWindow(q.window)
    ensures AllFair(q.window, EventFacts(q, table))
  {
    if table != [] {
      var n := |table| - 1;
      EventFactsAreFair(q, table[..n]);
      if Matches(q, table[n]) { EventFactIsFair(q, table[n]); }
    }
  }

  ghost predicate IsFactOf(q: Query, table: seq<StoredEvent>, f: Fact) {
    exists e :: e in table && Matches(q, e) && f == EventFact(q.window, e)
  }

  /** The facts are exactly those of the matching events. */
  lemma {:induction false} EventFactsAre(q: Query, table: seq<StoredEvent>, f: Fact)
    ensures f in EventFacts(q, table) <==> IsFactOf(q, table, f)
  {
    if table != [] {
      var n := |table| - 1;
      EventFactsAre(q, table[..n], f);
      assert table == table[..n] + [table[n]];
      assert IsFactOf(q, table, f) <==> IsFactOf(q, table[..n], f) || (Matches(q, table[n]) && f == EventFact(q.window, table[n]));
    }
  }

  lemma FactIdsBelow(q: Query, table: seq<StoredEvent>, id: nat)
    requires forall e :: e in table ==> e.id < id
    ensures Grouping.OlderThan(EventFacts(q, table), id)
  {
    var fs := EventFacts(q, table);
    forall i | 0 <= i < |fs| ensures fs[i].id < id {
      EventFactsAre(q, table, fs[i]);
    }
  }

  /** One fact per matching event, in id order. */
  lemma {:induction false} EventFactsAscend(q: Query, table: seq<StoredEvent>)
    requires InIdOrder(table)
    ensures Grouping.AscendingIds(EventFacts(q, table))
  {
    if table != [] {
      var n := |table| - 1;
      EventFactsAscend(q, table[..n]);
      FactIdsBelow(q, table[..n], table[n].id);
    }
  }

  /** A load succeeds exactly within the group budget, and then returns all groups. */
  lemma LoadIffWithinBudget(q: Query, table: seq<StoredEvent>, maxRows: nat)
    requires PositiveWindow(q.window) && InIdOrder(table)
    ensures var all := EventFacts(q, table);
            var loaded := LoadWindowFacts(q, table, maxRows);
            && (loaded.Ok? <==> |GroupBy(all)| <= maxRows)
            && (loaded.Ok? ==> && Grouping.IsGrouping(loaded.value, all)
                               && Grouping.AscendingIds(loaded.value)
                               && SameView(q.window, loaded.value, all, true))
  {
    EventFactsAreFair(q, table);
    EventFactsAscend(q, table);
    GroupBySameView(q.window, EventFacts(q, table));
    Grouping.GroupByIsGrouping(EventFacts(q, table));
  }
}
