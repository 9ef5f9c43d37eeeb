/**
 * Several ingest gateways working at once.
 *
 * An ingest transaction is a sequence of statements: read the stored identities, upsert with ON
 * CONFLICT DO NOTHING, re-read what raced in, take the capacity lock, count live rows, sum raw
 * bytes, commit.  Between any two statements other gateways and all workers may commit.  Rows a
 * transaction has inserted are private until it commits; the unique index makes another
 * transaction wait for them.
 */
module Gateways {
  import opened Prelude
  import opened Replay
  import opened Delivery
  import opened DeliveryRuns
  import DeliveryLaws
  import DeliveryTheorems

  type Gateway = nat

  datatype Phase = Begun | HasRead | Upserted | Verified | Locked | Counted | Admitted

  datatype Tx = Tx(
    meta: Meta, events: seq<Submission>, ring: Option<KeyRing>, enabled: bool,
    m: map<string, Prepared>,      // _prepare_unique_events
    known: set<string>,            // event ids the first read found
    alloc: map<Id, string>,        // rows this transaction inserted
    at: int,                       // when it inserted them
    phase: Phase)

  datatype World = World(sys: Sys, txs: map<Gateway, Tx>, lock: Option<Gateway>, nextId: nat)

  datatype Limits = Limits(maxLive: nat, maxRawBytes: nat)

  datatype Move =
    | Begin(g: Gateway, meta: Meta, events: seq<Submission>, ring: Option<KeyRing>, enabled: bool)
    | ReadExisting(g: Gateway)
    | Upsert(g: Gateway, alloc: map<Id, string>, next: nat)
    | ReadRaced(g: Gateway)
    | TakeLock(g: Gateway)
    | CountLive(g: Gateway)
    | SumBytes(g: Gateway)
    | Commit(g: Gateway)
    | Rollback(g: Gateway)
    | Other(a: Action)

  // ----- capacity -----

  function LiveCount(cells: map<Id, Cell>, n: nat): nat {
    LiveRows(RowsOf(cells), n)
  }

  function ByteCount(cells: map<Id, Cell>, n: nat): nat {
    RawBytes(RowsOf(cells), n)
  }

  /** Events on their way: pending, in processing, or waiting for symbols. */
  function UnfinishedCells(cells: map<Id, Cell>): set<Id> {
    set id | id in cells && cells[id].row.status in {Pending, Processing, AwaitingSymbols}
  }

  lemma LiveCountIs(cells: map<Id, Cell>, n: nat)
    requires forall id <- cells :: id < n
    ensures LiveCount(cells, n) == |UnfinishedCells(cells)|
  {
    DeliveryLaws.LiveRowsAreUnfinished(RowsOf(cells), n);
    assert DeliveryLaws.UnfinishedIds(RowsOf(cells), n) == UnfinishedCells(cells);
  }

  /** SELECT count(*) over at most limit + 1 rows. */
  function TruncatedCount(count: nat, limit: nat): nat {
    if count <= limit + 1 then count else limit + 1
  }

  /** Counting no further than limit + 1 rows decides exactly as the full count. */
  lemma TruncationDecides(count: nat, limit: nat)
    ensures TruncatedCount(count, limit) <= limit <==> count <= limit
  {
  }

  // ----- one gateway -----

  /** The transaction's own rows, not yet visible to anyone else. */
  function Private(tx: Tx): map<Id, Cell>
    requires Sane(tx)
  {
    map id | id in tx.alloc :: NewCell(tx.meta, tx.m[tx.alloc[id]], tx.at, tx.enabled)
  }

  predicate HitsMatch(c: Crypto, ring: Option<KeyRing>, meta: Meta, m: map<string, Prepared>, cells: map<Id, Cell>, ids: set<string>) {
    forall id <- cells :: Hits(cells[id], meta.tenant, m) && cells[id].row.stored.eventId in ids ==>
      Matches(c, ring, meta, m[cells[id].row.stored.eventId].submission, cells[id].row.stored)
  }

  /** An uncommitted row of `other` holds a key that `tx` is about to insert. */
  predicate Blocks(other: Tx, tx: Tx) {
    other.meta.tenant == tx.meta.tenant && exists id <- other.alloc :: other.alloc[id] in tx.m
  }

  predicate Blocked(w: World, g: Gateway)
    requires g in w.txs
  {
    exists h <- w.txs :: h != g && Blocks(w.txs[h], w.txs[g])
  }

  function Abort(w: World, g: Gateway): World {
    w.(txs := w.txs - {g}, lock := if w.lock == Some(g) then None else w.lock)
  }

  function Put(w: World, g: Gateway, tx: Tx): World {
    w.(txs := w.txs[g := tx])
  }

  predicate In(w: World, g: Gateway, phase: Phase) {
    g in w.txs && w.txs[g].phase == phase
  }

  ghost predicate CanUpsert(w: World, g: Gateway, alloc: map<Id, string>, next: nat)
    requires g in w.txs
  {
    && !Blocked(w, g)
    && w.nextId <= next
    && (forall id <- alloc :: w.nextId <= id < next)
    && Allocates(w.sys.cells, w.txs[g].meta.tenant, w.txs[g].m, alloc)
  }

  /** Event ids the upsert did not insert and the first read had not seen. */
  function Raced(tx: Tx): set<string> {
    tx.m.Keys - tx.alloc.Values - tx.known
  }

  /** What the transaction's own SELECTs see. */
  function Visible(cells: map<Id, Cell>, tx: Tx): map<Id, Cell>
    requires Sane(tx)
  {
    cells + Private(tx)
  }

  predicate Sane(tx: Tx) {
    forall id <- tx.alloc :: tx.alloc[id] in tx.m
  }

  ghost function Step(c: Crypto, cfg: Config, lim: Limits, w: World, move: Move): World {
    match move
    case Begin(g, meta, events, ring, enabled) =>
      var r := PrepareAll(c, ring, meta, events);
      if g in w.txs || r.Err? || !RingOf(ring, w.sys.keys) then w
      else Put(w, g, Tx(meta, events, ring, enabled, r.value, {}, map[], w.sys.now, Begun))
    case ReadExisting(g) =>
      if !In(w, g, Begun) then w
      else
        var tx := w.txs[g];
        if HitsMatch(c, tx.ring, tx.meta, tx.m, w.sys.cells, tx.m.Keys)
        then Put(w, g, tx.(known := StoredIds(w.sys.cells, tx.meta.tenant) * tx.m.Keys, phase := HasRead))
        else Abort(w, g)
    case Upsert(g, alloc, next) =>
      if !In(w, g, HasRead) || !CanUpsert(w, g, alloc, next) then w
      else Put(w, g, w.txs[g].(alloc := alloc, at := w.sys.now, phase := Upserted)).(nextId := next)
    case ReadRaced(g) =>
      if !In(w, g, Upserted) then w
      else
        var tx := w.txs[g];
        if Raced(tx) <= StoredIds(w.sys.cells, tx.meta.tenant) && HitsMatch(c, tx.ring, tx.meta, tx.m, w.sys.cells, Raced(tx))
        then Put(w, g, tx.(phase := if tx.alloc == map[] then Admitted else Verified))
        else Abort(w, g)
    case TakeLock(g) =>
      if !In(w, g, Verified) || w.lock.Some? then w
      else Put(w, g, w.txs[g].(phase := Locked)).(lock := Some(g))
    case CountLive(g) =>
      if !In(w, g, Locked) || !Sane(w.txs[g]) then w
      else if TruncatedCount(LiveCount(Visible(w.sys.cells, w.txs[g]), w.nextId), lim.maxLive) <= lim.maxLive
      then Put(w, g, w.txs[g].(phase := Counted))
      else Abort(w, g)
    case SumBytes(g) =>
      if !In(w, g, Counted) || !Sane(w.txs[g]) then w
      else if ByteCount(Visible(w.sys.cells, w.txs[g]), w.nextId) <= lim.maxRawBytes
      then Put(w, g, w.txs[g].(phase := Admitted))
      else Abort(w, g)
    case Commit(g) =>
      if !In(w, g, Admitted) || !Sane(w.txs[g]) then w
      else
        var tx := w.txs[g];
        Abort(w, g).(sys := w.sys.(cells := Ingested(w.sys.cells, tx.meta, tx.m, tx.alloc, tx.at, tx.enabled)))
    case Rollback(g) => if g in w.txs then Abort(w, g) else w
    case Other(a) => if a.Ingest? then w else w.(sys := Apply(c, cfg, w.sys, a))
  }

  ghost function Exec(c: Crypto, cfg: Config, lim: Limits, w: World, moves: seq<Move>): World
    decreases |moves|
  {
    if moves == [] then w else Exec(c, cfg, lim, Step(c, cfg, lim, w, moves[0]), moves[1..])
  }

  function Quiet(now: int): World {
    World(EmptySystem(now), map[], None, 0)
  }

  // ----- invariants -----

  predicate HasInserted(tx: Tx) {
    !tx.phase.Begun? && !tx.phase.HasRead?
  }

  predicate HasVerified(tx: Tx) {
    HasInserted(tx) && !tx.phase.Upserted?
  }

  predicate HoldsLock(tx: Tx) {
    tx.phase.Locked? || tx.phase.Counted? || (tx.phase.Admitted? && tx.alloc != map[])
  }

  /** What is true of one transaction, whatever the others do. */
  ghost predicate TxOk(c: Crypto, sys: Sys, nextId: nat, tx: Tx) {
    && PrepareAll(c, tx.ring, tx.meta, tx.events) == Ok(tx.m)
    && RingOf(tx.ring, sys.keys)
    && tx.at <= sys.now
    && Owns(sys.cells, nextId, tx)
    && Checked(c, sys.cells, tx)
  }

  /** Its inserted rows: new ids, new keys, each key once. */
  predicate Owns(cells: map<Id, Cell>, nextId: nat, tx: Tx) {
    && Sane(tx)
    && (!HasInserted(tx) ==> tx.alloc == map[])
    && (tx.phase.Verified? || tx.phase.Locked? || tx.phase.Counted? ==> tx.alloc != map[])
    && (forall id <- tx.alloc :: id < nextId && id !in cells && tx.alloc[id] !in StoredIds(cells, tx.meta.tenant))
    && (forall i, j :: i in tx.alloc && j in tx.alloc && tx.alloc[i] == tx.alloc[j] ==> i == j)
  }

  /** Every key of the batch is accounted for, and what was read still matches. */
  predicate Checked(c: Crypto, cells: map<Id, Cell>, tx: Tx) {
    && tx.known <= StoredIds(cells, tx.meta.tenant)
    && HitsMatch(c, tx.ring, tx.meta, tx.m, cells, tx.known)
    && (HasInserted(tx) ==> tx.m.Keys <= tx.alloc.Values + StoredIds(cells, tx.meta.tenant))
    && (HasVerified(tx) ==> HitsMatch(c, tx.ring, tx.meta, tx.m, cells, tx.m.Keys))
  }

  /** The limits as the lock holder has confirmed them for its own commit. */
  predicate Confirmed(lim: Limits, cells: map<Id, Cell>, nextId: nat, tx: Tx)
    requires Sane(tx)
  {
    && (tx.phase.Counted? || (tx.phase.Admitted? && tx.alloc != map[]) ==> LiveCount(Visible(cells, tx), nextId) <= lim.maxLive)
    && (tx.phase.Admitted? && tx.alloc != map[] ==> ByteCount(Visible(cells, tx), nextId) <= lim.maxRawBytes)
  }

  predicate Disjoint(a: Tx, b: Tx) {
    && a.alloc.Keys !! b.alloc.Keys
    && (a.meta.tenant == b.meta.tenant ==> a.alloc.Values !! b.alloc.Values)
  }

  predicate WithinLimits(lim: Limits, cells: map<Id, Cell>, nextId: nat) {
    LiveCount(cells, nextId) <= lim.maxLive && ByteCount(cells, nextId) <= lim.maxRawBytes
  }

  ghost predicate WorldOk(c: Crypto, cfg: Config, lim: Limits, w: World) {
    && Inv(c, cfg, w.sys)
    && (forall id <- w.sys.cells :: id < w.nextId)
    && WithinLimits(lim, w.sys.cells, w.nextId)
    && (forall g <- w.txs :: TxOk(c, w.sys, w.nextId, w.txs[g]))
    && (forall g <- w.txs :: HoldsLock(w.txs[g]) <==> w.lock == Some(g))
    && (w.lock.Some? ==> w.lock.value in w.txs)
    && (forall g <- w.txs :: Confirmed(lim, w.sys.cells, w.nextId, w.txs[g]))
    && (forall g, h :: g in w.txs && h in w.txs && g != h ==> Disjoint(w.txs[g], w.txs[h]))
  }

  // ----- counting -----

  /** Cell by cell, `b` has no row or byte that `a` does not have. */
  predicate Lighter(a: map<Id, Cell>, b: map<Id, Cell>) {
    forall id <- b :: id in a && (Live(b[id].row) ==> Live(a[id].row)) && BytesOf(b[id].row) <= BytesOf(a[id].row)
  }

  lemma {:induction false} LighterCounts(a: map<Id, Cell>, b: map<Id, Cell>, n: nat)
    requires Lighter(a, b)
    ensures LiveCount(b, n) <= LiveCount(a, n) && ByteCount(b, n) <= ByteCount(a, n)
  {
    if n > 0 { LighterCounts(a, b, n - 1); }
  }

  lemma {:induction false} CountsPastTheEnd(cells: map<Id, Cell>, n: nat, next: nat)
    requires n <= next && forall id <- cells :: id < n
    ensures LiveCount(cells, next) == LiveCount(cells, n) && ByteCount(cells, next) == ByteCount(cells, n)
    decreases next
  {
    if n < next { CountsPastTheEnd(cells, n, next - 1); }
  }

  // ----- moves that touch one transaction -----

  ghost predicate Fits(c: Crypto, lim: Limits, w: World, g: Gateway, tx: Tx) {
    && TxOk(c, w.sys, w.nextId, tx)
    && Confirmed(lim, w.sys.cells, w.nextId, tx)
    && forall h <- w.txs :: h != g ==> Disjoint(tx, w.txs[h]) && Disjoint(w.txs[h], tx)
  }

  lemma PutKeeps(c: Crypto, cfg: Config, lim: Limits, w: World, g: Gateway, tx: Tx, lock: Option<Gateway>)
    requires WorldOk(c, cfg, lim, w) && Fits(c, lim, w, g, tx)
    requires HoldsLock(tx) <==> lock == Some(g)
    requires lock == w.lock || (w.lock.None? && lock == Some(g))
    ensures WorldOk(c, cfg, lim, Put(w, g, tx).(lock := lock))
  {
    var txs := w.txs[g := tx];
    forall h, k | h in txs && k in txs && h != k ensures Disjoint(txs[h], txs[k]) {
      PutDisjoint(w.txs, g, tx, h, k);
    }
  }

  lemma PutDisjoint(txs: map<Gateway, Tx>, g: Gateway, tx: Tx, h: Gateway, k: Gateway)
    requires forall i, j :: i in txs && j in txs && i != j ==> Disjoint(txs[i], txs[j])
    requires forall i <- txs :: i != g ==> Disjoint(tx, txs[i]) && Disjoint(txs[i], tx)
    requires h in txs[g := tx] && k in txs[g := tx] && h != k
    ensures Disjoint(txs[g := tx][h], txs[g := tx][k])
  {
  }

  lemma AbortKeeps(c: Crypto, cfg: Config, lim: Limits, w: World, g: Gateway)
    requires WorldOk(c, cfg, lim, w)
    ensures WorldOk(c, cfg, lim, Abort(w, g))
  {
  }

  lemma GrowKeeps(c: Crypto, cfg: Config, lim: Limits, w: World, next: nat)
    requires WorldOk(c, cfg, lim, w) && w.nextId <= next
    ensures WorldOk(c, cfg, lim, w.(nextId := next))
  {
    var v := w.(nextId := next);
    CountsPastTheEnd(w.sys.cells, w.nextId, next);
    forall g <- w.txs ensures TxOk(c, v.sys, v.nextId, v.txs[g]) && Confirmed(lim, v.sys.cells, v.nextId, v.txs[g]) {
      assert TxOk(c, w.sys, w.nextId, w.txs[g]) && Confirmed(lim, w.sys.cells, w.nextId, w.txs[g]);
      CountsPastTheEnd(Visible(w.sys.cells, w.txs[g]), w.nextId, next);
    }
  }

  lemma BeginKeeps(c: Crypto, cfg: Config, lim: Limits, w: World, move: Move)
    requires WorldOk(c, cfg, lim, w) && move.Begin?
    ensures WorldOk(c, cfg, lim, Step(c, cfg, lim, w, move))
  {
    var r := PrepareAll(c, move.ring, move.meta, move.events);
    if move.g !in w.txs && r.Ok? && RingOf(move.ring, w.sys.keys) {
      var tx := Tx(move.meta, move.events, move.ring, move.enabled, r.value, {}, map[], w.sys.now, Begun);
      BeginFits(c, cfg, lim, w, move.g, tx);
      PutKeeps(c, cfg, lim, w, move.g, tx, w.lock);
    }
  }

  lemma BeginFits(c: Crypto, cfg: Config, lim: Limits, w: World, g: Gateway, tx: Tx)
    requires g !in w.txs
    requires PrepareAll(c, tx.ring, tx.meta, tx.events) == Ok(tx.m) && RingOf(tx.ring, w.sys.keys)
    requires tx.known == {} && tx.alloc == map[] && tx.at == w.sys.now && tx.phase.Begun?
    ensures Fits(c, lim, w, g, tx)
  {
    assert TxOk(c, w.sys, w.nextId, tx);
  }

  lemma ReadFits(c: Crypto, lim: Limits, w: World, g: Gateway, tx: Tx)
    requires TxOk(c, w.sys, w.nextId, tx) && tx.phase.Begun?
    requires HitsMatch(c, tx.ring, tx.meta, tx.m, w.sys.cells, tx.m.Keys)
    requires forall h <- w.txs :: h != g ==> Disjoint(tx, w.txs[h]) && Disjoint(w.txs[h], tx)
    ensures Fits(c, lim, w, g, tx.(known := StoredIds(w.sys.cells, tx.meta.tenant) * tx.m.Keys, phase := HasRead))
  {
    var next := tx.(known := StoredIds(w.sys.cells, tx.meta.tenant) * tx.m.Keys, phase := HasRead);
    assert Checked(c, w.sys.cells, next);
    forall h <- w.txs | h != g ensures Disjoint(next, w.txs[h]) && Disjoint(w.txs[h], next) {
      assert Disjoint(tx, w.txs[h]) && Disjoint(w.txs[h], tx);
    }
  }

  lemma ReadKeeps(c: Crypto, cfg: Config, lim: Limits, w: World, g: Gateway)
    requires WorldOk(c, cfg, lim, w)
    ensures WorldOk(c, cfg, lim, Step(c, cfg, lim, w, ReadExisting(g)))
  {
    if In(w, g, Begun) {
      var tx := w.txs[g];
      assert TxOk(c, w.sys, w.nextId, tx);
      if HitsMatch(c, tx.ring, tx.meta, tx.m, w.sys.cells, tx.m.Keys) {
        ReadFits(c, lim, w, g, tx);
        PutKeeps(c, cfg, lim, w, g, tx.(known := StoredIds(w.sys.cells, tx.meta.tenant) * tx.m.Keys, phase := HasRead), w.lock);
      } else {
        AbortKeeps(c, cfg, lim, w, g);
      }
    }
  }

  /** Waiting on the unique index keeps every two transactions' keys apart. */
  lemma UnblockedIsDisjoint(c: Crypto, cfg: Config, lim: Limits, w: World, g: Gateway, alloc: map<Id, string>, next: nat, h: Gateway)
    requires WorldOk(c, cfg, lim, w) && g in w.txs && h in w.txs && h != g && CanUpsert(w, g, alloc, next)
    ensures Disjoint(w.txs[g].(alloc := alloc), w.txs[h]) && Disjoint(w.txs[h], w.txs[g].(alloc := alloc))
  {
    var tx, other := w.txs[g], w.txs[h];
    assert TxOk(c, w.sys, w.nextId, other);
    assert !Blocks(other, tx);
    assert tx.meta.tenant == other.meta.tenant ==> forall id <- other.alloc :: other.alloc[id] !in alloc.Values;
  }

  lemma UpsertFits(c: Crypto, cfg: Config, lim: Limits, w: World, g: Gateway, alloc: map<Id, string>, next: nat, tx: Tx)
    requires WorldOk(c, cfg, lim, w) && In(w, g, HasRead) && CanUpsert(w, g, alloc, next)
    requires tx == w.txs[g].(alloc := alloc, at := w.sys.now, phase := Upserted)
    ensures Fits(c, lim, w.(nextId := next), g, tx)
  {
    assert TxOk(c, w.sys, w.nextId, w.txs[g]);
    UpsertOwns(w.sys.cells, w.nextId, next, w.txs[g], tx);
    forall h <- w.txs | h != g ensures Disjoint(tx, w.txs[h]) && Disjoint(w.txs[h], tx) {
      UnblockedIsDisjoint(c, cfg, lim, w, g, alloc, next, h);
    }
  }

  lemma UpsertOwns(cells: map<Id, Cell>, nextId: nat, next: nat, before: Tx, tx: Tx)
    requires tx == before.(alloc := tx.alloc, at := tx.at, phase := Upserted) && nextId <= next
    requires Allocates(cells, before.meta.tenant, before.m, tx.alloc) && forall id <- tx.alloc :: nextId <= id < next
    ensures Owns(cells, next, tx)
    ensures tx.m.Keys <= tx.alloc.Values + StoredIds(cells, tx.meta.tenant)
  {
    forall id <- tx.alloc ensures tx.alloc[id] in tx.m && tx.alloc[id] !in StoredIds(cells, tx.meta.tenant) {
      assert tx.alloc[id] in tx.alloc.Values;
    }
  }

  lemma UpsertKeeps(c: Crypto, cfg: Config, lim: Limits, w: World, g: Gateway, alloc: map<Id, string>, next: nat)
    requires WorldOk(c, cfg, lim, w)
    ensures WorldOk(c, cfg, lim, Step(c, cfg, lim, w, Upsert(g, alloc, next)))
  {
    if In(w, g, HasRead) && CanUpsert(w, g, alloc, next) {
      var tx := w.txs[g].(alloc := alloc, at := w.sys.now, phase := Upserted);
      UpsertFits(c, cfg, lim, w, g, alloc, next, tx);
      GrowKeeps(c, cfg, lim, w, next);
      PutKeeps(c, cfg, lim, w.(nextId := next), g, tx, w.lock);
    }
  }

  /** Another open transaction of the same tenant has inserted one of this batch's event ids. */
  ghost predicate KeyIsHeld(w: World, g: Gateway, h: Gateway)
    requires g in w.txs && h in w.txs
  {
    && h != g && w.txs[h].meta.tenant == w.txs[g].meta.tenant
    && exists e :: e in w.txs[h].alloc.Values && e in w.txs[g].m
  }

  /** An upsert waits for nothing but an uncommitted row with one of its keys: gateways with other keys overlap freely. */
  lemma UpsertWaitsOnlyForKeys(c: Crypto, cfg: Config, lim: Limits, w: World, g: Gateway, alloc: map<Id, string>, next: nat)
    requires In(w, g, HasRead) && w.nextId <= next && (forall id <- alloc :: w.nextId <= id < next)
    requires Allocates(w.sys.cells, w.txs[g].meta.tenant, w.txs[g].m, alloc)
    ensures var v := Step(c, cfg, lim, w, Upsert(g, alloc, next));
            if exists h <- w.txs :: KeyIsHeld(w, g, h) then v == w else In(v, g, Upserted) && v.txs[g].alloc == alloc
  {
    forall h <- w.txs ensures h != g && Blocks(w.txs[h], w.txs[g]) <==> KeyIsHeld(w, g, h) {
      var other, tx := w.txs[h], w.txs[g];
      if id :| id in other.alloc && other.alloc[id] in tx.m { assert other.alloc[id] in other.alloc.Values; }
    }
  }

  /** A raced row is always visible after the upsert, so the re-read finds every one of them. */
  lemma RacedRowsAreVisible(c: Crypto, cfg: Config, lim: Limits, w: World, g: Gateway)
    requires WorldOk(c, cfg, lim, w) && In(w, g, Upserted)
    ensures Raced(w.txs[g]) <= StoredIds(w.sys.cells, w.txs[g].meta.tenant)
    ensures var tx := w.txs[g]; forall e :: e in Raced(tx) <==> e in tx.m && e !in tx.alloc.Values && e !in tx.known
  {
    assert TxOk(c, w.sys, w.nextId, w.txs[g]);
  }

  /** Moving a verified transaction on changes nothing but its phase. */
  lemma Advance(c: Crypto, lim: Limits, w: World, g: Gateway, tx: Tx, phase: Phase)
    requires TxOk(c, w.sys, w.nextId, tx) && HasInserted(tx)
    requires HitsMatch(c, tx.ring, tx.meta, tx.m, w.sys.cells, tx.m.Keys)
    requires if tx.alloc == map[] then phase.Admitted? else !phase.Begun? && !phase.HasRead?
    requires forall h <- w.txs :: h != g ==> Disjoint(tx, w.txs[h]) && Disjoint(w.txs[h], tx)
    requires phase.Counted? || (phase.Admitted? && tx.alloc != map[]) ==> LiveCount(Visible(w.sys.cells, tx), w.nextId) <= lim.maxLive
    requires phase.Admitted? && tx.alloc != map[] ==> ByteCount(Visible(w.sys.cells, tx), w.nextId) <= lim.maxRawBytes
    ensures Fits(c, lim, w, g, tx.(phase := phase))
  {
    var next := tx.(phase := phase);
    assert Private(next) == Private(tx);
    assert TxOk(c, w.sys, w.nextId, next);
    forall h <- w.txs | h != g ensures Disjoint(next, w.txs[h]) && Disjoint(w.txs[h], next) {
      assert Disjoint(tx, w.txs[h]) && Disjoint(w.txs[h], tx);
    }
  }

  lemma RacedKeeps(c: Crypto, cfg: Config, lim: Limits, w: World, g: Gateway)
    requires WorldOk(c, cfg, lim, w)
    ensures WorldOk(c, cfg, lim, Step(c, cfg, lim, w, ReadRaced(g)))
  {
    if In(w, g, Upserted) {
      var tx := w.txs[g];
      assert TxOk(c, w.sys, w.nextId, tx);
      RacedRowsAreVisible(c, cfg, lim, w, g);
      if HitsMatch(c, tx.ring, tx.meta, tx.m, w.sys.cells, Raced(tx)) {
        AllHitsMatch(c, w, tx);
        var phase := if tx.alloc == map[] then Admitted else Verified;
        Advance(c, lim, w, g, tx, phase);
        PutKeeps(c, cfg, lim, w, g, tx.(phase := phase), w.lock);
      } else {
        AbortKeeps(c, cfg, lim, w, g);
      }
    }
  }

  lemma AllHitsMatch(c: Crypto, w: World, tx: Tx)
    requires TxOk(c, w.sys, w.nextId, tx) && HitsMatch(c, tx.ring, tx.meta, tx.m, w.sys.cells, Raced(tx))
    ensures HitsMatch(c, tx.ring, tx.meta, tx.m, w.sys.cells, tx.m.Keys)
  {
    forall id <- w.sys.cells | w.sys.cells[id].row.stored.tenant == tx.meta.tenant && w.sys.cells[id].row.stored.eventId in tx.m
      ensures Matches(c, tx.ring, tx.meta, tx.m[w.sys.cells[id].row.stored.eventId].submission, w.sys.cells[id].row.stored)
    {
      var e := w.sys.cells[id].row.stored.eventId;
      StoredIdsAre(w.sys.cells, tx.meta.tenant);
      assert e in StoredIds(w.sys.cells, tx.meta.tenant);
      assert forall k <- tx.alloc :: tx.alloc[k] != e;
      assert e in tx.known || e in Raced(tx);
    }
  }

  lemma LockKeeps(c: Crypto, cfg: Config, lim: Limits, w: World, g: Gateway)
    requires WorldOk(c, cfg, lim, w)
    ensures WorldOk(c, cfg, lim, Step(c, cfg, lim, w, TakeLock(g)))
  {
    if In(w, g, Verified) && w.lock.None? {
      assert TxOk(c, w.sys, w.nextId, w.txs[g]);
      Advance(c, lim, w, g, w.txs[g], Locked);
      PutKeeps(c, cfg, lim, w, g, w.txs[g].(phase := Locked), Some(g));
    }
  }

  lemma CountStep(c: Crypto, cfg: Config, lim: Limits, w: World, g: Gateway, live: nat)
    requires In(w, g, Locked) && Sane(w.txs[g]) && live == LiveCount(Visible(w.sys.cells, w.txs[g]), w.nextId)
    ensures Step(c, cfg, lim, w, CountLive(g))
            == if TruncatedCount(live, lim.maxLive) <= lim.maxLive then Put(w, g, w.txs[g].(phase := Counted)) else Abort(w, g)
  {
  }

  lemma BytesStep(c: Crypto, cfg: Config, lim: Limits, w: World, g: Gateway, tx: Tx)
    requires In(w, g, Counted) && tx == w.txs[g] && Sane(tx)
    ensures Step(c, cfg, lim, w, SumBytes(g))
            == if ByteCount(Visible(w.sys.cells, tx), w.nextId) <= lim.maxRawBytes then Put(w, g, tx.(phase := Admitted)) else Abort(w, g)
  {
  }

  lemma CountKeeps(c: Crypto, cfg: Config, lim: Limits, w: World, g: Gateway)
    requires WorldOk(c, cfg, lim, w)
    ensures WorldOk(c, cfg, lim, Step(c, cfg, lim, w, CountLive(g)))
  {
    if In(w, g, Locked) {
      var tx := w.txs[g];
      TxIsOk(c, cfg, lim, w, g);
      var live := LiveCount(Visible(w.sys.cells, tx), w.nextId);
      CountStep(c, cfg, lim, w, g, live);
      TruncationDecides(live, lim.maxLive);
      if live <= lim.maxLive {
        Advance(c, lim, w, g, tx, Counted);
        PutKeeps(c, cfg, lim, w, g, tx.(phase := Counted), w.lock);
      } else {
        AbortKeeps(c, cfg, lim, w, g);
      }
    }
  }

  lemma BytesKeep(c: Crypto, cfg: Config, lim: Limits, w: World, g: Gateway)
    requires WorldOk(c, cfg, lim, w)
    ensures WorldOk(c, cfg, lim, Step(c, cfg, lim, w, SumBytes(g)))
  {
    if In(w, g, Counted) {
      var tx := w.txs[g];
      TxIsOk(c, cfg, lim, w, g);
      assert Confirmed(lim, w.sys.cells, w.nextId, tx);
      BytesStep(c, cfg, lim, w, g, tx);
      if ByteCount(Visible(w.sys.cells, tx), w.nextId) <= lim.maxRawBytes {
        Advance(c, lim, w, g, tx, Admitted);
        PutKeeps(c, cfg, lim, w, g, tx.(phase := Admitted), w.lock);
      } else {
        AbortKeeps(c, cfg, lim, w, g);
      }
    }
  }

  // ----- commits of workers -----

  /** Nothing a worker commits adds rows, bytes or keys, or touches a stored identity. */
  predicate Benign(sys: Sys, next: Sys) {
    && next.cells.Keys == sys.cells.Keys
    && (forall id <- sys.cells :: next.cells[id].row.stored == sys.cells[id].row.stored)
    && Lighter(sys.cells, next.cells)
    && (forall v <- sys.keys :: v in next.keys && next.keys[v] == sys.keys[v])
    && sys.now <= next.now
  }

  lemma WorkerIsLighter(cfg: Config, s: Sys, a: Action, id: Id)
    requires id in s.cells && Protocol(cfg, s.cells[id]) && ClaimsNow(s, a)
    ensures var after := StepCell(cfg, s.now, a, id, s.cells[id]);
            && (Live(after.row) ==> Live(s.cells[id].row))
            && BytesOf(after.row) <= BytesOf(s.cells[id].row)
            && after.row.stored == s.cells[id].row.stored
  {
  }

  lemma BenignCell(c: Crypto, cfg: Config, s: Sys, a: Action, t: Sys, id: Id)
    requires Inv(c, cfg, s) && t == Apply(c, cfg, s, a) && id in s.cells
    ensures id in t.cells && t.cells[id].row.stored == s.cells[id].row.stored
    ensures (Live(t.cells[id].row) ==> Live(s.cells[id].row)) && BytesOf(t.cells[id].row) <= BytesOf(s.cells[id].row)
  {
    ApplyCell(c, cfg, s, a, t, id);
    assert CellOk(c, cfg, s, s.cells[id]);
    if ClaimsNow(s, a) { WorkerIsLighter(cfg, s, a, id); }
  }

  lemma OtherFrame(c: Crypto, cfg: Config, s: Sys, a: Action, t: Sys)
    requires !a.Ingest? && t == Apply(c, cfg, s, a)
    ensures t.cells.Keys == s.cells.Keys && s.now <= t.now
    ensures forall v <- s.keys :: v in t.keys && t.keys[v] == s.keys[v]
  {
  }

  lemma OtherIsBenign(c: Crypto, cfg: Config, s: Sys, t: Sys, a: Action)
    requires Inv(c, cfg, s) && !a.Ingest? && t == Apply(c, cfg, s, a)
    ensures Benign(s, t)
  {
    OtherFrame(c, cfg, s, a, t);
    forall id <- s.cells
      ensures t.cells[id].row.stored == s.cells[id].row.stored
      ensures (Live(t.cells[id].row) ==> Live(s.cells[id].row)) && BytesOf(t.cells[id].row) <= BytesOf(s.cells[id].row)
    {
      BenignCell(c, cfg, s, a, t, id);
    }
  }

  lemma SameStoredIds(a: map<Id, Cell>, b: map<Id, Cell>, tenant: string)
    requires a.Keys == b.Keys && forall id <- a :: b[id].row.stored == a[id].row.stored
    ensures StoredIds(a, tenant) == StoredIds(b, tenant)
  {
    forall e | e in StoredIds(a, tenant) ensures e in StoredIds(b, tenant) {
      var id :| id in a && a[id].row.stored.tenant == tenant && a[id].row.stored.eventId == e;
      assert b[id].row.stored.eventId == e;
    }
    forall e | e in StoredIds(b, tenant) ensures e in StoredIds(a, tenant) {
      var id :| id in b && b[id].row.stored.tenant == tenant && b[id].row.stored.eventId == e;
      assert a[id].row.stored.eventId == e;
    }
  }

  lemma TxSurvivesBenign(c: Crypto, sys: Sys, next: Sys, nextId: nat, tx: Tx)
    requires TxOk(c, sys, nextId, tx) && Benign(sys, next)
    ensures TxOk(c, next, nextId, tx)
  {
    SameStoredIds(sys.cells, next.cells, tx.meta.tenant);
  }

  lemma ConfirmedSurvivesBenign(lim: Limits, sys: Sys, next: Sys, nextId: nat, tx: Tx)
    requires Sane(tx) && Confirmed(lim, sys.cells, nextId, tx) && Benign(sys, next)
    ensures Confirmed(lim, next.cells, nextId, tx)
  {
    assert Lighter(Visible(sys.cells, tx), Visible(next.cells, tx));
    LighterCounts(Visible(sys.cells, tx), Visible(next.cells, tx), nextId);
  }

  lemma OtherKeeps(c: Crypto, cfg: Config, lim: Limits, w: World, a: Action)
    requires WorldOk(c, cfg, lim, w) && !a.Ingest?
    ensures WorldOk(c, cfg, lim, w.(sys := Apply(c, cfg, w.sys, a)))
  {
    var next := Apply(c, cfg, w.sys, a);
    ApplyKeepsInv(c, cfg, w.sys, a);
    OtherIsBenign(c, cfg, w.sys, next, a);
    LighterCounts(w.sys.cells, next.cells, w.nextId);
    forall g <- w.txs ensures TxOk(c, next, w.nextId, w.txs[g]) && Confirmed(lim, next.cells, w.nextId, w.txs[g]) {
      TxSurvivesBenign(c, w.sys, next, w.nextId, w.txs[g]);
      ConfirmedSurvivesBenign(lim, w.sys, next, w.nextId, w.txs[g]);
    }
  }

  // ----- commits of gateways -----

  function IngestOf(tx: Tx): Action {
    Ingest(tx.meta, tx.events, tx.ring, tx.enabled, tx.alloc, tx.at)
  }

  /** An admitted transaction's batch is accepted as one atomic step, and that step makes its table. */
  lemma AdmittedIsAccepted(c: Crypto, cfg: Config, sys: Sys, nextId: nat, tx: Tx)
    requires TxOk(c, sys, nextId, tx) && tx.phase.Admitted?
    ensures Sane(tx) && Accepts(c, sys, IngestOf(tx))
    ensures Apply(c, cfg, sys, IngestOf(tx)) == sys.(cells := Ingested(sys.cells, tx.meta, tx.m, tx.alloc, tx.at, tx.enabled))
  {
    AllocatesStill(c, sys, nextId, tx);
  }

  /**
   * The interleaved transaction is one atomic step at its commit: the batch would be accepted
   * there, and the committed table is what that step makes.
   */
  lemma CommitIsIngest(c: Crypto, cfg: Config, lim: Limits, w: World, g: Gateway)
    requires WorldOk(c, cfg, lim, w) && In(w, g, Admitted)
    ensures Accepts(c, w.sys, IngestOf(w.txs[g]))
    ensures Step(c, cfg, lim, w, Commit(g)).sys == Apply(c, cfg, w.sys, IngestOf(w.txs[g]))
  {
    var tx := w.txs[g];
    TxIsOk(c, cfg, lim, w, g);
    AdmittedIsAccepted(c, cfg, w.sys, w.nextId, tx);
    CommitStep(c, cfg, lim, w, g, tx, Apply(c, cfg, w.sys, IngestOf(tx)));
  }

  lemma TxIsOk(c: Crypto, cfg: Config, lim: Limits, w: World, g: Gateway)
    requires WorldOk(c, cfg, lim, w) && g in w.txs
    ensures TxOk(c, w.sys, w.nextId, w.txs[g])
  {
  }

  lemma CommitStep(c: Crypto, cfg: Config, lim: Limits, w: World, g: Gateway, tx: Tx, next: Sys)
    requires In(w, g, Admitted) && tx == w.txs[g] && Sane(tx)
    requires next == w.sys.(cells := Ingested(w.sys.cells, tx.meta, tx.m, tx.alloc, tx.at, tx.enabled))
    ensures Step(c, cfg, lim, w, Commit(g)) == Abort(w, g).(sys := next)
  {
  }

  lemma AllocatesStill(c: Crypto, sys: Sys, nextId: nat, tx: Tx)
    requires TxOk(c, sys, nextId, tx) && HasInserted(tx)
    ensures Allocates(sys.cells, tx.meta.tenant, tx.m, tx.alloc)
  {
    forall e | e in tx.alloc.Values ensures e in tx.m.Keys - StoredIds(sys.cells, tx.meta.tenant) {
      var id :| id in tx.alloc && tx.alloc[id] == e;
    }
  }

  lemma CommitIsUnion(c: Crypto, cfg: Config, sys: Sys, nextId: nat, tx: Tx)
    requires Inv(c, cfg, sys) && TxOk(c, sys, nextId, tx)
    ensures Ingested(sys.cells, tx.meta, tx.m, tx.alloc, tx.at, tx.enabled) == Visible(sys.cells, tx)
  {
    forall id <- sys.cells ensures EnqueueCell(sys.cells[id], tx.at, tx.enabled) == sys.cells[id] {
      StoredCellIsCoupled(c, cfg, sys, id);
      EnqueueIsIdempotent(sys.cells[id], tx.at, tx.enabled);
    }
    UnionOf(sys.cells, tx);
  }

  lemma StoredCellIsCoupled(c: Crypto, cfg: Config, sys: Sys, id: Id)
    requires Inv(c, cfg, sys) && id in sys.cells
    ensures Coupled(sys.cells[id])
  {
    assert CellOk(c, cfg, sys, sys.cells[id]);
  }

  lemma UnionOf(cells: map<Id, Cell>, tx: Tx)
    requires Sane(tx) && tx.alloc.Keys !! cells.Keys
    requires forall id <- cells :: EnqueueCell(cells[id], tx.at, tx.enabled) == cells[id]
    ensures Ingested(cells, tx.meta, tx.m, tx.alloc, tx.at, tx.enabled) == Visible(cells, tx)
  {
    var a, b := Ingested(cells, tx.meta, tx.m, tx.alloc, tx.at, tx.enabled), Visible(cells, tx);
    UnionKeys(cells, tx);
    forall id <- a ensures a[id] == b[id] {
      UnionAt(cells, tx, id);
    }
    SameCells(a, b);
  }

  lemma UnionKeys(cells: map<Id, Cell>, tx: Tx)
    requires Sane(tx)
    ensures Ingested(cells, tx.meta, tx.m, tx.alloc, tx.at, tx.enabled).Keys == cells.Keys + tx.alloc.Keys == Visible(cells, tx).Keys
  {
  }

  lemma SameCells(a: map<Id, Cell>, b: map<Id, Cell>)
    requires a.Keys == b.Keys && forall id <- a :: a[id] == b[id]
    ensures a == b
  {
  }

  lemma UnionAt(cells: map<Id, Cell>, tx: Tx, id: Id)
    requires Sane(tx) && tx.alloc.Keys !! cells.Keys && id in cells.Keys + tx.alloc.Keys
    requires id in cells ==> EnqueueCell(cells[id], tx.at, tx.enabled) == cells[id]
    ensures Ingested(cells, tx.meta, tx.m, tx.alloc, tx.at, tx.enabled)[id] == Visible(cells, tx)[id]
  {
    if id in cells { assert id !in tx.alloc; }
  }

  predicate NewKeys(all: map<Id, Cell>, tx: Tx) {
    forall id <- tx.alloc :: id in all && all[id].row.stored.tenant == tx.meta.tenant && all[id].row.stored.eventId == tx.alloc[id]
  }

  lemma NewCellKey(meta: Meta, p: Prepared, at: int, enabled: bool)
    ensures NewCell(meta, p, at, enabled).row.stored == p.stored
  {
  }

  lemma CommitKeys(c: Crypto, sys: Sys, nextId: nat, tx: Tx)
    requires TxOk(c, sys, nextId, tx)
    ensures NewKeys(Visible(sys.cells, tx), tx)
  {
    var all := Visible(sys.cells, tx);
    forall id <- tx.alloc
      ensures id in all && all[id].row.stored.tenant == tx.meta.tenant && all[id].row.stored.eventId == tx.alloc[id]
    {
      var p := tx.m[tx.alloc[id]];
      PreparedEntries(c, tx.ring, tx.meta, tx.events, tx.alloc[id]);
      NewCellKey(tx.meta, p, tx.at, tx.enabled);
      assert all[id] == NewCell(tx.meta, p, tx.at, tx.enabled);
    }
  }

  lemma StoredAfterCommit(cells: map<Id, Cell>, tx: Tx, all: map<Id, Cell>, tenant: string)
    requires Sane(tx) && tx.alloc.Keys !! cells.Keys && all == Visible(cells, tx) && NewKeys(all, tx)
    ensures StoredIds(all, tenant) == StoredIds(cells, tenant) + (if tenant == tx.meta.tenant then tx.alloc.Values else {})
  {
    forall e | e in StoredIds(all, tenant) ensures e in StoredIds(cells, tenant) || (tenant == tx.meta.tenant && e in tx.alloc.Values) {
      var id := HolderOf(all, tenant, e);
      KeyComesFrom(cells, tx, all, id);
    }
    forall e | e in StoredIds(cells, tenant) ensures e in StoredIds(all, tenant) {
      OldKeyStays(cells, tx, all, tenant, e);
    }
    if tenant == tx.meta.tenant {
      forall e | e in tx.alloc.Values ensures e in StoredIds(all, tenant) {
        NewKeyIsStored(tx, all, e);
      }
    }
  }

  lemma KeyComesFrom(cells: map<Id, Cell>, tx: Tx, all: map<Id, Cell>, id: Id)
    requires Sane(tx) && tx.alloc.Keys !! cells.Keys && all == Visible(cells, tx) && NewKeys(all, tx) && id in all
    ensures var k := all[id].row.stored;
            k.eventId in StoredIds(cells, k.tenant) || (k.tenant == tx.meta.tenant && k.eventId in tx.alloc.Values)
  {
    if id in tx.alloc {
      assert tx.alloc[id] in tx.alloc.Values;
    } else {
      assert all[id] == cells[id];
      StoredUnderId(cells, id);
    }
  }

  lemma OldKeyStays(cells: map<Id, Cell>, tx: Tx, all: map<Id, Cell>, tenant: string, e: string)
    requires Sane(tx) && tx.alloc.Keys !! cells.Keys && all == Visible(cells, tx) && e in StoredIds(cells, tenant)
    ensures e in StoredIds(all, tenant)
  {
    var id := HolderOf(cells, tenant, e);
    assert id in all && all[id] == cells[id];
    StoredUnderId(all, id);
  }

  lemma NewKeyIsStored(tx: Tx, all: map<Id, Cell>, e: string)
    requires NewKeys(all, tx) && e in tx.alloc.Values
    ensures e in StoredIds(all, tx.meta.tenant)
  {
    var id :| id in tx.alloc && tx.alloc[id] == e;
    StoredUnderId(all, id);
  }

  /** Another gateway's commit brings no key this transaction inserted or has already verified. */
  lemma TxSurvivesCommit(c: Crypto, cfg: Config, sys: Sys, nextId: nat, tx: Tx, other: Tx)
    requires Inv(c, cfg, sys) && TxOk(c, sys, nextId, tx) && TxOk(c, sys, nextId, other)
    requires Disjoint(tx, other)
    ensures TxOk(c, sys.(cells := Visible(sys.cells, tx)), nextId, other)
  {
    CommitKeys(c, sys, nextId, tx);
    var all := Visible(sys.cells, tx);
    StoredAfterCommit(sys.cells, tx, all, other.meta.tenant);
    assert Owns(all, nextId, other);
    NoNewHits(c, sys.cells, all, tx, other, other.known);
    if HasVerified(other) { NoNewHits(c, sys.cells, all, tx, other, other.m.Keys); }
  }

  lemma NoNewHits(c: Crypto, cells: map<Id, Cell>, all: map<Id, Cell>, tx: Tx, other: Tx, ids: set<string>)
    requires Sane(tx) && all == Visible(cells, tx) && Disjoint(tx, other)
    requires NewKeys(all, tx) && forall id <- tx.alloc :: tx.alloc[id] !in StoredIds(cells, tx.meta.tenant)
    requires ids <= other.alloc.Values + StoredIds(cells, other.meta.tenant)
    requires HitsMatch(c, other.ring, other.meta, other.m, cells, ids)
    ensures HitsMatch(c, other.ring, other.meta, other.m, all, ids)
  {
    forall id <- all | Hits(all[id], other.meta.tenant, other.m) && all[id].row.stored.eventId in ids
      ensures Matches(c, other.ring, other.meta, other.m[all[id].row.stored.eventId].submission, all[id].row.stored)
    {
      assert id !in tx.alloc;
      assert all[id] == cells[id];
    }
  }

  lemma OthersStayConfirmed(c: Crypto, cfg: Config, lim: Limits, w: World, g: Gateway, h: Gateway, next: map<Id, Cell>)
    requires WorldOk(c, cfg, lim, w) && In(w, g, Admitted) && h in w.txs && h != g
    requires w.txs[g].alloc == map[] ==> next == w.sys.cells
    ensures Sane(w.txs[h]) && Confirmed(lim, next, w.nextId, w.txs[h])
  {
    assert TxOk(c, w.sys, w.nextId, w.txs[h]);
    assert Confirmed(lim, w.sys.cells, w.nextId, w.txs[h]);
    if w.txs[g].alloc != map[] {
      assert HoldsLock(w.txs[g]);
      assert !HoldsLock(w.txs[h]);
    }
  }

  lemma UnionBounds(cells: map<Id, Cell>, nextId: nat, tx: Tx)
    requires Owns(cells, nextId, tx) && forall id <- cells :: id < nextId
    ensures forall id <- Visible(cells, tx) :: id < nextId
    ensures tx.alloc == map[] ==> Visible(cells, tx) == cells
  {
    assert Visible(cells, tx).Keys == cells.Keys + tx.alloc.Keys;
  }

  /** Only the lock holder adds rows, and it has counted them. */
  lemma CommitWithinLimits(c: Crypto, cfg: Config, lim: Limits, w: World, g: Gateway, next: map<Id, Cell>)
    requires WorldOk(c, cfg, lim, w) && In(w, g, Admitted) && Sane(w.txs[g]) && next == Visible(w.sys.cells, w.txs[g])
    ensures WithinLimits(lim, next, w.nextId)
    ensures forall id <- next :: id < w.nextId
    ensures w.txs[g].alloc == map[] ==> next == w.sys.cells
  {
    var tx := w.txs[g];
    assert Owns(w.sys.cells, w.nextId, tx) by { assert TxOk(c, w.sys, w.nextId, tx); }
    UnionBounds(w.sys.cells, w.nextId, tx);
    assert Confirmed(lim, w.sys.cells, w.nextId, tx);
  }

  lemma CommitKeepsInv(c: Crypto, cfg: Config, sys: Sys, nextId: nat, tx: Tx, next: Sys)
    requires Inv(c, cfg, sys) && TxOk(c, sys, nextId, tx) && tx.phase.Admitted?
    requires next == sys.(cells := Visible(sys.cells, tx))
    ensures Inv(c, cfg, next)
  {
    AdmittedIsAccepted(c, cfg, sys, nextId, tx);
    CommitIsUnion(c, cfg, sys, nextId, tx);
    assert Apply(c, cfg, sys, IngestOf(tx)) == next;
    ApplyKeepsInv(c, cfg, sys, IngestOf(tx));
  }

  lemma OthersSurviveCommit(c: Crypto, cfg: Config, lim: Limits, w: World, g: Gateway, tx: Tx, next: Sys, h: Gateway)
    requires WorldOk(c, cfg, lim, w) && In(w, g, Admitted) && tx == w.txs[g] && TxOk(c, w.sys, w.nextId, tx)
    requires next == w.sys.(cells := Visible(w.sys.cells, tx))
    requires w.txs[g].alloc == map[] ==> next.cells == w.sys.cells
    requires h in w.txs && h != g
    ensures TxOk(c, next, w.nextId, w.txs[h]) && Confirmed(lim, next.cells, w.nextId, w.txs[h])
  {
    assert TxOk(c, w.sys, w.nextId, w.txs[h]);
    TxSurvivesCommit(c, cfg, w.sys, w.nextId, tx, w.txs[h]);
    OthersStayConfirmed(c, cfg, lim, w, g, h, next.cells);
  }

  lemma CommitKeeps(c: Crypto, cfg: Config, lim: Limits, w: World, g: Gateway)
    requires WorldOk(c, cfg, lim, w)
    ensures WorldOk(c, cfg, lim, Step(c, cfg, lim, w, Commit(g)))
  {
    if In(w, g, Admitted) {
      var tx := w.txs[g];
      assert TxOk(c, w.sys, w.nextId, tx);
      var next := w.sys.(cells := Visible(w.sys.cells, tx));
      CommitKeepsInv(c, cfg, w.sys, w.nextId, tx, next);
      CommitWithinLimits(c, cfg, lim, w, g, next.cells);
      forall h <- w.txs | h != g ensures TxOk(c, next, w.nextId, w.txs[h]) && Confirmed(lim, next.cells, w.nextId, w.txs[h]) {
        OthersSurviveCommit(c, cfg, lim, w, g, tx, next, h);
      }
      CommittedOk(c, cfg, lim, w, g, next);
      CommitIsUnion(c, cfg, w.sys, w.nextId, tx);
      CommitStep(c, cfg, lim, w, g, tx, next);
    }
  }

  lemma CommittedOk(c: Crypto, cfg: Config, lim: Limits, w: World, g: Gateway, next: Sys)
    requires WorldOk(c, cfg, lim, w) && g in w.txs && Inv(c, cfg, next)
    requires forall id <- next.cells :: id < w.nextId
    requires WithinLimits(lim, next.cells, w.nextId)
    requires forall h <- w.txs :: h != g ==> TxOk(c, next, w.nextId, w.txs[h]) && Confirmed(lim, next.cells, w.nextId, w.txs[h])
    ensures WorldOk(c, cfg, lim, Abort(w, g).(sys := next))
  {
  }

  // ----- whole runs -----

  lemma StepKeeps(c: Crypto, cfg: Config, lim: Limits, w: World, move: Move)
    requires WorldOk(c, cfg, lim, w)
    ensures WorldOk(c, cfg, lim, Step(c, cfg, lim, w, move))
  {
    match move
    case Begin(_, _, _, _, _) => BeginKeeps(c, cfg, lim, w, move);
    case ReadExisting(g) => ReadKeeps(c, cfg, lim, w, g);
    case Upsert(g, alloc, next) => UpsertKeeps(c, cfg, lim, w, g, alloc, next);
    case ReadRaced(g) => RacedKeeps(c, cfg, lim, w, g);
    case TakeLock(g) => LockKeeps(c, cfg, lim, w, g);
    case CountLive(g) => CountKeeps(c, cfg, lim, w, g);
    case SumBytes(g) => BytesKeep(c, cfg, lim, w, g);
    case Commit(g) => CommitKeeps(c, cfg, lim, w, g);
    case Rollback(g) => AbortKeeps(c, cfg, lim, w, g);
    case Other(a) => if !a.Ingest? { OtherKeeps(c, cfg, lim, w, a); }
  }

  lemma {:induction false} RunsKeep(c: Crypto, cfg: Config, lim: Limits, w: World, moves: seq<Move>)
    requires WorldOk(c, cfg, lim, w)
    ensures WorldOk(c, cfg, lim, Exec(c, cfg, lim, w, moves))
    decreases |moves|
  {
    if moves != [] {
      StepKeeps(c, cfg, lim, w, moves[0]);
      RunsKeep(c, cfg, lim, Step(c, cfg, lim, w, moves[0]), moves[1..]);
    }
  }

  /**
   * In every interleaving, every committed state keeps unfinished events and unpruned raw bytes
   * within the configured limits.
   */
  lemma CapacityHolds(c: Crypto, cfg: Config, lim: Limits, now: int, moves: seq<Move>)
    ensures var w := Exec(c, cfg, lim, Quiet(now), moves);
            |UnfinishedCells(w.sys.cells)| <= lim.maxLive && ByteCount(w.sys.cells, w.nextId) <= lim.maxRawBytes
    ensures var w := Exec(c, cfg, lim, Quiet(now), moves); forall id <- w.sys.cells :: id < w.nextId
  {
    EmptySystemOk(c, cfg, now);
    assert WorldOk(c, cfg, lim, Quiet(now));
    RunsKeep(c, cfg, lim, Quiet(now), moves);
    var w := Exec(c, cfg, lim, Quiet(now), moves);
    LiveCountIs(w.sys.cells, w.nextId);
  }

  /**
   * A request is refused for its row count exactly when the unfinished events it sees, its own
   * among them, exceed the limit: delivered and dead-lettered rows never stand in its way.
   */
  lemma RefusedIffTooManyUnfinished(c: Crypto, cfg: Config, lim: Limits, w: World, g: Gateway)
    requires WorldOk(c, cfg, lim, w) && In(w, g, Locked)
    ensures Sane(w.txs[g])
    ensures var v := Step(c, cfg, lim, w, CountLive(g));
            && (|UnfinishedCells(Visible(w.sys.cells, w.txs[g]))| <= lim.maxLive ==> In(v, g, Counted))
            && (|UnfinishedCells(Visible(w.sys.cells, w.txs[g]))| > lim.maxLive ==> g !in v.txs && v.sys == w.sys)
  {
    var tx := w.txs[g];
    TxIsOk(c, cfg, lim, w, g);
    UnionBounds(w.sys.cells, w.nextId, tx);
    LiveCountIs(Visible(w.sys.cells, tx), w.nextId);
    CountStep(c, cfg, lim, w, g, LiveCount(Visible(w.sys.cells, tx), w.nextId));
    TruncationDecides(LiveCount(Visible(w.sys.cells, tx), w.nextId), lim.maxLive);
  }

  /** After the count, it is refused exactly when the raw bytes it sees exceed the limit. */
  lemma RefusedIffTooManyBytes(c: Crypto, cfg: Config, lim: Limits, w: World, g: Gateway)
    requires WorldOk(c, cfg, lim, w) && In(w, g, Counted)
    ensures Sane(w.txs[g])
    ensures var v := Step(c, cfg, lim, w, SumBytes(g));
            && (ByteCount(Visible(w.sys.cells, w.txs[g]), w.nextId) <= lim.maxRawBytes ==> In(v, g, Admitted))
            && (ByteCount(Visible(w.sys.cells, w.txs[g]), w.nextId) > lim.maxRawBytes ==> g !in v.txs && v.sys == w.sys)
  {
    TxIsOk(c, cfg, lim, w, g);
    BytesStep(c, cfg, lim, w, g, w.txs[g]);
  }

  /** The committed part of one move is one atomic action of the delivery protocol, or nothing. */
  lemma MoveIsAction(c: Crypto, cfg: Config, lim: Limits, w: World, move: Move)
    requires WorldOk(c, cfg, lim, w)
    ensures var next := Step(c, cfg, lim, w, move).sys;
            next == w.sys || exists a :: next == Apply(c, cfg, w.sys, a)
  {
    match move
    case Commit(g) => if In(w, g, Admitted) { CommitIsIngest(c, cfg, lim, w, g); }
    case _ =>
  }

  /**
   * Interleaved gateways refine the atomic protocol: whatever they and the workers do, the
   * committed state is one that the atomic actions reach, so every theorem about those holds.
   */
  lemma {:induction false} RunsRefine(c: Crypto, cfg: Config, lim: Limits, w: World, moves: seq<Move>)
    requires WorldOk(c, cfg, lim, w) && DeliveryTheorems.Reachable(c, cfg, w.sys)
    ensures DeliveryTheorems.Reachable(c, cfg, Exec(c, cfg, lim, w, moves).sys)
    decreases |moves|
  {
    if moves != [] {
      var v := Step(c, cfg, lim, w, moves[0]);
      StepKeeps(c, cfg, lim, w, moves[0]);
      MoveIsAction(c, cfg, lim, w, moves[0]);
      if v.sys != w.sys {
        var a :| v.sys == Apply(c, cfg, w.sys, a);
        var now, actions :| w.sys == DeliveryRuns.Exec(c, cfg, EmptySystem(now), actions);
        ExecSnoc(c, cfg, EmptySystem(now), actions, a);
      }
      RunsRefine(c, cfg, lim, v, moves[1..]);
    }
  }

  predicate StoresEvent(cell: Cell, meta: Meta, s: Submission) {
    && cell.row.stored.tenant == meta.tenant
    && cell.row.stored.eventId == s.eventId
    && cell.accepted == IdentityOf(meta, s)
  }

  predicate Stores(cells: map<Id, Cell>, meta: Meta, s: Submission) {
    exists id <- cells :: StoresEvent(cells[id], meta, s)
  }

  /** From the empty inbox on: the committed state of any interleaving is a reachable protocol state. */
  lemma CommittedIsReachable(c: Crypto, cfg: Config, lim: Limits, now: int, moves: seq<Move>)
    ensures DeliveryTheorems.Reachable(c, cfg, Exec(c, cfg, lim, Quiet(now), moves).sys)
  {
    EmptySystemOk(c, cfg, now);
    assert WorldOk(c, cfg, lim, Quiet(now));
    assert DeliveryRuns.Exec(c, cfg, EmptySystem(now), []) == EmptySystem(now);
    RunsRefine(c, cfg, lim, Quiet(now), moves);
  }

  /** What a commit of `tx` promises about the table after it. */
  ghost predicate BatchStored(c: Crypto, sys: Sys, tx: Tx, after: map<Id, Cell>) {
    && (forall id <- sys.cells :: id in after && after[id] == sys.cells[id])
    && after.Keys == sys.cells.Keys + tx.alloc.Keys
    && (forall i :: 0 <= i < |tx.events| ==> Stores(after, tx.meta, tx.events[i]))
    && Respond(c, sys, tx.meta, tx.events, tx.ring)
       == Ok(InsertResult(|tx.events|, |tx.alloc.Values|, |tx.events| - |tx.alloc.Values|))
  }

  lemma UnionStoresBatch(c: Crypto, cfg: Config, sys: Sys, nextId: nat, tx: Tx)
    requires Inv(c, cfg, sys) && TxOk(c, sys, nextId, tx) && HasVerified(tx) && Injective(c)
    ensures BatchStored(c, sys, tx, Visible(sys.cells, tx))
  {
    VisibleFrame(sys.cells, nextId, tx);
    CommitResponse(c, sys, nextId, tx);
    forall i | 0 <= i < |tx.events| ensures Stores(Visible(sys.cells, tx), tx.meta, tx.events[i]) {
      EventIsStored(c, cfg, sys, nextId, tx, i);
    }
  }

  /**
   * A committed batch: every event id of it is stored with the submitted identity, no earlier
   * row changed, and the acknowledgement counts the inserted rows and calls the rest duplicates.
   */
  lemma CommitStoresBatch(c: Crypto, cfg: Config, lim: Limits, w: World, g: Gateway)
    requires WorldOk(c, cfg, lim, w) && In(w, g, Admitted) && Injective(c)
    ensures BatchStored(c, w.sys, w.txs[g], Step(c, cfg, lim, w, Commit(g)).sys.cells)
  {
    CommitMakes(c, cfg, lim, w, g);
    UnionStoresBatch(c, cfg, w.sys, w.nextId, w.txs[g]);
  }

  lemma VisibleFrame(cells: map<Id, Cell>, nextId: nat, tx: Tx)
    requires Owns(cells, nextId, tx)
    ensures Visible(cells, tx).Keys == cells.Keys + tx.alloc.Keys
    ensures forall id <- cells :: Visible(cells, tx)[id] == cells[id]
  {
  }

  lemma MatchedBatch(c: Crypto, ring: Option<KeyRing>, meta: Meta, m: map<string, Prepared>, cells: map<Id, Cell>)
    requires HitsMatch(c, ring, meta, m, cells, m.Keys)
    ensures AllMatch(c, ring, meta, cells, m)
  {
  }

  lemma ResponseTo(c: Crypto, sys: Sys, meta: Meta, events: seq<Submission>, ring: Option<KeyRing>, m: map<string, Prepared>, alloc: map<Id, string>)
    requires PrepareAll(c, ring, meta, events) == Ok(m) && AllMatch(c, ring, meta, sys.cells, m)
    requires Allocates(sys.cells, meta.tenant, m, alloc)
    ensures Respond(c, sys, meta, events, ring) == Ok(InsertResult(|events|, |alloc.Values|, |events| - |alloc.Values|))
  {
  }

  lemma CommitResponse(c: Crypto, sys: Sys, nextId: nat, tx: Tx)
    requires TxOk(c, sys, nextId, tx) && HasVerified(tx)
    ensures Respond(c, sys, tx.meta, tx.events, tx.ring)
            == Ok(InsertResult(|tx.events|, |tx.alloc.Values|, |tx.events| - |tx.alloc.Values|))
  {
    AllocatesStill(c, sys, nextId, tx);
    MatchedBatch(c, tx.ring, tx.meta, tx.m, sys.cells);
    ResponseTo(c, sys, tx.meta, tx.events, tx.ring, tx.m, tx.alloc);
  }

  lemma CommitMakes(c: Crypto, cfg: Config, lim: Limits, w: World, g: Gateway)
    requires WorldOk(c, cfg, lim, w) && In(w, g, Admitted)
    ensures TxOk(c, w.sys, w.nextId, w.txs[g])
    ensures Step(c, cfg, lim, w, Commit(g)).sys.cells == Visible(w.sys.cells, w.txs[g])
  {
    var tx := w.txs[g];
    TxIsOk(c, cfg, lim, w, g);
    CommitIsUnion(c, cfg, w.sys, w.nextId, tx);
    CommitStep(c, cfg, lim, w, g, tx, w.sys.(cells := Visible(w.sys.cells, tx)));
  }

  lemma EventIsStored(c: Crypto, cfg: Config, sys: Sys, nextId: nat, tx: Tx, i: nat)
    requires Inv(c, cfg, sys) && TxOk(c, sys, nextId, tx) && HasVerified(tx) && Injective(c) && i < |tx.events|
    ensures Stores(Visible(sys.cells, tx), tx.meta, tx.events[i])
  {
    var e := tx.events[i].eventId;
    PrepareAllIff(c, tx.ring, tx.meta, tx.events);
    assert e in tx.m && IdentityOf(tx.meta, tx.m[e].submission) == IdentityOf(tx.meta, tx.events[i]);
    assert tx.m[e].submission.eventId == e by { PreparedEntries(c, tx.ring, tx.meta, tx.events, e); }
    var id := StoredUnder(c, cfg, sys, nextId, tx, e);
    assert StoresEvent(Visible(sys.cells, tx)[id], tx.meta, tx.events[i]);
  }

  lemma StoredUnder(c: Crypto, cfg: Config, sys: Sys, nextId: nat, tx: Tx, e: string) returns (id: Id)
    requires Inv(c, cfg, sys) && TxOk(c, sys, nextId, tx) && HasVerified(tx) && Injective(c) && e in tx.m
    requires tx.m[e].submission.eventId == e
    ensures id in Visible(sys.cells, tx) && StoresEvent(Visible(sys.cells, tx)[id], tx.meta, tx.m[e].submission)
  {
    if e in tx.alloc.Values {
      id :| id in tx.alloc && tx.alloc[id] == e;
      CommitKeys(c, sys, nextId, tx);
      assert Visible(sys.cells, tx)[id] == NewCell(tx.meta, tx.m[e], tx.at, tx.enabled);
      NewCellIdentity(tx.meta, tx.m[e], tx.at, tx.enabled);
    } else {
      id :| id in sys.cells && sys.cells[id].row.stored.tenant == tx.meta.tenant && sys.cells[id].row.stored.eventId == e;
      assert Hits(sys.cells[id], tx.meta.tenant, tx.m);
      StoredIdentityIs(c, cfg, sys, tx.ring, tx.meta, tx.m[e].submission, id);
      VisibleFrame(sys.cells, nextId, tx);
    }
  }

  lemma NewCellIdentity(meta: Meta, p: Prepared, at: int, enabled: bool)
    ensures NewCell(meta, p, at, enabled).accepted == IdentityOf(meta, p.submission)
  {
  }

  lemma StoredIdentityIs(c: Crypto, cfg: Config, sys: Sys, ring: Option<KeyRing>, meta: Meta, s: Submission, id: Id)
    requires Inv(c, cfg, sys) && Injective(c) && RingOf(ring, sys.keys) && id in sys.cells
    requires sys.cells[id].row.stored.tenant == meta.tenant && Matches(c, ring, meta, s, sys.cells[id].row.stored)
    ensures sys.cells[id].accepted == IdentityOf(meta, s)
  {
    assert CellOk(c, cfg, sys, sys.cells[id]);
    MatchIsIdentity(c, ring, sys.keys, meta, s, sys.cells[id].accepted, sys.cells[id].row.stored);
  }

  /** A transaction that does not commit leaves the committed state as it was. */
  lemma OnlyCommitsStore(c: Crypto, cfg: Config, lim: Limits, w: World, move: Move)
    requires !move.Commit? && !move.Other?
    ensures Step(c, cfg, lim, w, move).sys == w.sys
  {
  }
}
