/**
 Any number of clients in bulk_upsert at once.

 A transaction takes its snapshot with its first statement, before it owns the advisory lock, and
 reads nothing newer (REPEATABLE READ).  A flush writes only the columns that differ from the
 snapshot.  It goes through only if no row it updates has changed since and no other transaction
 holds the row or is inserting the same key; a key that was committed in the meantime makes it
 fail, and the rollback gives up the lock.  The lock id is an arbitrary function of the client:
 the source's hash differs between processes, so nothing below relies on it.
 */
module UpsertProtocol {
  import opened BulkUpsert
  import opened Options

  type Client = nat

  datatype Config = Config(
    initial: Table,
    columns: set<string>,                // the plain columns of every row and every entry
    batch: map<Client, seq<Entry>>,      // each client's deduplicated batch
    lockId: Client -> int)

  datatype Tx =
    | Ready
    | Waiting(snapshot: Table)
    | Locked(snapshot: Table)
    | Uncommitted(snapshot: Table, updates: map<Id, Fields>, inserts: Table)
    | Ended

  /** `live` are the keys this attempt stages: the whole batch at first, then what was pending. */
  datatype Call = Call(tx: Tx, live: set<Key>, failures: nat)

  datatype State = State(committed: Table, calls: map<Client, Call>)

  datatype Step =
    | Begin(c: Client)
    | Acquire(c: Client)
    | Flush(c: Client, ids: map<Id, Key>)  // the ids given to the inserted keys
    | Collide(c: Client)                   // IntegrityError and rollback
    | Commit(c: Client)
    | Abort(c: Client)                     // any other error, at any time

  function KeysOf(es: seq<Entry>): set<Key> { set e | e in es :: e.key }

  function KeysIn(t: Table): set<Key> { set id | id in t :: t[id].key }

  ghost predicate WellFormed(t: Table, columns: set<string>) {
    UniqueKeys(t) && forall id | id in t :: t[id].fields.Keys == columns
  }

  ghost predicate ValidConfig(cfg: Config) {
    && WellFormed(cfg.initial, cfg.columns)
    && forall c | c in cfg.batch ::
         && DistinctKeys(cfg.batch[c])
         && forall e | e in cfg.batch[c] :: e.fields.Keys == cfg.columns
  }

  function Init(cfg: Config): State {
    State(cfg.initial, map c | c in cfg.batch :: Call(Ready, KeysOf(cfg.batch[c]), 0))
  }

  // ---------- what an attempt writes ----------

  function Delta(before: Fields, after: Fields): Fields {
    map col | col in after && (col !in before || before[col] != after[col]) :: after[col]
  }

  /** The pending keys: those the snapshot has no row for. */
  function Fresh(snapshot: Table, live: set<Key>): set<Key> { live - KeysIn(snapshot) }

  /** The columns each row found in the snapshot gets; a row that is already right is not written. */
  function Updates(snapshot: Table, batch: seq<Entry>, live: set<Key>): map<Id, Fields> {
    map id | id in snapshot && snapshot[id].key in live && EntryFor(batch, snapshot[id].key).Some?
             && Delta(snapshot[id].fields, EntryFor(batch, snapshot[id].key).value.fields) != map[]
      :: Delta(snapshot[id].fields, EntryFor(batch, snapshot[id].key).value.fields)
  }

  function Inserts(batch: seq<Entry>, ids: map<Id, Key>): Table {
    map id | id in ids && EntryFor(batch, ids[id]).Some? :: NewRow(EntryFor(batch, ids[id]).value)
  }

  function Published(committed: Table, updates: map<Id, Fields>, inserts: Table): Table {
    map id | id in committed.Keys + inserts.Keys ::
      if id in inserts then inserts[id]
      else if id in updates then committed[id].(fields := committed[id].fields + updates[id])
      else committed[id]
  }

  // ---------- the steps ----------

  predicate HoldsLock(s: Call) { s.tx.Locked? || s.tx.Uncommitted? }

  /** Each fresh key gets one id, and each id is new. */
  ghost predicate NewIdsFor(ids: map<Id, Key>, keys: set<Key>, committed: Table) {
    && ids.Values == keys
    && (forall a, b | a in ids && b in ids && ids[a] == ids[b] :: a == b)
    && (forall id | id in ids :: id !in committed)
  }

  /** No row lock or uncommitted key of `other` stands in the way. */
  ghost predicate Unblocked(updates: map<Id, Fields>, inserts: Table, other: Call) {
    other.tx.Uncommitted? ==>
      && updates.Keys !! other.tx.updates.Keys
      && inserts.Keys !! other.tx.inserts.Keys
      && KeysIn(inserts) !! KeysIn(other.tx.inserts)
  }

  ghost predicate Enabled(cfg: Config, s: State, step: Step) {
    && step.c in s.calls && step.c in cfg.batch
    && var me := s.calls[step.c];
       match step
       case Begin(c) => me.tx.Ready?
       case Acquire(c) =>
         && me.tx.Waiting?
         && forall d | d in s.calls && d != c && cfg.lockId(d) == cfg.lockId(c) :: !HoldsLock(s.calls[d])
       case Flush(c, ids) =>
         && me.tx.Locked?
         && (ids != map[] ==> me.failures < MAX_RETRIES)
         && NewIdsFor(ids, Fresh(me.tx.snapshot, me.live), s.committed)
         && ids.Values !! KeysIn(s.committed)
         && var updates := Updates(me.tx.snapshot, cfg.batch[c], me.live);
            && (forall id | id in updates :: id in s.committed && s.committed[id] == me.tx.snapshot[id])
            && (forall d | d in s.calls && d != c :: Unblocked(updates, Inserts(cfg.batch[c], ids), s.calls[d]))
       case Collide(c) =>
         && me.tx.Locked? && me.failures < MAX_RETRIES
         && exists key | key in Fresh(me.tx.snapshot, me.live) :: key in KeysIn(s.committed)
       case Commit(c) => me.tx.Uncommitted?
       case Abort(c) => !me.tx.Ended?
  }

  ghost function Apply(cfg: Config, s: State, step: Step): State
    requires Enabled(cfg, s, step)
  {
    var me := s.calls[step.c];
    match step
    case Begin(c) => s.(calls := s.calls[c := me.(tx := Waiting(s.committed))])
    case Acquire(c) => s.(calls := s.calls[c := me.(tx := Locked(me.tx.snapshot))])
    case Flush(c, ids) =>
      var updates := Updates(me.tx.snapshot, cfg.batch[c], me.live);
      s.(calls := s.calls[c := me.(tx := Uncommitted(me.tx.snapshot, updates, Inserts(cfg.batch[c], ids)))])
    case Collide(c) =>
      s.(calls := s.calls[c := Call(Ready, Fresh(me.tx.snapshot, me.live), me.failures + 1)])
    case Commit(c) =>
      State(Published(s.committed, me.tx.updates, me.tx.inserts), s.calls[c := me.(tx := Ended)])
    case Abort(c) => s.(calls := s.calls[c := me.(tx := Ended)])
  }

  ghost predicate Runs(cfg: Config, s: State, steps: seq<Step>)
    decreases |steps|
  {
    steps != [] ==> Enabled(cfg, s, steps[0]) && Runs(cfg, Apply(cfg, s, steps[0]), steps[1..])
  }

  ghost function Exec(cfg: Config, s: State, steps: seq<Step>): State
    requires Runs(cfg, s, steps)
    decreases |steps|
  {
    if steps == [] then s else Exec(cfg, Apply(cfg, s, steps[0]), steps[1..])
  }

  // ---------- the invariant ----------

  /** The row's plain fields are those of one entry of one batch, or it was never written. */
  ghost predicate Authored(cfg: Config, id: Id, row: Row) {
    || (id in cfg.initial && row == cfg.initial[id])
    || exists c, e :: c in cfg.batch && e in cfg.batch[c] && e.key == row.key && e.fields == row.fields
  }

  /** What a session's snapshot has to do with the table as it is now. */
  ghost predicate SnapshotOk(cfg: Config, committed: Table, snapshot: Table) {
    WellFormed(snapshot, cfg.columns) && Grows(snapshot, committed)
  }

  /** Uncommitted writes wait for rows that stay as they were and keys that stay free. */
  ghost predicate WritesOk(cfg: Config, committed: Table, c: Client, s: Call)
    requires c in cfg.batch && s.tx.Uncommitted?
  {
    && s.tx.updates == Updates(s.tx.snapshot, cfg.batch[c], s.live)
    && (forall id | id in s.tx.updates :: id in committed && committed[id] == s.tx.snapshot[id])
    && UniqueKeys(s.tx.inserts) && s.tx.inserts.Keys !! committed.Keys
    && KeysIn(s.tx.inserts) !! KeysIn(committed)
    && KeysIn(s.tx.inserts) == Fresh(s.tx.snapshot, s.live)
    && forall id | id in s.tx.inserts ::
         exists e :: e in cfg.batch[c] && s.tx.inserts[id] == NewRow(e)
  }

  /** Every failed flush met a key that the next snapshot will show. */
  ghost predicate CountOk(cfg: Config, committed: Table, c: Client, s: Call)
    requires c in cfg.batch
  {
    && s.failures <= MAX_RETRIES && s.live <= KeysOf(cfg.batch[c])
    && match s.tx
       case Ready =>
         if s.failures == 0 then |s.live| <= |cfg.batch[c]|
         else |s.live| + s.failures <= |cfg.batch[c]| + 1 && !(s.live !! KeysIn(committed))
       case Waiting(snapshot) => |Fresh(snapshot, s.live)| + s.failures <= |cfg.batch[c]|
       case Locked(snapshot) => |Fresh(snapshot, s.live)| + s.failures <= |cfg.batch[c]|
       case Uncommitted(_, _, _) => true
       case Ended => true
  }

  ghost predicate SessionOk(cfg: Config, committed: Table, c: Client, s: Call)
    requires c in cfg.batch
  {
    && CountOk(cfg, committed, c, s)
    && (s.tx.Waiting? || s.tx.Locked? || s.tx.Uncommitted? ==> SnapshotOk(cfg, committed, s.tx.snapshot))
    && (s.tx.Uncommitted? ==> WritesOk(cfg, committed, c, s))
  }

  ghost predicate PairOk(cfg: Config, c: Client, s: Call, d: Client, t: Call) {
    && !(HoldsLock(s) && HoldsLock(t) && cfg.lockId(c) == cfg.lockId(d))
    && (s.tx.Uncommitted? ==> Unblocked(s.tx.updates, s.tx.inserts, t))
  }

  ghost predicate TableOk(cfg: Config, t: Table) {
    && WellFormed(t, cfg.columns) && Grows(cfg.initial, t)
    && forall id | id in t :: Authored(cfg, id, t[id])
  }

  ghost predicate PairsOk(cfg: Config, calls: map<Client, Call>) {
    forall c, d | c in calls && d in calls && c != d :: PairOk(cfg, c, calls[c], d, calls[d])
  }

  ghost predicate CallsOk(cfg: Config, committed: Table, calls: map<Client, Call>)
    requires calls.Keys == cfg.batch.Keys
  {
    forall c | c in calls :: SessionOk(cfg, committed, c, calls[c])
  }

  ghost predicate Inv(cfg: Config, s: State) {
    && s.calls.Keys == cfg.batch.Keys
    && TableOk(cfg, s.committed)
    && CallsOk(cfg, s.committed, s.calls)
    && PairsOk(cfg, s.calls)
  }

  // ---------- every step keeps it ----------

  lemma GrowthIsTransitive(t: Table, u: Table, v: Table)
    requires Grows(t, u) && Grows(u, v)
    ensures Grows(t, v)
  {
  }

  lemma GrowthKeepsKeys(t: Table, u: Table)
    requires Grows(t, u)
    ensures KeysIn(t) <= KeysIn(u)
  {
    forall id | id in t ensures t[id].key in KeysIn(u) {
      assert id in u && u[id].key == t[id].key;
    }
  }

  /** A call that holds no uncommitted writes is not disturbed by a table that grows. */
  lemma GrowthKeepsCall(cfg: Config, t: Table, u: Table, c: Client, s: Call)
    requires c in cfg.batch && SessionOk(cfg, t, c, s) && Grows(t, u)
    requires s.tx.Uncommitted? ==> WritesOk(cfg, u, c, s)
    ensures SessionOk(cfg, u, c, s)
  {
    GrowthKeepsKeys(t, u);
    if s.tx.Waiting? || s.tx.Locked? || s.tx.Uncommitted? {
      GrowthIsTransitive(s.tx.snapshot, t, u);
    }
  }

  lemma FreshIsFewer(snapshot: Table, live: set<Key>)
    ensures |Fresh(snapshot, live)| <= |live|
    ensures !(live !! KeysIn(snapshot)) ==> |Fresh(snapshot, live)| < |live|
  {
    var found := live * KeysIn(snapshot);
    assert live == Fresh(snapshot, live) + found && Fresh(snapshot, live) !! found;
  }

  lemma BeginKeepsCall(cfg: Config, s: State, c: Client)
    requires ValidConfig(cfg) && Inv(cfg, s) && Enabled(cfg, s, Begin(c))
    ensures SessionOk(cfg, s.committed, c, Apply(cfg, s, Begin(c)).calls[c])
  {
    FreshIsFewer(s.committed, s.calls[c].live);
  }

  lemma AcquireKeepsCall(cfg: Config, s: State, c: Client)
    requires ValidConfig(cfg) && Inv(cfg, s) && Enabled(cfg, s, Acquire(c))
    ensures SessionOk(cfg, s.committed, c, Apply(cfg, s, Acquire(c)).calls[c])
  {
    assert SessionOk(cfg, s.committed, c, s.calls[c]);
  }

  lemma InsertsAreNew(batch: seq<Entry>, ids: map<Id, Key>, keys: set<Key>, committed: Table)
    requires NewIdsFor(ids, keys, committed) && keys <= KeysOf(batch)
    ensures Inserts(batch, ids).Keys == ids.Keys && KeysIn(Inserts(batch, ids)) == keys
    ensures UniqueKeys(Inserts(batch, ids)) && Inserts(batch, ids).Keys !! committed.Keys
    ensures forall id | id in Inserts(batch, ids) :: exists e :: e in batch && Inserts(batch, ids)[id] == NewRow(e)
  {
    var inserts := Inserts(batch, ids);
    forall id | id in ids
      ensures id in inserts && inserts[id].key == ids[id] && inserts[id] == NewRow(EntryFor(batch, ids[id]).value) {
      assert ids[id] in ids.Values;
      var e :| e in batch && e.key == ids[id];
    }
    forall key | key in keys ensures key in KeysIn(inserts) {
      assert key in ids.Values;
      var id :| id in ids && ids[id] == key;
      assert inserts[id].key == key;
    }
    forall id | id in inserts ensures exists e :: e in batch && inserts[id] == NewRow(e) {
      var e := EntryFor(batch, ids[id]).value;
      assert e in batch && inserts[id] == NewRow(e);
    }
    forall key | key in KeysIn(inserts) ensures key in keys {
      var id :| id in inserts && inserts[id].key == key;
      assert ids[id] in ids.Values;
    }
  }

  lemma FlushKeepsCall(cfg: Config, s: State, c: Client, ids: map<Id, Key>)
    requires ValidConfig(cfg) && Inv(cfg, s) && Enabled(cfg, s, Flush(c, ids))
    ensures SessionOk(cfg, s.committed, c, Apply(cfg, s, Flush(c, ids)).calls[c])
  {
    var me := s.calls[c];
    assert SessionOk(cfg, s.committed, c, me);
    InsertsAreNew(cfg.batch[c], ids, Fresh(me.tx.snapshot, me.live), s.committed);
  }

  lemma CollideKeepsCall(cfg: Config, s: State, c: Client)
    requires ValidConfig(cfg) && Inv(cfg, s) && Enabled(cfg, s, Collide(c))
    ensures SessionOk(cfg, s.committed, c, Apply(cfg, s, Collide(c)).calls[c])
  {
    assert SessionOk(cfg, s.committed, c, s.calls[c]);
  }

  /** Writing only the columns that differ still leaves the whole entry. */
  lemma DeltaCompletes(before: Fields, after: Fields)
    requires before.Keys == after.Keys
    ensures before + Delta(before, after) == after
  {
  }

  lemma PublishedRow(cfg: Config, committed: Table, c: Client, s: Call, id: Id)
    requires ValidConfig(cfg) && c in cfg.batch && s.tx.Uncommitted?
    requires TableOk(cfg, committed) && SnapshotOk(cfg, committed, s.tx.snapshot) && WritesOk(cfg, committed, c, s)
    requires id in Published(committed, s.tx.updates, s.tx.inserts)
    ensures var row := Published(committed, s.tx.updates, s.tx.inserts)[id];
            row.fields.Keys == cfg.columns && Authored(cfg, id, row)
  {
    var row := Published(committed, s.tx.updates, s.tx.inserts)[id];
    if id in s.tx.inserts {
      var e :| e in cfg.batch[c] && s.tx.inserts[id] == NewRow(e);
      assert e in cfg.batch[c] && e.key == row.key && e.fields == row.fields;
    } else if id in s.tx.updates {
      var e := EntryFor(cfg.batch[c], s.tx.snapshot[id].key).value;
      DeltaCompletes(committed[id].fields, e.fields);
      assert e in cfg.batch[c] && e.key == row.key && e.fields == row.fields;
    }
  }

  lemma PublishedTable(cfg: Config, committed: Table, c: Client, s: Call)
    requires ValidConfig(cfg) && c in cfg.batch && s.tx.Uncommitted?
    requires TableOk(cfg, committed) && SnapshotOk(cfg, committed, s.tx.snapshot) && WritesOk(cfg, committed, c, s)
    ensures var t := Published(committed, s.tx.updates, s.tx.inserts);
            TableOk(cfg, t) && Grows(committed, t) && KeysIn(t) == KeysIn(committed) + KeysIn(s.tx.inserts)
  {
    var t := Published(committed, s.tx.updates, s.tx.inserts);
    forall id | id in t ensures t[id].fields.Keys == cfg.columns && Authored(cfg, id, t[id]) {
      PublishedRow(cfg, committed, c, s, id);
    }
    PublishedKeys(committed, s.tx.updates, s.tx.inserts);
    GrowthIsTransitive(cfg.initial, committed, t);
  }

  lemma PublishedKeys(committed: Table, updates: map<Id, Fields>, inserts: Table)
    requires UniqueKeys(committed) && UniqueKeys(inserts) && inserts.Keys !! committed.Keys
    requires KeysIn(inserts) !! KeysIn(committed)
    ensures var t := Published(committed, updates, inserts);
            UniqueKeys(t) && Grows(committed, t) && KeysIn(t) == KeysIn(committed) + KeysIn(inserts)
  {
    var t := Published(committed, updates, inserts);
    assert forall id | id in committed :: id in t && t[id].key == committed[id].key;
    assert forall id | id in inserts :: id in t && t[id].key == inserts[id].key;
    UnionKeys(t, committed, inserts);
    UnionIsUnique(t, committed, inserts);
  }

  lemma InKeys(t: Table, id: Id)
    requires id in t
    ensures t[id].key in KeysIn(t)
  {
  }

  /** The key of each row of a table put together from two. */
  ghost predicate Union(t: Table, a: Table, b: Table) {
    && t.Keys == a.Keys + b.Keys
    && (forall id | id in a :: t[id].key == a[id].key)
    && (forall id | id in b :: t[id].key == b[id].key)
  }

  lemma UnionKeys(t: Table, a: Table, b: Table)
    requires Union(t, a, b)
    ensures KeysIn(t) == KeysIn(a) + KeysIn(b)
  {
    forall key | key in KeysIn(t) ensures key in KeysIn(a) + KeysIn(b) {
      var id :| id in t && t[id].key == key;
      if id in a { InKeys(a, id); } else { InKeys(b, id); }
    }
    forall key | key in KeysIn(a) ensures key in KeysIn(t) {
      var id :| id in a && a[id].key == key;
      InKeys(t, id);
    }
    forall key | key in KeysIn(b) ensures key in KeysIn(t) {
      var id :| id in b && b[id].key == key;
      InKeys(t, id);
    }
  }

  lemma UnionIsUnique(t: Table, a: Table, b: Table)
    requires UniqueKeys(a) && UniqueKeys(b) && KeysIn(a) !! KeysIn(b) && Union(t, a, b)
    ensures UniqueKeys(t)
  {
    forall x, y | x in t && y in t && t[x].key == t[y].key ensures x == y {
      if x in a && y in b {
        InKeys(a, x);
        InKeys(b, y);
      } else if x in b && y in a {
        InKeys(b, x);
        InKeys(a, y);
      }
    }
  }

  /** Another transaction's uncommitted writes survive this commit. */
  lemma CommitKeepsWrites(cfg: Config, committed: Table, c: Client, s: Call, d: Client, other: Call)
    requires ValidConfig(cfg) && c in cfg.batch && d in cfg.batch && s.tx.Uncommitted? && other.tx.Uncommitted?
    requires TableOk(cfg, committed) && SnapshotOk(cfg, committed, s.tx.snapshot)
    requires WritesOk(cfg, committed, c, s) && WritesOk(cfg, committed, d, other)
    requires Unblocked(s.tx.updates, s.tx.inserts, other)
    ensures WritesOk(cfg, Published(committed, s.tx.updates, s.tx.inserts), d, other)
  {
    PublishedKeys(committed, s.tx.updates, s.tx.inserts);
  }

  lemma PairsKept(cfg: Config, calls: map<Client, Call>, c: Client, me: Call)
    requires c in calls && PairsOk(cfg, calls)
    requires forall d | d in calls && d != c :: PairOk(cfg, c, me, d, calls[d]) && PairOk(cfg, d, calls[d], c, me)
    ensures PairsOk(cfg, calls[c := me])
  {
  }

  /** A call without lock or writes is in nobody's way. */
  lemma IdlePair(cfg: Config, c: Client, s: Call, d: Client, t: Call)
    requires !HoldsLock(s)
    ensures PairOk(cfg, c, s, d, t) && PairOk(cfg, d, t, c, s)
  {
  }

  lemma AcquirePair(cfg: Config, c: Client, s: Call, d: Client, t: Call)
    requires s.tx.Locked? && (cfg.lockId(d) == cfg.lockId(c) ==> !HoldsLock(t))
    ensures PairOk(cfg, c, s, d, t) && PairOk(cfg, d, t, c, s)
  {
  }

  lemma FlushPair(cfg: Config, c: Client, before: Call, after: Call, d: Client, t: Call)
    requires PairOk(cfg, c, before, d, t) && HoldsLock(before) && after.tx.Uncommitted?
    requires Unblocked(after.tx.updates, after.tx.inserts, t)
    ensures PairOk(cfg, c, after, d, t) && PairOk(cfg, d, t, c, after)
  {
  }

  lemma StepKeepsPairs(cfg: Config, s: State, step: Step)
    requires PairsOk(cfg, s.calls) && Enabled(cfg, s, step)
    ensures PairsOk(cfg, Apply(cfg, s, step).calls)
  {
    var c, me := step.c, Apply(cfg, s, step).calls[step.c];
    forall d | d in s.calls && d != c ensures PairOk(cfg, c, me, d, s.calls[d]) && PairOk(cfg, d, s.calls[d], c, me) {
      if step.Acquire? {
        AcquirePair(cfg, c, me, d, s.calls[d]);
      } else if step.Flush? {
        FlushPair(cfg, c, s.calls[c], me, d, s.calls[d]);
      } else {
        IdlePair(cfg, c, me, d, s.calls[d]);
      }
    }
    PairsKept(cfg, s.calls, c, me);
  }

  lemma CommitKeepsCall(cfg: Config, s: State, c: Client, d: Client)
    requires ValidConfig(cfg) && Inv(cfg, s) && Enabled(cfg, s, Commit(c)) && d in s.calls && d != c
    requires Grows(s.committed, Apply(cfg, s, Commit(c)).committed)
    ensures SessionOk(cfg, Apply(cfg, s, Commit(c)).committed, d, s.calls[d])
  {
    var me, other := s.calls[c], s.calls[d];
    var t := Apply(cfg, s, Commit(c)).committed;
    assert SessionOk(cfg, s.committed, c, me) && SessionOk(cfg, s.committed, d, other) && PairOk(cfg, c, me, d, other);
    if other.tx.Uncommitted? {
      CommitKeepsWrites(cfg, s.committed, c, me, d, other);
    }
    GrowthKeepsCall(cfg, s.committed, t, d, other);
  }

  lemma CommitTable(cfg: Config, s: State, c: Client)
    requires ValidConfig(cfg) && Inv(cfg, s) && Enabled(cfg, s, Commit(c))
    ensures var s' := Apply(cfg, s, Commit(c));
            TableOk(cfg, s'.committed) && Grows(s.committed, s'.committed)
  {
    assert SessionOk(cfg, s.committed, c, s.calls[c]);
    PublishedTable(cfg, s.committed, c, s.calls[c]);
  }

  lemma CommitCalls(cfg: Config, s: State, c: Client, d: Client)
    requires ValidConfig(cfg) && Inv(cfg, s) && Enabled(cfg, s, Commit(c)) && d in s.calls
    requires Grows(s.committed, Apply(cfg, s, Commit(c)).committed)
    ensures var s' := Apply(cfg, s, Commit(c)); d in s'.calls && SessionOk(cfg, s'.committed, d, s'.calls[d])
  {
    if d != c {
      CommitKeepsCall(cfg, s, c, d);
    } else {
      assert SessionOk(cfg, s.committed, c, s.calls[c]);
    }
  }

  lemma CommitKeepsInv(cfg: Config, s: State, c: Client)
    requires ValidConfig(cfg) && Inv(cfg, s) && Enabled(cfg, s, Commit(c))
    ensures Inv(cfg, Apply(cfg, s, Commit(c))) && Grows(s.committed, Apply(cfg, s, Commit(c)).committed)
  {
    var s' := Apply(cfg, s, Commit(c));
    CommitTable(cfg, s, c);
    forall d | d in s'.calls ensures SessionOk(cfg, s'.committed, d, s'.calls[d]) {
      CommitCalls(cfg, s, c, d);
    }
    StepKeepsPairs(cfg, s, Commit(c));
    Assembled(cfg, s');
  }

  lemma Assembled(cfg: Config, s: State)
    requires s.calls.Keys == cfg.batch.Keys && TableOk(cfg, s.committed) && PairsOk(cfg, s.calls)
    requires forall d | d in s.calls :: SessionOk(cfg, s.committed, d, s.calls[d])
    ensures Inv(cfg, s)
  {
  }

  lemma StepKeepsCalls(cfg: Config, s: State, step: Step)
    requires ValidConfig(cfg) && Inv(cfg, s) && Enabled(cfg, s, step) && !step.Commit?
    ensures SessionOk(cfg, s.committed, step.c, Apply(cfg, s, step).calls[step.c])
  {
    match step
    case Begin(c) => BeginKeepsCall(cfg, s, c);
    case Acquire(c) => AcquireKeepsCall(cfg, s, c);
    case Flush(c, ids) => FlushKeepsCall(cfg, s, c, ids);
    case Collide(c) => CollideKeepsCall(cfg, s, c);
    case Abort(c) => AbortKeepsCall(cfg, s, c);
  }

  lemma AbortKeepsCall(cfg: Config, s: State, c: Client)
    requires ValidConfig(cfg) && Inv(cfg, s) && Enabled(cfg, s, Abort(c))
    ensures SessionOk(cfg, s.committed, c, Apply(cfg, s, Abort(c)).calls[c])
  {
    assert SessionOk(cfg, s.committed, c, s.calls[c]);
  }

  lemma StepKeepsInv(cfg: Config, s: State, step: Step)
    requires ValidConfig(cfg) && Inv(cfg, s) && Enabled(cfg, s, step)
    ensures Inv(cfg, Apply(cfg, s, step)) && Grows(s.committed, Apply(cfg, s, step).committed)
  {
    if step.Commit? {
      CommitKeepsInv(cfg, s, step.c);
    } else {
      StepKeepsPairs(cfg, s, step);
      StepKeepsCalls(cfg, s, step);
      TableStays(cfg, s, step);
      OtherCallsKept(cfg, s, Apply(cfg, s, step), step.c);
    }
  }

  lemma OtherCallsKept(cfg: Config, s: State, s': State, c: Client)
    requires Inv(cfg, s) && c in s.calls && c in s'.calls && PairsOk(cfg, s'.calls)
    requires s'.committed == s.committed && s'.calls == s.calls[c := s'.calls[c]]
    requires SessionOk(cfg, s.committed, c, s'.calls[c])
    ensures Inv(cfg, s') && Grows(s.committed, s'.committed)
  {
  }

  lemma TableStays(cfg: Config, s: State, step: Step)
    requires Enabled(cfg, s, step) && !step.Commit?
    ensures Apply(cfg, s, step).committed == s.committed
    ensures Apply(cfg, s, step).calls == s.calls[step.c := Apply(cfg, s, step).calls[step.c]]
  {
  }

  lemma {:induction false} KeysOfCount(es: seq<Entry>)
    ensures |KeysOf(es)| <= |es|
  {
    if es != [] {
      KeysOfCount(es[1..]);
      assert KeysOf(es) == KeysOf(es[1..]) + {es[0].key};
    }
  }

  lemma InitInv(cfg: Config)
    requires ValidConfig(cfg)
    ensures Inv(cfg, Init(cfg))
  {
    forall c | c in cfg.batch {
      KeysOfCount(cfg.batch[c]);
    }
  }

  lemma {:induction false} RunKeepsInv(cfg: Config, s: State, steps: seq<Step>)
    requires ValidConfig(cfg) && Inv(cfg, s) && Runs(cfg, s, steps)
    ensures Inv(cfg, Exec(cfg, s, steps)) && Grows(s.committed, Exec(cfg, s, steps).committed)
    decreases |steps|
  {
    if steps != [] {
      var s' := Apply(cfg, s, steps[0]);
      StepKeepsInv(cfg, s, steps[0]);
      RunKeepsInv(cfg, s', steps[1..]);
      GrowthIsTransitive(s.committed, s'.committed, Exec(cfg, s, steps).committed);
    }
  }

  // ---------- the results ----------

  /**
   Whatever the lock ids and however the calls interleave: one row per key, no row removed, every
   row's plain fields whole from one entry, and equal lock ids never held at the same time.
   */
  lemma ConcurrentUpsertsAreSafe(cfg: Config, steps: seq<Step>)
    requires ValidConfig(cfg) && Runs(cfg, Init(cfg), steps)
    ensures var s := Exec(cfg, Init(cfg), steps);
            && UniqueKeys(s.committed) && Grows(cfg.initial, s.committed)
            && (forall id | id in s.committed :: Authored(cfg, id, s.committed[id]))
            && (forall c, d | c in s.calls && d in s.calls && c != d && cfg.lockId(c) == cfg.lockId(d) ::
                  !(HoldsLock(s.calls[c]) && HoldsLock(s.calls[d])))
  {
    InitInv(cfg);
    RunKeepsInv(cfg, Init(cfg), steps);
    var s := Exec(cfg, Init(cfg), steps);
    forall c, d | c in s.calls && d in s.calls && c != d && cfg.lockId(c) == cfg.lockId(d)
      ensures !(HoldsLock(s.calls[c]) && HoldsLock(s.calls[d]))
    {
      assert PairOk(cfg, c, s.calls[c], d, s.calls[d]);
    }
  }

  /** EntityError: after the last failure and its re-check, some key is still pending. */
  predicate MustGiveUp(s: Call)
    requires s.tx.Locked?
  {
    s.failures == MAX_RETRIES && Fresh(s.tx.snapshot, s.live) != {}
  }

  /**
   Each failed flush settles at least one pending key: when a call has the lock and re-checks, its
   failures and its pending keys together are within the batch, so EntityError takes four keys.
   */
  lemma FailuresSettleKeys(cfg: Config, steps: seq<Step>, c: Client)
    requires ValidConfig(cfg) && Runs(cfg, Init(cfg), steps) && c in cfg.batch
    ensures var s := Exec(cfg, Init(cfg), steps);
            c in s.calls && (s.calls[c].tx.Locked? ==>
              && s.calls[c].failures <= MAX_RETRIES
              && |Fresh(s.calls[c].tx.snapshot, s.calls[c].live)| + s.calls[c].failures <= |cfg.batch[c]|
              && (MustGiveUp(s.calls[c]) ==> |cfg.batch[c]| >= 4))
  {
    InitInv(cfg);
    RunKeepsInv(cfg, Init(cfg), steps);
    var s := Exec(cfg, Init(cfg), steps);
    assert SessionOk(cfg, s.committed, c, s.calls[c]);
  }

  /**
   A commit leaves every key of its last attempt with the entry's fields, except where the
   snapshot already had them: such a row is not written, and keeps what others made of it since.
   */
  lemma CommitPublishes(cfg: Config, s: State, c: Client, key: Key)
    requires ValidConfig(cfg) && Inv(cfg, s) && Enabled(cfg, s, Commit(c)) && key in s.calls[c].live
    requires EntryFor(cfg.batch[c], key).Some?
    ensures var fields, snapshot := EntryFor(cfg.batch[c], key).value.fields, s.calls[c].tx.snapshot;
            var t := Apply(cfg, s, Commit(c)).committed;
            exists id :: && id in t && t[id].key == key
                         && (t[id].fields == fields ||
                             (id in snapshot && snapshot[id].fields == fields && id in s.committed &&
                                 t[id] == s.committed[id]))
  {
    var me := s.calls[c];
    var e := EntryFor(cfg.batch[c], key).value;
    assert SessionOk(cfg, s.committed, c, me);
    if key in KeysIn(me.tx.snapshot) {
      UpdatePublishes(cfg, s.committed, c, me, e);
    } else {
      InsertPublishes(cfg, s.committed, c, me, e);
    }
  }

  lemma InsertPublishes(cfg: Config, committed: Table, c: Client, s: Call, e: Entry)
    requires c in cfg.batch && DistinctKeys(cfg.batch[c]) && s.tx.Uncommitted? && WritesOk(cfg, committed, c, s)
    requires EntryFor(cfg.batch[c], e.key) == Some(e) && e.key in s.live && e.key !in KeysIn(s.tx.snapshot)
    ensures var t := Published(committed, s.tx.updates, s.tx.inserts);
            exists id :: id in t && t[id].key == e.key && t[id].fields == e.fields
  {
    assert e.key in KeysIn(s.tx.inserts);
    var id :| id in s.tx.inserts && s.tx.inserts[id].key == e.key;
    var e' :| e' in cfg.batch[c] && s.tx.inserts[id] == NewRow(e');
    SameEntry(cfg.batch[c], e');
    assert Published(committed, s.tx.updates, s.tx.inserts)[id] == NewRow(e);
  }

  lemma SameEntry(es: seq<Entry>, e: Entry)
    requires DistinctKeys(es) && e in es
    ensures EntryFor(es, e.key) == Some(e)
  {
    var i :| 0 <= i < |es| && es[i] == e;
    EntryForDistinct(es, i);
  }

  lemma UpdatePublishes(cfg: Config, committed: Table, c: Client, s: Call, e: Entry)
    requires c in cfg.batch && s.tx.Uncommitted? && WellFormed(committed, cfg.columns)
    requires SnapshotOk(cfg, committed, s.tx.snapshot) && WritesOk(cfg, committed, c, s)
    requires EntryFor(cfg.batch[c], e.key) == Some(e) && e.key in s.live && e.key in KeysIn(s.tx.snapshot)
    requires e.fields.Keys == cfg.columns
    ensures var t := Published(committed, s.tx.updates, s.tx.inserts);
            exists id :: && id in t && t[id].key == e.key
                         && (t[id].fields == e.fields ||
                             (id in s.tx.snapshot && s.tx.snapshot[id].fields == e.fields && id in committed &&
                                 t[id] == committed[id]))
  {
    var id :| id in s.tx.snapshot && s.tx.snapshot[id].key == e.key;
    UpdatedRow(cfg, committed, c, s, e, id);
  }

  lemma UpdatedRow(cfg: Config, committed: Table, c: Client, s: Call, e: Entry, id: Id)
    requires c in cfg.batch && s.tx.Uncommitted? && WellFormed(committed, cfg.columns)
    requires SnapshotOk(cfg, committed, s.tx.snapshot) && WritesOk(cfg, committed, c, s)
    requires EntryFor(cfg.batch[c], e.key) == Some(e) && e.key in s.live && e.fields.Keys == cfg.columns
    requires id in s.tx.snapshot && s.tx.snapshot[id].key == e.key
    ensures var t := Published(committed, s.tx.updates, s.tx.inserts);
            && id in committed && id in t && t[id].key == e.key
            && (t[id].fields == e.fields || (s.tx.snapshot[id].fields == e.fields && t[id] == committed[id]))
  {
    assert id in committed && id !in s.tx.inserts;
    DeltaCompletes(s.tx.snapshot[id].fields, e.fields);
    if id !in s.tx.updates {
      assert Delta(s.tx.snapshot[id].fields, e.fields) == map[];
      assert s.tx.snapshot[id].fields == e.fields;
    }
  }

  // ---------- the call that commits last need not win ----------

  /** Client 1 repeats what the row has, client 2 changes it; both share one lock. */
  function Rivals(row: Row, same: Entry, other: Entry, columns: set<string>): Config {
    Config(map[0 := row], columns, map[1 := [same], 2 := [other]], _ => 0)
  }

  predicate AreRivals(row: Row, same: Entry, other: Entry, columns: set<string>) {
    && same.key == row.key && other.key == row.key
    && same.fields == row.fields && other.fields != row.fields
    && row.fields.Keys == columns && other.fields.Keys == columns
  }

  lemma OneMore(cfg: Config, s: State, steps: seq<Step>, step: Step) returns (more: seq<Step>)
    requires Runs(cfg, s, steps) && Enabled(cfg, Exec(cfg, s, steps), step)
    ensures Runs(cfg, s, more) && Exec(cfg, s, more) == Apply(cfg, Exec(cfg, s, steps), step)
    decreases |steps|
  {
    if steps == [] {
      assert [step][1..] == [];
      more := [step];
    } else {
      var rest := OneMore(cfg, Apply(cfg, s, steps[0]), steps[1..], step);
      more := [steps[0]] + rest;
      assert more[1..] == rest;
    }
  }

  lemma EntryOfOne(e: Entry)
    ensures EntryFor([e], e.key) == Some(e) && KeysOf([e]) == {e.key} && DistinctKeys([e])
  {
    EntryForDistinct([e], 0);
    assert [e][0] == e;
  }

  /** What one entry writes over the one row with its key. */
  lemma UpdateOfOne(row: Row, e: Entry)
    requires e.key == row.key && e.fields.Keys == row.fields.Keys
    ensures var updates := Updates(map[0 := row], [e], {e.key});
            && Fresh(map[0 := row], {e.key}) == {}
            && (if e.fields == row.fields then updates == map[] else updates == map[0 := Delta(row.fields, e.fields)])
            && Published(map[0 := row], updates, map[]) == map[0 := row.(fields := e.fields)]
  {
    EntryOfOne(e);
    DeltaCompletes(row.fields, e.fields);
    var t: Table := map[0 := row];
    assert t[0].key in KeysIn(t);
    assert Delta(row.fields, e.fields) == map[] <==> e.fields == row.fields;
  }

  /** The state with both calls where they are; neither has failed a flush. */
  function Both(row: Row, tx1: Tx, tx2: Tx): State {
    State(map[0 := row], map[1 := Call(tx1, {row.key}, 0), 2 := Call(tx2, {row.key}, 0)])
  }

  ghost predicate Comes(cfg: Config, s: State) {
    exists steps: seq<Step> :: Runs(cfg, Init(cfg), steps) && Exec(cfg, Init(cfg), steps) == s
  }

  lemma Then(cfg: Config, s: State, step: Step)
    requires Comes(cfg, s) && Enabled(cfg, s, step)
    ensures Comes(cfg, Apply(cfg, s, step))
  {
    var steps: seq<Step> :| Runs(cfg, Init(cfg), steps) && Exec(cfg, Init(cfg), steps) == s;
    var more := OneMore(cfg, Init(cfg), steps, step);
  }

  lemma Begins(cfg: Config, s: State, c: Client)
    requires Comes(cfg, s) && c in s.calls && c in cfg.batch && s.calls[c].tx.Ready?
    ensures Comes(cfg, s.(calls := s.calls[c := s.calls[c].(tx := Waiting(s.committed))]))
  {
    Then(cfg, s, Begin(c));
  }

  lemma Acquires(cfg: Config, s: State, c: Client)
    requires Comes(cfg, s) && c in s.calls && c in cfg.batch && s.calls[c].tx.Waiting?
    requires forall d | d in s.calls && d != c :: !HoldsLock(s.calls[d])
    ensures Comes(cfg, s.(calls := s.calls[c := s.calls[c].(tx := Locked(s.calls[c].tx.snapshot))]))
  {
    Then(cfg, s, Acquire(c));
  }

  /** A flush with nothing to insert, over rows that are as in the snapshot. */
  lemma Flushes(cfg: Config, s: State, c: Client, updates: map<Id, Fields>)
    requires Comes(cfg, s) && c in s.calls && c in cfg.batch && s.calls[c].tx.Locked?
    requires var (snapshot, live) := (s.calls[c].tx.snapshot, s.calls[c].live);
             && Fresh(snapshot, live) == {} && Updates(snapshot, cfg.batch[c], live) == updates
             && forall id | id in updates :: id in s.committed && s.committed[id] == snapshot[id]
    requires forall d | d in s.calls && d != c :: !s.calls[d].tx.Uncommitted?
    ensures Comes(cfg, s.(calls := s.calls[c := s.calls[c].(tx :=
                            Uncommitted(s.calls[c].tx.snapshot, updates, map[]))]))
  {
    assert Inserts(cfg.batch[c], map[]) == map[];
    Then(cfg, s, Flush(c, map[]));
  }

  lemma RivalsAreValid(row: Row, same: Entry, other: Entry, columns: set<string>)
    requires AreRivals(row, same, other, columns)
    ensures ValidConfig(Rivals(row, same, other, columns))
  {
    EntryOfOne(same);
    EntryOfOne(other);
    assert UniqueKeys(map[0 := row]);
  }

  lemma RivalsStart(row: Row, same: Entry, other: Entry, columns: set<string>)
    requires AreRivals(row, same, other, columns)
    ensures Comes(Rivals(row, same, other, columns), Both(row, Ready, Ready))
  {
    var cfg := Rivals(row, same, other, columns);
    EntryOfOne(same);
    EntryOfOne(other);
    assert Init(cfg) == Both(row, Ready, Ready);
    assert Runs(cfg, Init(cfg), []);
  }

  lemma BothBegin(row: Row, same: Entry, other: Entry, columns: set<string>)
    requires AreRivals(row, same, other, columns)
    ensures Comes(Rivals(row, same, other, columns), Both(row, Waiting(map[0 := row]), Waiting(map[0 := row])))
  {
    var cfg, t := Rivals(row, same, other, columns), map[0 := row];
    RivalsStart(row, same, other, columns);
    Begins(cfg, Both(row, Ready, Ready), 1);
    BothMove(row, Ready, Ready, Waiting(t), Waiting(t));
    Begins(cfg, Both(row, Waiting(t), Ready), 2);
    BothMove(row, Waiting(t), Ready, Waiting(t), Waiting(t));
  }

  lemma BothMove(row: Row, a: Tx, b: Tx, a': Tx, b': Tx)
    ensures var s := Both(row, a, b);
            && s.(calls := s.calls[1 := s.calls[1].(tx := a')]) == Both(row, a', b)
            && s.(calls := s.calls[2 := s.calls[2].(tx := b')]) == Both(row, a, b')
  {
  }

  lemma SecondFlushes(row: Row, same: Entry, other: Entry, columns: set<string>)
    requires AreRivals(row, same, other, columns)
    ensures Comes(Rivals(row, same, other, columns),
                  Both(row, Waiting(map[0 := row]),
                       Uncommitted(map[0 := row], Updates(map[0 := row], [other], {row.key}), map[])))
  {
    var cfg, t := Rivals(row, same, other, columns), map[0 := row];
    var updates := Updates(t, [other], {row.key});
    BothBegin(row, same, other, columns);
    Acquires(cfg, Both(row, Waiting(t), Waiting(t)), 2);
    BothMove(row, Waiting(t), Waiting(t), Ended, Locked(t));
    UpdateOfOne(row, other);
    Flushes(cfg, Both(row, Waiting(t), Locked(t)), 2, updates);
    BothMove(row, Waiting(t), Locked(t), Ended, Uncommitted(t, updates, map[]));
  }

  lemma SecondCommits(row: Row, same: Entry, other: Entry, columns: set<string>)
    requires AreRivals(row, same, other, columns)
    ensures Comes(Rivals(row, same, other, columns), Both(row.(fields := other.fields), Waiting(map[0 := row]), Ended))
  {
    var cfg, t := Rivals(row, same, other, columns), map[0 := row];
    SecondFlushes(row, same, other, columns);
    UpdateOfOne(row, other);
    var s := Both(row, Waiting(t), Uncommitted(t, Updates(t, [other], {row.key}), map[]));
    Then(cfg, s, Commit(2));
    assert Apply(cfg, s, Commit(2)) == Both(row.(fields := other.fields), Waiting(t), Ended);
  }

  lemma FirstFlushes(row: Row, same: Entry, other: Entry, columns: set<string>)
    requires AreRivals(row, same, other, columns)
    ensures Comes(Rivals(row, same, other, columns),
                  Both(row.(fields := other.fields), Uncommitted(map[0 := row], map[], map[]), Ended))
  {
    var cfg, t, now := Rivals(row, same, other, columns), map[0 := row], row.(fields := other.fields);
    SecondCommits(row, same, other, columns);
    Acquires(cfg, Both(now, Waiting(t), Ended), 1);
    BothMove(now, Waiting(t), Ended, Locked(t), Ended);
    UpdateOfOne(row, same);
    Flushes(cfg, Both(now, Locked(t), Ended), 1, map[]);
    BothMove(now, Locked(t), Ended, Uncommitted(t, map[], map[]), Ended);
  }

  /**
   The call that commits last, under the same lock, need not have its fields in the row: its snapshot,
   older than its lock, already had them, so it writes nothing over what the other call committed.
   */
  lemma LastCommitDoesNotWin(row: Row, same: Entry, other: Entry, columns: set<string>)
    requires AreRivals(row, same, other, columns)
    ensures var cfg, s := Rivals(row, same, other, columns),
                          Both(row.(fields := other.fields), Uncommitted(map[0 := row], map[], map[]), Ended);
            && ValidConfig(cfg) && Comes(cfg, s) && Enabled(cfg, s, Commit(1))
            && Apply(cfg, s, Commit(1)).committed[0].fields == other.fields != same.fields
  {
    RivalsAreValid(row, same, other, columns);
    FirstFlushes(row, same, other, columns);
  }
}
