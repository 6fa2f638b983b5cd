/**
 A call that is overtaken at every attempt: others insert one of its keys between its snapshot and its
 flush, three times over, and it has to give up.
 */
module UpsertConflicts {
  import opened BulkUpsert
  import opened Options
  import opened UpsertProtocol

  /** Nobody but `c` is between lock and commit. */
  predicate Free(s: State, c: Client) { forall d | d in s.calls && d != c :: !HoldsLock(s.calls[d]) }

  /** A fresh key, as one entry inserts it. */
  predicate CanInsert(cfg: Config, s: State, d: Client, e: Entry, id: Id) {
    && d in s.calls && d in cfg.batch && cfg.batch[d] == [e]
    && e.key !in KeysIn(s.committed) && id !in s.committed
  }

  lemma WritesOfOne(t: Table, e: Entry, id: Id)
    requires e.key !in KeysIn(t)
    ensures Fresh(t, {e.key}) == {e.key} && Updates(t, [e], {e.key}) == map[]
    ensures Inserts([e], map[id := e.key]) == map[id := NewRow(e)] && (map[id := e.key]).Values == {e.key}
  {
    var ids: map<Id, Key> := map[id := e.key];
    EntryOfOne(e);
    assert ids[id] == e.key && e.key in ids.Values;
    assert forall x | x in t :: t[x].key in KeysIn(t);
  }

  lemma FlushOfOne(cfg: Config, s: State, d: Client, e: Entry, id: Id)
    requires Comes(cfg, s) && Free(s, d) && CanInsert(cfg, s, d, e, id)
    requires s.calls[d] == Call(Locked(s.committed), {e.key}, 0)
    ensures Comes(cfg, s.(calls := s.calls[d := Call(Uncommitted(s.committed, map[], map[id := NewRow(e)]),
                                                     {e.key}, 0)]))
  {
    WritesOfOne(s.committed, e, id);
    Then(cfg, s, Flush(d, map[id := e.key]));
  }

  lemma CommitOfOne(cfg: Config, s: State, d: Client, e: Entry, id: Id)
    requires Comes(cfg, s) && d in s.calls && d in cfg.batch && id !in s.committed
    requires s.calls[d].tx.Uncommitted? && s.calls[d].tx.updates == map[]
    requires s.calls[d].tx.inserts == map[id := NewRow(e)]
    ensures Comes(cfg, State(s.committed[id := NewRow(e)], s.calls[d := s.calls[d].(tx := Ended)]))
  {
    assert Published(s.committed, map[], map[id := NewRow(e)]) == s.committed[id := NewRow(e)];
    Then(cfg, s, Commit(d));
  }

  /** From its snapshot to its commit, undisturbed. */
  lemma InsertCommits(cfg: Config, s: State, d: Client, e: Entry, id: Id)
    requires Comes(cfg, s) && Free(s, d) && CanInsert(cfg, s, d, e, id) && s.calls[d] == Call(Ready, {e.key}, 0)
    ensures Comes(cfg, State(s.committed[id := NewRow(e)], s.calls[d := Call(Ended, {e.key}, 0)]))
  {
    Begins(cfg, s, d);
    var s1 := s.(calls := s.calls[d := Call(Waiting(s.committed), {e.key}, 0)]);
    Acquires(cfg, s1, d);
    var s2 := s.(calls := s.calls[d := Call(Locked(s.committed), {e.key}, 0)]);
    assert s1.(calls := s1.calls[d := s1.calls[d].(tx := Locked(s.committed))]) == s2;
    FlushOfOne(cfg, s2, d, e, id);
    var s3 := s.(calls := s.calls[d := Call(Uncommitted(s.committed, map[], map[id := NewRow(e)]), {e.key}, 0)]);
    assert s2.(calls := s2.calls[d := s3.calls[d]]) == s3;
    CommitOfOne(cfg, s3, d, e, id);
    assert s3.calls[d := s3.calls[d].(tx := Ended)] == s.calls[d := Call(Ended, {e.key}, 0)];
  }

  /** While `c` waits for the lock with its snapshot, `d` commits one of its keys; then `c` collides. */
  lemma Overtaken(cfg: Config, s: State, c: Client, d: Client, e: Entry, id: Id)
    requires Comes(cfg, s) && Free(s, c) && Free(s, d) && c != d && CanInsert(cfg, s, d, e, id)
    requires s.calls[d] == Call(Ready, {e.key}, 0) && c in s.calls && c in cfg.batch
    requires s.calls[c].tx.Ready? && e.key in s.calls[c].live && s.calls[c].failures < 3
    ensures var me := s.calls[c];
            Comes(cfg, State(s.committed[id := NewRow(e)],
                             s.calls[c := Call(Ready, me.live - KeysIn(s.committed), me.failures + 1)]
                                    [d := Call(Ended, {e.key}, 0)]))
  {
    var me, t := s.calls[c], s.committed[id := NewRow(e)];
    Begins(cfg, s, c);
    var s1 := s.(calls := s.calls[c := me.(tx := Waiting(s.committed))]);
    InsertCommits(cfg, s1, d, e, id);
    var s2 := State(t, s1.calls[d := Call(Ended, {e.key}, 0)]);
    Acquires(cfg, s2, c);
    var s3 := s2.(calls := s2.calls[c := me.(tx := Locked(s.committed))]);
    assert s2.(calls := s2.calls[c := s2.calls[c].(tx := Locked(s.committed))]) == s3;
    Collides(cfg, s3, c, e.key, id);
    assert s3.calls[c := Call(Ready, me.live - KeysIn(s.committed), me.failures + 1)] ==
             s.calls[c := Call(Ready, me.live - KeysIn(s.committed), me.failures + 1)][d := Call(Ended, {e.key}, 0)];
  }

  lemma Collides(cfg: Config, s: State, c: Client, key: Key, id: Id)
    requires Comes(cfg, s) && c in s.calls && c in cfg.batch && s.calls[c].tx.Locked? && s.calls[c].failures < 3
    requires key in s.calls[c].live && key !in KeysIn(s.calls[c].tx.snapshot)
    requires id in s.committed && s.committed[id].key == key
    ensures var me := s.calls[c];
            Comes(cfg, s.(calls := s.calls[c := Call(Ready, me.live - KeysIn(me.tx.snapshot), me.failures + 1)]))
  {
    assert key in KeysIn(s.committed) && key in Fresh(s.calls[c].tx.snapshot, s.calls[c].live);
    Then(cfg, s, Collide(c));
  }

  const CROWD: set<Client> := {0, 1, 2, 3}

  /** Client 0 has the whole batch; clients 1, 2 and 3 have its first three entries, one each. */
  function Crowd(es: seq<Entry>, columns: set<string>, lockId: Client -> int): Config
    requires |es| >= 4
  {
    Config(map[], columns, map c | c in CROWD :: if c == 0 then es else [es[c - 1]], lockId)
  }

  ghost predicate GoodBatch(es: seq<Entry>, columns: set<string>) {
    |es| >= 4 && DistinctKeys(es) && forall e | e in es :: e.fields.Keys == columns
  }

  /** The first `n` of the entries are rows; the rest of the crowd has not started. */
  function Overtook(es: seq<Entry>, n: nat, live: set<Key>): State
    requires |es| >= 4 && n <= 3
  {
    State(map i: nat | i < n :: NewRow(es[i]),
          map c | c in CROWD ::
            if c == 0 then Call(Ready, live, n) else Call(if c <= n then Ended else Ready, {es[c - 1].key}, 0))
  }

  lemma CrowdIsValid(es: seq<Entry>, columns: set<string>, lockId: Client -> int)
    requires GoodBatch(es, columns)
    ensures ValidConfig(Crowd(es, columns, lockId))
  {
    forall i | 0 <= i < 3 ensures DistinctKeys([es[i]]) && es[i] in es {
      EntryOfOne(es[i]);
    }
  }

  lemma CrowdStarts(es: seq<Entry>, columns: set<string>, lockId: Client -> int)
    requires GoodBatch(es, columns)
    ensures Comes(Crowd(es, columns, lockId), Overtook(es, 0, KeysOf(es)))
  {
    var cfg, s := Crowd(es, columns, lockId), Overtook(es, 0, KeysOf(es));
    forall c | c in CROWD ensures Call(Ready, KeysOf(cfg.batch[c]), 0) == s.calls[c] {
      if c > 0 {
        EntryOfOne(es[c - 1]);
      }
    }
    assert Init(cfg).calls == s.calls && Init(cfg).committed == s.committed;
    assert Runs(cfg, Init(cfg), []);
  }

  lemma KeysOvertook(es: seq<Entry>, n: nat, live: set<Key>)
    requires |es| >= 4 && n <= 3
    ensures KeysIn(Overtook(es, n, live).committed) == set i: nat | i < n :: es[i].key
  {
    var t := Overtook(es, n, live).committed;
    forall key | exists i: nat :: i < n && es[i].key == key ensures key in KeysIn(t) {
      var i: nat :| i < n && es[i].key == key;
      assert t[i].key == key;
    }
  }

  /** One more round. */
  lemma OnceMore(es: seq<Entry>, columns: set<string>, lockId: Client -> int, n: nat, live: set<Key>)
    returns (left: set<Key>)
    requires GoodBatch(es, columns) && n < 3 && Comes(Crowd(es, columns, lockId), Overtook(es, n, live))
    requires forall i | n <= i < |es| :: es[i].key in live
    ensures Comes(Crowd(es, columns, lockId), Overtook(es, n + 1, left))
    ensures forall i | n + 1 <= i < |es| :: es[i].key in left
  {
    var cfg, s := Crowd(es, columns, lockId), Overtook(es, n, live);
    KeysOvertook(es, n, live);
    assert es[n].key !in KeysIn(s.committed);
    left := live - KeysIn(s.committed);
    OvertookMore(es, n, live, left);
    Overtaken(cfg, s, 0, n + 1, es[n], n);
  }

  lemma OvertookMore(es: seq<Entry>, n: nat, live: set<Key>, left: set<Key>)
    requires |es| >= 4 && n < 3
    ensures var s, t := Overtook(es, n, live), Overtook(es, n + 1, left);
            && t.committed == s.committed[n := NewRow(es[n])]
            && t.calls == s.calls[0 := Call(Ready, left, n + 1)][n + 1 := Call(Ended, {es[n].key}, 0)]
  {
  }

  /** After three failures a pending key leaves only giving up. */
  lemma NoWayOn(cfg: Config, s: State, c: Client)
    requires c in s.calls && s.calls[c].tx.Locked? && MustGiveUp(s.calls[c])
    ensures forall ids :: !Enabled(cfg, s, Flush(c, ids))
    ensures !Enabled(cfg, s, Collide(c))
  {
    var me := s.calls[c];
    var key :| key in Fresh(me.tx.snapshot, me.live);
    forall ids | NewIdsFor(ids, Fresh(me.tx.snapshot, me.live), s.committed) ensures ids != map[] {
      assert key in ids.Values;
    }
  }

  lemma {:induction false} OvertakenOften(es: seq<Entry>, columns: set<string>, lockId: Client -> int, n: nat)
    returns (live: set<Key>)
    requires GoodBatch(es, columns) && n <= 3
    ensures Comes(Crowd(es, columns, lockId), Overtook(es, n, live))
    ensures forall i | n <= i < |es| :: es[i].key in live
  {
    if n == 0 {
      CrowdStarts(es, columns, lockId);
      AllLive(es);
      live := KeysOf(es);
    } else {
      var before := OvertakenOften(es, columns, lockId, n - 1);
      live := OnceMore(es, columns, lockId, n - 1, before);
    }
  }

  /** Every batch of four or more new keys can be overtaken three times, and then the call must give up. */
  lemma GiveUpReached(es: seq<Entry>, columns: set<string>, lockId: Client -> int) returns (s: State)
    requires GoodBatch(es, columns)
    ensures ValidConfig(Crowd(es, columns, lockId)) && Comes(Crowd(es, columns, lockId), s)
    ensures 0 in s.calls && s.calls[0].tx.Locked? && MustGiveUp(s.calls[0])
  {
    CrowdIsValid(es, columns, lockId);
    var live := OvertakenOften(es, columns, lockId, 3);
    s := LastTry(Crowd(es, columns, lockId), es, live);
  }

  lemma AllLive(es: seq<Entry>)
    ensures forall i | 0 <= i < |es| :: es[i].key in KeysOf(es)
  {
    assert forall i | 0 <= i < |es| :: es[i] in es;
  }

  lemma LastTry(cfg: Config, es: seq<Entry>, live: set<Key>) returns (s: State)
    requires |es| >= 4 && DistinctKeys(es) && Comes(cfg, Overtook(es, 3, live)) && es[3].key in live && 0 in cfg.batch
    ensures Comes(cfg, s) && 0 in s.calls && s.calls[0].tx.Locked? && s.calls[0].failures == 3
    ensures s.calls[0].live == live && es[3].key in Fresh(s.calls[0].tx.snapshot, live) && MustGiveUp(s.calls[0])
  {
    var s0 := Overtook(es, 3, live);
    KeysOvertook(es, 3, live);
    Begins(cfg, s0, 0);
    var s1 := s0.(calls := s0.calls[0 := Call(Waiting(s0.committed), live, 3)]);
    Acquires(cfg, s1, 0);
    s := s1.(calls := s1.calls[0 := s1.calls[0].(tx := Locked(s0.committed))]);
    assert es[3].key !in KeysIn(s0.committed);
  }
}
