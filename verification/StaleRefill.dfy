/**
 Exactly how long a commit can stay unseen.

 A reader that refills a key between a writer's invalidation and its commit, and stores as late as
 it may, makes old rows last.  A level map or a source set kept in that way is then mixed into the
 listings of sessions that themselves see the commit, and is stored with them once more.
 */
module StaleRefill {
  import opened CacheClient
  import opened CacheKeys
  import opened Options
  import opened Staleness
  import opened StampedeCache

  const FIRST := Inputs(0, 0, 0)

  // ---------- one caller, undisturbed ----------

  lemma Do(c: Config, s: State, step: Step) returns (t: State)
    requires Reachable(c, s) && Enabled(c, s, step)
    ensures Reachable(c, t) && t == Apply(c, s, step)
  {
    StepOnward(c, INIT, s, step);
    t := Apply(c, s, step);
  }

  /** With its keys evicted, a caller misses. */
  lemma Miss(c: Config, s: State, p: nat, q: Query) returns (t: State)
    requires ValidConfig(c) && Reachable(c, s) && q in c.queries
    requires p in s.sessions && Resting(At(s, p)) && (s.sessions[p].parent.Some? ==> q == LEVELS_QUERY)
    ensures Reachable(c, t)
    ensures t == s.(keys := s.keys - {Key(c, q)} - {LockOf(c, q)}, sessions := Moved(s, p, Missed(q)))
  {
    var s1 := Do(c, s, DeleteKey(Key(c, q)));
    var s2 := Do(c, s1, DeleteKey(LockOf(c, q)));
    t := Do(c, s2, Lookup(p, q));
  }

  /** Then it locks. */
  lemma TakeLock(c: Config, s: State, p: nat, q: Query) returns (t: State)
    requires Reachable(c, s) && p in s.sessions && At(s, p) == Missed(q) && LockOf(c, q) !in s.keys
    ensures Reachable(c, t)
    ensures t == s.(keys := s.keys[LockOf(c, q) := Entry(Lock(p), s.now + LOCK_TIMEOUT)],
                    sessions := Moved(s, p, Locked(q, s.now)))
  {
    t := Do(c, s, TryLock(p));
  }

  /** And it is about to fetch. */
  lemma GoFetch(c: Config, s: State, p: nat, q: Query) returns (t: State)
    requires ValidConfig(c) && Reachable(c, s) && q in c.queries
    requires p in s.sessions && Resting(At(s, p)) && (s.sessions[p].parent.Some? ==> q == LEVELS_QUERY)
    ensures Reachable(c, t) && t == s.(keys := t.keys, sessions := Moved(s, p, Fetching(q, s.now, None)))
    ensures LockOf(c, q) in t.keys && t.keys[LockOf(c, q)] == Entry(Lock(p), s.now + LOCK_TIMEOUT)
    ensures forall k | k in s.keys && k != Key(c, q) && k != LockOf(c, q) :: k in t.keys && t.keys[k] == s.keys[k]
  {
    CacheKeys.KeysApart(c.hash, q, q);
    var s1 := Miss(c, s, p, q);
    var s2 := TakeLock(c, s1, p, q);
    t := Do(c, s2, Recheck(p));
  }

  /** A fetch that needs nothing but its snapshot, stored and answered. */
  lemma FinishLevels(c: Config, s: State, p: nat) returns (t: State)
    requires Reachable(c, s) && p in s.sessions && At(s, p).Fetching? && At(s, p).q == LEVELS_QUERY
    requires s.now <= s.sessions[p].began + c.lag
    ensures Reachable(c, t) && t == s.(keys := t.keys, sessions := t.sessions)
    ensures var levels := Levels(c.levels(s.sessions[p].version));
            t.sessions == Moved(s, p, Replied(LEVELS_QUERY, Answer(levels, false, s.now)))
  {
    var s1 := Do(c, s, RunFetch(p, p, false));
    var s2 := Do(c, s1, StoreValue(p));
    t := Do(c, s2, Release(p));
  }

  /** A nested call brings the level map of the caller's own version. */
  lemma BringLevels(c: Config, s: State, p: nat, child: nat) returns (t: State)
    requires ValidConfig(c) && Reachable(c, s) && p in s.sessions && child !in s.sessions
    requires InFetch(At(s, p)) && ReadsLevels(c, At(s, p).q) && s.now <= s.sessions[p].began + c.lag
    ensures Reachable(c, t) && t == s.(keys := t.keys, sessions := t.sessions)
    ensures t.sessions.Keys == s.sessions.Keys + {child} && t.sessions[p] == s.sessions[p]
    ensures HasLevels(t, p, child) && At(t, child).answer.value == Levels(c.levels(s.sessions[p].version))
  {
    var s1 := Do(c, s, Nest(p, child));
    var s2 := GoFetch(c, s1, child, LEVELS_QUERY);
    t := FinishLevels(c, s2, child);
  }

  /** What a fetch still lacks is read in the caller's own version. */
  lemma BringInputs(c: Config, s: State, p: nat, child: nat) returns (t: State)
    requires ValidConfig(c) && Reachable(c, s) && p in s.sessions && child !in s.sessions
    requires At(s, p).Fetching? && At(s, p).sources.Some? && s.now <= s.sessions[p].began + c.lag
    ensures Reachable(c, t) && t == s.(keys := t.keys, sessions := t.sessions)
    ensures t.sessions.Keys <= s.sessions.Keys + {child} && p in t.sessions && t.sessions[p] == s.sessions[p]
    ensures HasInputs(c, t, p, child)
    ensures ReadsLevels(c, At(s, p).q) ==> At(t, child).answer.value == Levels(c.levels(s.sessions[p].version))
  {
    if ReadsLevels(c, At(s, p).q) {
      t := BringLevels(c, s, p, child);
    } else {
      t := s;
    }
  }

  // ---------- old rows ----------

  /** Session 1 fetches on the first version; nothing is stored yet. */
  lemma ReaderFetches(c: Config, q: Query) returns (s: State)
    requires ValidConfig(c) && q in c.queries && Fetch(c, q, FIRST).Some?
    ensures Reachable(c, s) && s.now == 0 && s.commits == [0] && 1 in s.sessions && s.sessions.Keys <= {1, 2}
    ensures s.sessions[1] == Session(0, 0, Storing(q, 0, Fetch(c, q, FIRST).value), None)
  {
    Here(c, INIT);
    var s1 := Do(c, INIT, Open(1));
    var s2 := GoFetch(c, s1, 1, q);
    var s3 := Do(c, s2, ReadSources(1));
    var s4 := BringInputs(c, s3, 1, 2);
    assert FetchResult(c, s4, 1, 2) == Fetch(c, q, FIRST);
    s := Do(c, s4, RunFetch(1, 2, false));
  }

  /** A writer invalidates and commits, and `wait` later the reader stores what it fetched before. */
  lemma ReaderStoresLate(c: Config, q: Query, wait: nat) returns (s: State)
    requires ValidConfig(c) && q in c.queries && Fetch(c, q, FIRST).Some? && wait <= c.lag
    ensures Reachable(c, s) && s.now == wait && s.commits == [0, 0] && s.sessions.Keys <= {1, 2}
    ensures Key(c, q) in s.keys && s.keys[Key(c, q)] == Entry(Data(Fetch(c, q, FIRST).value), wait + Ttl(c, q))
  {
    var s0 := ReaderFetches(c, q);
    var s1 := Do(c, s0, DeleteKey(Key(c, q)));
    var s2 := Do(c, s1, Commit);
    var s3 := Do(c, s2, Tick(wait));
    s := Do(c, s3, StoreValue(1));
  }

  /** The same, `d` after the commit. */
  lemma OldEntry(c: Config, q: Query, d: nat) returns (s: State)
    requires ValidConfig(c) && q in c.queries && Fetch(c, q, FIRST).Some? && d < Ttl(c, q) + c.lag
    ensures Reachable(c, s) && s.now == d && s.commits == [0, 0] && s.sessions.Keys <= {1, 2}
    ensures Cached(c, s, q) == Some(Fetch(c, q, FIRST).value)
  {
    var wait := if d <= c.lag then d else c.lag;
    var s0 := ReaderStoresLate(c, q, wait);
    s := Do(c, s0, Tick(d - wait));
  }

  /** A session that opened after the commit hits the old answer. */
  lemma LateHit(c: Config, q: Query, d: nat) returns (s: State)
    requires ValidConfig(c) && q in c.queries && Fetch(c, q, FIRST).Some? && d < Ttl(c, q) + c.lag
    ensures Reachable(c, s) && s.commits == [0, 0] && 3 in s.sessions && s.sessions[3].version == 1
    ensures At(s, 3) == Replied(q, Answer(Fetch(c, q, FIRST).value, true, d))
  {
    var s0 := OldEntry(c, q, d);
    var s1 := Do(c, s0, Open(3));
    s := Do(c, s1, Lookup(3, q));
  }

  predicate Committed(s: State, x: Inputs) {
    x.version < |s.commits| && x.levels < |s.commits| && x.sources < |s.commits|
  }

  /** Inputs of the first two versions. */
  predicate OfTwo(x: Inputs) { x.version < 2 && x.levels < 2 && x.sources < 2 }

  /** Session `p`, which itself sees commit `j`, hits something for `q` `d` ms after that commit. */
  ghost predicate HitAfter(c: Config, s: State, p: nat, q: Query, j: nat, d: nat) {
    && Reachable(c, s) && j < |s.commits| && p in s.sessions && s.sessions[p].version >= j
    && At(s, p).Replied? && At(s, p).q == q && At(s, p).answer.hit
    && At(s, p).answer.at == s.commits[j] + d
  }

  /** And it is a value that the query has on no committed rows from that commit on. */
  ghost predicate StaleHit(c: Config, s: State, p: nat, q: Query, j: nat, d: nat) {
    && HitAfter(c, s, p, q, j, d)
    && forall x: Inputs | Committed(s, x) && j <= x.version :: Fetch(c, q, x) != Some(At(s, p).answer.value)
  }

  lemma OldCommitIsSeen(c: Config, s: State, p: nat, q: Query, j: nat, d: nat) returns (x: Inputs)
    requires ValidConfig(c) && HitAfter(c, s, p, q, j, d)
    ensures Committed(s, x) && Fetch(c, q, x) == Some(At(s, p).answer.value)
    ensures InputsSince(c, s, x, j, d - (Ttl(c, q) + c.lag))
  {
    CommitReachesHits(c, s, p, j);
    x :| InputsSince(c, s, x, j, d - (Ttl(c, q) + c.lag)) && Fetch(c, q, x) == Some(At(s, p).answer.value);
  }

  /** For a query whose answer a commit changes: a stale hit d ms after it happens iff d < ttl + lag. */
  lemma StaleHitIff(c: Config, q: Query, d: nat)
    requires ValidConfig(c) && q in c.queries && Fetch(c, q, FIRST).Some?
    requires forall x: Inputs | OfTwo(x) && x.version == 1 :: Fetch(c, q, x) != Fetch(c, q, FIRST)
    ensures (exists s, p, j :: StaleHit(c, s, p, q, j, d)) <==> d < Ttl(c, q) + c.lag
  {
    if d < Ttl(c, q) + c.lag {
      var s := LateHit(c, q, d);
      assert StaleHit(c, s, 3, q, 1, d);
    }
    if s, p, j :| StaleHit(c, s, p, q, j, d) {
      var x := OldCommitIsSeen(c, s, p, q, j, d);
    }
  }

  // ---------- old levels and old sources in a fetch ----------

  /** Session `p`, opened `d` ms after commit `j`, is on that commit or a later one, and may run its fetch of `q`. */
  ghost predicate MayFetch(c: Config, s: State, p: nat, child: nat, q: Query, j: nat, d: nat) {
    && Reachable(c, s) && j < |s.commits| && p in s.sessions && At(s, p).Fetching? && At(s, p).q == q
    && s.sessions[p].version >= j && s.sessions[p].began == s.commits[j] + d
    && HasInputs(c, s, p, child)
  }

  /** It does so with a level map that no version from that commit on has. */
  ghost predicate FetchesOldLevels(c: Config, s: State, p: nat, child: nat, q: Query, j: nat, d: nat) {
    && MayFetch(c, s, p, child, q, j, d) && ReadsLevels(c, q)
    && forall l: nat | j <= l < |s.commits| :: At(s, child).answer.value != Levels(c.levels(l))
  }

  /** It does so with the source set of a version before that commit. */
  ghost predicate FetchesOldSources(c: Config, s: State, p: nat, child: nat, q: Query, j: nat, d: nat) {
    MayFetch(c, s, p, child, q, j, d) && ReadsSources(q) && At(s, p).sources.value < j
  }

  lemma SourcesAreCommitted(c: Config, s: State, p: nat)
    requires ValidConfig(c) && Reachable(c, s) && p in s.sessions && InFetch(At(s, p)) && At(s, p).sources.Some?
    ensures At(s, p).sources.value < |s.commits|
  {
    ReachableInv(c, s);
    assert SessionOk(c, s, s.sessions[p]);
  }

  /** A session opened after the commit makes for its fetch; the level map in the cache is from before. */
  lemma NewRowsFetched(c: Config, q: Query, d: nat) returns (s: State)
    requires ValidConfig(c) && q in c.queries && q != LEVELS_QUERY && d < LEVELS_TTL + c.lag
    ensures Reachable(c, s) && s.now == d && s.commits == [0, 0] && 3 in s.sessions && 4 !in s.sessions
    ensures s.sessions[3] == Session(1, d, Fetching(q, d, None), None)
    ensures Cached(c, s, LEVELS_QUERY) == Some(Levels(c.levels(0)))
  {
    DataKeysDiffer(c);
    var s0 := OldEntry(c, LEVELS_QUERY, d);
    var s1 := Do(c, s0, Open(3));
    s := GoFetch(c, s1, 3, q);
  }

  lemma NewRowsAtHand(c: Config, q: Query, d: nat) returns (s: State, o: nat)
    requires ValidConfig(c) && q in c.queries && q != LEVELS_QUERY && d < LEVELS_TTL + c.lag
    ensures Reachable(c, s) && s.now == d && s.commits == [0, 0] && 3 in s.sessions && 4 !in s.sessions
    ensures s.sessions[3] == Session(1, d, Fetching(q, d, Some(o)), None) && o < 2
    ensures Cached(c, s, LEVELS_QUERY) == Some(Levels(c.levels(0)))
  {
    var s0 := NewRowsFetched(c, q, d);
    s := Do(c, s0, ReadSources(3));
    o := s.sessions[3].pc.sources.value;
    SourcesAreCommitted(c, s, 3);
  }

  lemma OldLevelsAtHand(c: Config, q: Query, d: nat) returns (s: State)
    requires ValidConfig(c) && q in c.queries && ReadsLevels(c, q) && d < LEVELS_TTL + c.lag
    ensures MayFetch(c, s, 3, 4, q, 1, d) && s.now == d && s.commits == [0, 0]
    ensures s.sessions[3].version == 1 && s.sessions[3].parent.None?
    ensures At(s, 4).answer.value == Levels(c.levels(0)) && At(s, 3).sources.Some? && At(s, 3).sources.value < 2
  {
    var s0, o := NewRowsAtHand(c, q, d);
    var s1 := Do(c, s0, Nest(3, 4));
    s := Do(c, s1, Lookup(4, LEVELS_QUERY));
  }

  /** A reader that opened before the commit loads its worker's source set late. */
  lemma OldSourcesLoaded(c: Config, q: Query, wait: nat) returns (s: State)
    requires ValidConfig(c) && q in c.queries && wait <= c.lag
    ensures Reachable(c, s) && s.now == wait && s.commits == [0, 0] && s.sessions.Keys == {1}
    ensures s.sessions[1] == Session(0, 0, Fetching(q, 0, Some(0)), None)
    ensures c.worker(1) in s.sources && s.sources[c.worker(1)] == SourceSet(0, wait)
  {
    Here(c, INIT);
    var s1 := Do(c, INIT, Open(1));
    var s2 := GoFetch(c, s1, 1, q);
    var s3 := Do(c, s2, Commit);
    var s4 := Do(c, s3, Tick(wait));
    s := Do(c, s4, ReadSources(1));
  }

  /** Its query fails, and it is gone. */
  lemma GivesUp(c: Config, s: State, p: nat) returns (t: State)
    requires Reachable(c, s) && p in s.sessions && At(s, p).Fetching?
    ensures Reachable(c, t) && t == s.(keys := t.keys, sessions := s.sessions - {p})
  {
    var s1 := Do(c, s, RunFetch(p, p, true));
    var s2 := Do(c, s1, Release(p));
    t := Do(c, s2, Close(p));
  }

  lemma OldSourcesAtHand(c: Config, q: Query, d: nat) returns (s: State)
    requires ValidConfig(c) && q in c.queries && d < SOURCES_TTL + c.lag
    ensures MayFetch(c, s, 1, 2, q, 1, d) && s.now == d && s.commits == [0, 0]
    ensures s.sessions[1].version == 1 && s.sessions[1].parent.None?
    ensures At(s, 1).sources == Some(0)
    ensures ReadsLevels(c, q) ==> At(s, 2).answer.value == Levels(c.levels(1))
  {
    var wait := if d <= c.lag then d else c.lag;
    var s0 := OldSourcesLoaded(c, q, wait);
    s0 := GivesUp(c, s0, 1);
    var s1 := Do(c, s0, Tick(d - wait));
    var s2 := Do(c, s1, Open(1));
    var s3 := GoFetch(c, s2, 1, q);
    var s4 := Do(c, s3, ReadSources(1));
    s := BringInputs(c, s4, 1, 2);
  }

  /**
   A session opened d ms after a commit of the level map can fetch a listing of its own rows with
   the level map from before exactly when the listing is filtered by category and d < 60 s + lag.
   */
  lemma OldLevelsIff(c: Config, q: Query, d: nat)
    requires ValidConfig(c) && q in c.queries && c.levels(1) != c.levels(0)
    ensures (exists s, p, child, j :: FetchesOldLevels(c, s, p, child, q, j, d))
            <==> ReadsLevels(c, q) && d < LEVELS_TTL + c.lag
  {
    if ReadsLevels(c, q) && d < LEVELS_TTL + c.lag {
      var s := OldLevelsAtHand(c, q, d);
      assert FetchesOldLevels(c, s, 3, 4, q, 1, d);
    }
    if s, p, child, j :| FetchesOldLevels(c, s, p, child, q, j, d) {
      ReachableInv(c, s);
      var l := LevelsAreFresh(c, s, p, child);
      NotBefore(s, l, s.sessions[p].began - (LEVELS_TTL + c.lag), j);
    }
  }

  /** The same for the source set: exactly when the query reads it and d < 30 s + lag. */
  lemma OldSourcesIff(c: Config, q: Query, d: nat)
    requires ValidConfig(c) && q in c.queries
    ensures (exists s, p, child, j :: FetchesOldSources(c, s, p, child, q, j, d))
            <==> ReadsSources(q) && d < SOURCES_TTL + c.lag
  {
    if ReadsSources(q) && d < SOURCES_TTL + c.lag {
      var s := OldSourcesAtHand(c, q, d);
      assert FetchesOldSources(c, s, 1, 2, q, 1, d);
    }
    if s, p, child, j :| FetchesOldSources(c, s, p, child, q, j, d) {
      ReachableInv(c, s);
      assert SessionOk(c, s, s.sessions[p]);
      NotBefore(s, At(s, p).sources.value, s.sessions[p].began - (SOURCES_TTL + c.lag), j);
    }
  }

  /** Such a fetch answers with rows of the later version and levels of the earlier one. */
  lemma MixedListing(c: Config, q: Query, d: nat) returns (s: State, o: nat)
    requires ValidConfig(c) && q in c.queries && ReadsLevels(c, q) && d < LEVELS_TTL + c.lag
    ensures Reachable(c, s) && s.now == d && s.commits == [0, 0] && 3 in s.sessions && s.sessions[3].version == 1
    ensures s.sessions[3].began == d && s.sessions[3].parent.None? && o < 2
    ensures At(s, 3).Storing? && At(s, 3).q == q && Some(At(s, 3).value) == Fetch(c, q, Inputs(1, 0, o))
    ensures At(s, 3).value == Listing(c.listing(q, 1, c.levels(0), o))
  {
    var s0 := OldLevelsAtHand(c, q, d);
    o := s0.sessions[3].pc.sources.value;
    assert FetchResult(c, s0, 3, 4) == Fetch(c, q, Inputs(1, 0, o));
    s := Do(c, s0, RunFetch(3, 4, false));
  }

  // ---------- old levels and old sources in a hit ----------

  /** What a session is about to store it may store `lag` later. */
  lemma StoreLate(c: Config, s: State, p: nat) returns (t: State)
    requires ValidConfig(c) && Reachable(c, s) && p in s.sessions && At(s, p).Storing? && s.now == s.sessions[p].began
    ensures var Storing(q, _, v) := At(s, p);
            && Reachable(c, t) && t.now == s.now + c.lag && t.commits == s.commits && p in t.sessions
            && t.sessions[p] == s.sessions[p].(pc := Replied(q, Answer(v, false, t.now)))
            && q in c.queries && Key(c, q) in t.keys && t.keys[Key(c, q)] == Entry(Data(v), t.now + Ttl(c, q))
  {
    var q := At(s, p).q;
    ReachableInv(c, s);
    assert SessionOk(c, s, s.sessions[p]);
    CacheKeys.KeysApart(c.hash, q, q);
    var s1 := Do(c, s, Tick(c.lag));
    var s2 := Do(c, s1, StoreValue(p));
    t := Do(c, s2, Release(p));
  }

  /** And it can still be hit ttl - 1 after that. */
  lemma HitLate(c: Config, s: State, p: nat) returns (t: State)
    requires ValidConfig(c) && Reachable(c, s) && p in s.sessions && At(s, p).Storing? && s.now == s.sessions[p].began
    requires s.sessions[p].parent.None?
    ensures var Storing(q, _, v) := At(s, p);
            && Reachable(c, t) && t.commits == s.commits && p in t.sessions
            && t.sessions[p].version == s.sessions[p].version
            && At(t, p) == Replied(q, Answer(v, true, s.now + Ttl(c, q) + c.lag - 1))
  {
    var q := At(s, p).q;
    var s1 := StoreLate(c, s, p);
    var s2 := Do(c, s1, Tick(Ttl(c, q) - 1));
    t := Do(c, s2, Lookup(p, q));
  }

  /** A hit that the query has on no committed level map, or on no committed source set, from commit `j` on. */
  ghost predicate OldLevelsHit(c: Config, s: State, p: nat, q: Query, j: nat, d: nat) {
    && HitAfter(c, s, p, q, j, d)
    && forall x: Inputs | Committed(s, x) && j <= x.levels :: Fetch(c, q, x) != Some(At(s, p).answer.value)
  }

  ghost predicate OldSourcesHit(c: Config, s: State, p: nat, q: Query, j: nat, d: nat) {
    && HitAfter(c, s, p, q, j, d)
    && forall x: Inputs | Committed(s, x) && j <= x.sources :: Fetch(c, q, x) != Some(At(s, p).answer.value)
  }

  lemma LateLevelsHit(c: Config, q: Query, d: nat) returns (s: State, p: nat, x: Inputs)
    requires ValidConfig(c) && q in c.queries && ReadsLevels(c, q)
    requires d + 1 < Ttl(c, q) + c.lag + LEVELS_TTL + c.lag
    ensures HitAfter(c, s, p, q, 1, d) && s.commits == [0, 0]
    ensures Committed(s, x) && x.levels == 0 && Fetch(c, q, x) == Some(At(s, p).answer.value)
  {
    if d < Ttl(c, q) + c.lag {
      s := LateHit(c, q, d);
      p, x := 3, FIRST;
    } else {
      var s0, o := MixedListing(c, q, d + 1 - (Ttl(c, q) + c.lag));
      s := HitLate(c, s0, 3);
      p, x := 3, Inputs(1, 0, o);
    }
  }

  /** A hit with the level map from before a commit, d ms after it: exactly when d + 1 < ttl + lag + 60 s + lag. */
  lemma OldLevelsHitIff(c: Config, q: Query, d: nat)
    requires ValidConfig(c) && q in c.queries && ReadsLevels(c, q)
    requires forall x: Inputs, y: Inputs | OfTwo(x) && OfTwo(y) && x.levels == 0 && y.levels == 1 ::
               Fetch(c, q, x) != Fetch(c, q, y)
    ensures (exists s, p, j :: OldLevelsHit(c, s, p, q, j, d)) <==> d + 1 < Ttl(c, q) + c.lag + LEVELS_TTL + c.lag
  {
    if d + 1 < Ttl(c, q) + c.lag + LEVELS_TTL + c.lag {
      var s, p, x := LateLevelsHit(c, q, d);
      assert OldLevelsHit(c, s, p, q, 1, d);
    }
    if s, p, j :| OldLevelsHit(c, s, p, q, j, d) {
      var x := OldCommitIsSeen(c, s, p, q, j, d);
    }
  }

  lemma LateSourcesHit(c: Config, q: Query, d: nat) returns (s: State, p: nat, x: Inputs)
    requires ValidConfig(c) && q in c.queries && ReadsSources(q)
    requires Fetch(c, q, FIRST).Some? && Fetch(c, q, Inputs(1, 1, 0)).Some?
    requires d + 1 < Ttl(c, q) + c.lag + SOURCES_TTL + c.lag
    ensures HitAfter(c, s, p, q, 1, d) && s.commits == [0, 0]
    ensures Committed(s, x) && x.sources == 0 && Fetch(c, q, x) == Some(At(s, p).answer.value)
  {
    if d < Ttl(c, q) + c.lag {
      s := LateHit(c, q, d);
      p, x := 3, FIRST;
    } else {
      var s0 := OldSourcesAtHand(c, q, d + 1 - (Ttl(c, q) + c.lag));
      p, x := 1, Inputs(1, 1, 0);
      assert FetchResult(c, s0, 1, 2) == Fetch(c, q, x);
      var s1 := Do(c, s0, RunFetch(1, 2, false));
      s := HitLate(c, s1, 1);
    }
  }

  /** A hit with the source set from before a commit, d ms after it: exactly when d + 1 < ttl + lag + 30 s + lag. */
  lemma OldSourcesHitIff(c: Config, q: Query, d: nat)
    requires ValidConfig(c) && q in c.queries && ReadsSources(q)
    requires Fetch(c, q, FIRST).Some? && Fetch(c, q, Inputs(1, 1, 0)).Some?
    requires forall x: Inputs, y: Inputs | OfTwo(x) && OfTwo(y) && x.sources == 0 && y.sources == 1 ::
               Fetch(c, q, x) != Fetch(c, q, y)
    ensures (exists s, p, j :: OldSourcesHit(c, s, p, q, j, d)) <==> d + 1 < Ttl(c, q) + c.lag + SOURCES_TTL + c.lag
  {
    if d + 1 < Ttl(c, q) + c.lag + SOURCES_TTL + c.lag {
      var s, p, x := LateSourcesHit(c, q, d);
      assert OldSourcesHit(c, s, p, q, 1, d);
    }
    if s, p, j :| OldSourcesHit(c, s, p, q, j, d) {
      var x := OldCommitIsSeen(c, s, p, q, j, d);
    }
  }
}
