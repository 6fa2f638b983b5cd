/**
 The stampede-protected cache as a protocol: any number of sessions over one Redis keyspace
 and one database, interleaved one Redis command or one query at a time.

 The database is its history of commits; version i is the state after commit i, current from
 `commits[i]` until `commits[i + 1]`.  A session reads the version that was current when it
 began (REPEATABLE READ), however long it then waits.  Writers delete cache keys one by one
 and commit afterwards, so `DeleteKey` and `Commit` are separate steps.

 Two things a fetch uses may come from another version than its rows: the map of category
 levels, which is itself looked up through the cache in the middle of the fetch, and the set of
 enabled sources, which every worker process keeps in memory for a while.

 Times are milliseconds on one clock.
 */
module StampedeCache {
  import opened CacheClient
  import opened CacheKeys
  import opened Options

  datatype Hours = Hours(isOpen: Option<bool>, opensAt: Option<string>, closesAt: Option<string>)

  /** An entity as one version has it. */
  datatype Place = Place(body: string, hours: Hours)

  /** What an endpoint stores: a detail body has its hours blanked out. */
  datatype Value =
    | Detail(body: string, hours: Option<Hours>)
    | OpenStatus(hours: Option<Hours>)
    | Listing(json: string)
    | Levels(text: string)

  /** One keyspace holds data and locks.  Redis stores "1" for a lock; the owner is bookkeeping. */
  datatype Payload = Data(v: Value) | Lock(owner: nat)

  /**
   `place`, `levels` and `listing` are what queries answer, by the version of the rows, of the
   level map and of the source set; `worker` is the process a session runs in; `lag` bounds how
   long after opening a session may still write what it read to Redis or to its worker's memory.
   */
  datatype Config = Config(
    hash: string -> string,
    queries: set<Query>,
    defaultTtl: nat,
    lag: nat,
    worker: nat -> nat,
    categorised: Query -> bool,
    levels: nat -> string,
    place: (string, nat, nat) -> Option<Place>,
    listing: (Query, nat, string, nat) -> string)

  const LEVELS_QUERY := Query("taxonomy_levels", "{}")

  const LEVELS_TTL: int := 60000
  const SOURCES_TTL: int := 30000

  ghost predicate ValidConfig(c: Config) {
    GoodHash(c.hash, c.queries) && LEVELS_QUERY in c.queries && c.defaultTtl > 0
  }

  function Key(c: Config, q: Query): string { DataKey(c.hash, q) }

  function LockOf(c: Config, q: Query): string { LockKey(c.hash, q) }

  function Ttl(c: Config, q: Query): nat {
    if q.endpoint == "detail" then 1800000
    else if q.endpoint == "open_status" || q.endpoint == "taxonomy_levels" then 60000
    else if q.endpoint == "nearby" || q.endpoint == "unified_categories" then 300000
    else c.defaultTtl
  }

  predicate IsEntityListing(q: Query) {
    q.endpoint == "search" || q.endpoint == "nearby" || q.endpoint == "map"
  }

  /** The listing is filtered by a unified category, whose level has to be known. */
  predicate ReadsLevels(c: Config, q: Query) { IsEntityListing(q) && c.categorised(q) }

  predicate ReadsSources(q: Query) {
    IsEntityListing(q) || q.endpoint == "detail" || q.endpoint == "open_status"
  }

  /** The versions a fetch takes its rows, its level map and its source set from. */
  datatype Inputs = Inputs(version: nat, levels: nat, sources: nat)

  /** The fetch function of a query on a version; None when it raises. */
  function FetchWith(c: Config, q: Query, version: nat, levels: string, sources: nat): Option<Value> {
    if q.endpoint == "detail" then
      match c.place(q.params, version, sources)
      case None => None
      case Some(p) => Some(Detail(p.body, None))
    else if q.endpoint == "open_status" then
      match c.place(q.params, version, sources)
      case None => Some(OpenStatus(None))
      case Some(p) => Some(OpenStatus(Some(p.hours)))
    else if q.endpoint == "taxonomy_levels" then Some(Levels(c.levels(version)))
    else
      Some(Listing(c.listing(
        q, version, if ReadsLevels(c, q) then levels else "", if ReadsSources(q) then sources else 0)))
  }

  function Fetch(c: Config, q: Query, x: Inputs): Option<Value> {
    FetchWith(c, q, x.version, c.levels(x.levels), x.sources)
  }

  // ---------- states ----------

  /** `at` is when the value was read (a hit) or stored or fetched (a miss). */
  datatype Answer = Answer(value: Value, hit: bool, at: int)

  datatype Pc =
    | Idle
    | Missed(q: Query)
    | Waiting(q: Query, polls: nat)
    | Locked(q: Query, since: int)
    | Fetching(q: Query, since: int, sources: Option<nat>)
    | Storing(q: Query, since: int, value: Value)
    | Releasing(q: Query, since: int, outcome: Option<Answer>)
    | FellThrough(q: Query, sources: Option<nat>)
    | Replied(q: Query, answer: Answer)
    | NoAnswer(q: Query)

  /** A nested call shares its caller's database session; `parent` is that caller. */
  datatype Session = Session(version: nat, began: int, pc: Pc, parent: Option<nat>)

  /** A fire-and-forget store that has not reached Redis yet. */
  datatype Pending = Pending(q: Query, value: Value, version: nat, began: int)

  /** A worker's copy of the enabled sources: the version it was read from, and when. */
  datatype SourceSet = SourceSet(version: nat, at: int)

  datatype State = State(
    now: int,
    commits: seq<int>,
    keys: map<string, Entry<Payload>>,
    sessions: map<nat, Session>,
    pending: seq<Pending>,
    sources: map<nat, SourceSet>)

  const INIT := State(0, [0], map[], map[], [], map[])

  // ---------- steps ----------

  datatype Step =
    | Tick(d: nat)
    | Open(p: nat)
    | Nest(p: nat, child: nat)       // the call for the level map inside a fetch
    | Close(p: nat)
    | Lookup(p: nat, q: Query)       // GET
    | TryLock(p: nat)                // SET NX EX
    | Poll(p: nat)                   // sleep, GET; or give up after the last try
    | Recheck(p: nat)                // GET under the lock
    | ReadSources(p: nat)            // the worker's copy of the source set, reloaded when it is old
    | RunFetch(p: nat, child: nat, fails: bool)  // the query, which may also raise for its own reasons
    | StoreValue(p: nat)             // SET EX
    | Release(p: nat)                // DEL of the lock key, whoever set it
    | Fallback(p: nat, child: nat, fails: bool)  // what a caller does with (None, "MISS")
    | LateStore(i: nat)              // SET EX of a pending store
    | DeleteKey(key: string)         // one DEL of an invalidation, or an eviction
    | ForgetSources(w: nat)          // an admin change clears one worker's copy
    | Commit

  const MAX_POLLS: nat := 100

  function At(s: State, p: nat): Pc {
    if p in s.sessions then s.sessions[p].pc else Idle
  }

  predicate Resting(pc: Pc) { pc.Idle? || pc.Replied? || pc.NoAnswer? }

  predicate InFetch(pc: Pc) { pc.Fetching? || pc.FellThrough? }

  predicate HasFreshSources(c: Config, s: State, p: nat) {
    c.worker(p) in s.sources && s.now < s.sources[c.worker(p)].at + SOURCES_TTL
  }

  /** `child` is a nested call of `p` that has come back with a level map. */
  predicate HasLevels(s: State, p: nat, child: nat)
    requires p in s.sessions
  {
    && child in s.sessions
    && s.sessions[child].parent == Some(p)
    && s.sessions[child].version == s.sessions[p].version && s.sessions[child].began == s.sessions[p].began
    && At(s, child).Replied? && At(s, child).q == LEVELS_QUERY && At(s, child).answer.value.Levels?
  }

  /** Everything a fetch of `p` needs besides its snapshot has been read. */
  predicate HasInputs(c: Config, s: State, p: nat, child: nat)
    requires p in s.sessions && InFetch(At(s, p))
  {
    && (ReadsSources(At(s, p).q) ==> At(s, p).sources.Some?)
    && (ReadsLevels(c, At(s, p).q) ==> HasLevels(s, p, child))
  }

  predicate Enabled(c: Config, s: State, step: Step) {
    match step
    case Tick(d) => true
    case Open(p) => p !in s.sessions
    case Nest(p, child) =>
      p in s.sessions && InFetch(At(s, p)) && ReadsLevels(c, At(s, p).q) && child !in s.sessions
    case Close(p) => p in s.sessions && Resting(At(s, p))
    case Lookup(p, q) =>
      p in s.sessions && Resting(At(s, p)) && q in c.queries && (s.sessions[p].parent.Some? ==> q == LEVELS_QUERY)
    case TryLock(p) => p in s.sessions && At(s, p).Missed?
    case Poll(p) => p in s.sessions && At(s, p).Waiting?
    case Recheck(p) => p in s.sessions && At(s, p).Locked?
    case ReadSources(p) =>
      p in s.sessions && InFetch(At(s, p)) && (HasFreshSources(c, s, p) || s.now <= s.sessions[p].began + c.lag)
    case RunFetch(p, child, fails) => p in s.sessions && At(s, p).Fetching? && (fails || HasInputs(c, s, p, child))
    case StoreValue(p) => p in s.sessions && At(s, p).Storing? && s.now <= s.sessions[p].began + c.lag
    case Release(p) => p in s.sessions && At(s, p).Releasing?
    case Fallback(p, child, fails) =>
      p in s.sessions && At(s, p).FellThrough? &&
      (fails || At(s, p).q.endpoint == "open_status" || HasInputs(c, s, p, child))
    case LateStore(i) => i < |s.pending| && s.now <= s.pending[i].began + c.lag
    case DeleteKey(key) => true
    case ForgetSources(w) => true
    case Commit => true
  }

  function Cached(c: Config, s: State, q: Query): Option<Value> {
    var r: Option<Payload> := Read(s.keys, Key(c, q), s.now);
    if r.Some? && r.value.Data? then Some(r.value.v) else None
  }

  function Moved(s: State, p: nat, pc: Pc): map<nat, Session>
    requires p in s.sessions
  {
    s.sessions[p := s.sessions[p].(pc := pc)]
  }

  /** What the fetch of `p` answers with the inputs it has read. */
  function FetchResult(c: Config, s: State, p: nat, child: nat): Option<Value>
    requires p in s.sessions && InFetch(At(s, p)) && HasInputs(c, s, p, child)
  {
    FetchWith(
      c, At(s, p).q, s.sessions[p].version,
      if ReadsLevels(c, At(s, p).q) then At(s, child).answer.value.text else "",
      if At(s, p).sources.Some? then At(s, p).sources.value else 0)
  }

  function Apply(c: Config, s: State, step: Step): State
    requires Enabled(c, s, step)
  {
    match step
    case Tick(d) => s.(now := s.now + d)
    case Open(p) =>
      var latest := if s.commits == [] then 0 else |s.commits| - 1;
      s.(sessions := s.sessions[p := Session(latest, s.now, Idle, None)])
    case Nest(p, child) =>
      s.(sessions := s.sessions[child := Session(s.sessions[p].version, s.sessions[p].began, Idle, Some(p))])
    case Close(p) => s.(sessions := s.sessions - {p})
    case Lookup(p, q) =>
      (match Cached(c, s, q)
       case Some(v) => s.(sessions := Moved(s, p, Replied(q, Answer(v, true, s.now))))
       case None => s.(sessions := Moved(s, p, Missed(q))))
    case TryLock(p) =>
      var q := At(s, p).q;
      if Read(s.keys, LockOf(c, q), s.now).Some? then s.(sessions := Moved(s, p, Waiting(q, 0)))
      else s.(keys := s.keys[LockOf(c, q) := Entry(Lock(p), s.now + LOCK_TIMEOUT)],
              sessions := Moved(s, p, Locked(q, s.now)))
    case Poll(p) =>
      var Waiting(q, polls) := At(s, p);
      if polls >= MAX_POLLS then s.(sessions := Moved(s, p, FellThrough(q, None)))
      else
        (match Cached(c, s, q)
         case Some(v) => s.(sessions := Moved(s, p, Replied(q, Answer(v, true, s.now))))
         case None => s.(sessions := Moved(s, p, Waiting(q, polls + 1))))
    case Recheck(p) =>
      var Locked(q, since) := At(s, p);
      (match Cached(c, s, q)
       case Some(v) => s.(sessions := Moved(s, p, Releasing(q, since, Some(Answer(v, true, s.now)))))
       case None => s.(sessions := Moved(s, p, Fetching(q, since, None))))
    case ReadSources(p) =>
      if HasFreshSources(c, s, p) then
        s.(sessions := Moved(s, p, At(s, p).(sources := Some(s.sources[c.worker(p)].version))))
      else
        s.(sessions := Moved(s, p, At(s, p).(sources := Some(s.sessions[p].version))),
           sources := s.sources[c.worker(p) := SourceSet(s.sessions[p].version, s.now)])
    case RunFetch(p, child, fails) =>
      var q, since := At(s, p).q, At(s, p).since;
      if fails then s.(sessions := Moved(s, p, Releasing(q, since, None)))
      else
        (match FetchResult(c, s, p, child)
         case Some(v) => s.(sessions := Moved(s, p, Storing(q, since, v)))
         case None => s.(sessions := Moved(s, p, Releasing(q, since, None))))
    case StoreValue(p) =>
      var Storing(q, since, v) := At(s, p);
      s.(keys := s.keys[Key(c, q) := Entry(Data(v), s.now + Ttl(c, q))],
         sessions := Moved(s, p, Releasing(q, since, Some(Answer(v, false, s.now)))))
    case Release(p) =>
      var Releasing(q, _, outcome) := At(s, p);
      s.(keys := s.keys - {LockOf(c, q)},
         sessions := Moved(s, p, if outcome.Some? then Replied(q, outcome.value) else NoAnswer(q)))
    case Fallback(p, child, fails) =>
      var q := At(s, p).q;
      if fails || q.endpoint == "open_status" then s.(sessions := Moved(s, p, NoAnswer(q)))
      else
        (match FetchResult(c, s, p, child)
         case None => s.(sessions := Moved(s, p, NoAnswer(q)))
         case Some(v) =>
           var moved := s.(sessions := Moved(s, p, Replied(q, Answer(v, false, s.now))));
           if q.endpoint == "taxonomy_levels" then moved
           else moved.(pending := s.pending + [Pending(q, v, s.sessions[p].version, s.sessions[p].began)]))
    case LateStore(i) =>
      var x := s.pending[i];
      s.(keys := s.keys[Key(c, x.q) := Entry(Data(x.value), s.now + Ttl(c, x.q))],
         pending := s.pending[..i] + s.pending[i + 1..])
    case DeleteKey(key) => s.(keys := s.keys - {key})
    case ForgetSources(w) => s.(sources := s.sources - {w})
    case Commit => s.(commits := s.commits + [s.now])
  }

  predicate Runs(c: Config, s: State, steps: seq<Step>)
    decreases |steps|
  {
    steps == [] || (Enabled(c, s, steps[0]) && Runs(c, Apply(c, s, steps[0]), steps[1..]))
  }

  function Exec(c: Config, s: State, steps: seq<Step>): State
    requires Runs(c, s, steps)
    decreases |steps|
  {
    if steps == [] then s else Exec(c, Apply(c, s, steps[0]), steps[1..])
  }

  /** Some run leads from `s` to `t`. */
  ghost predicate ReachableFrom(c: Config, s: State, t: State) {
    exists steps: seq<Step> :: Runs(c, s, steps) && Exec(c, s, steps) == t
  }

  ghost predicate Reachable(c: Config, s: State) { ReachableFrom(c, INIT, s) }

  lemma {:induction false} RunsConcat(c: Config, s: State, a: seq<Step>, b: seq<Step>)
    requires Runs(c, s, a) && Runs(c, Exec(c, s, a), b)
    ensures Runs(c, s, a + b) && Exec(c, s, a + b) == Exec(c, Exec(c, s, a), b)
    decreases |a|
  {
    if a == [] {
      assert a + b == b;
    } else {
      assert (a + b)[0] == a[0] && (a + b)[1..] == a[1..] + b;
      RunsConcat(c, Apply(c, s, a[0]), a[1..], b);
    }
  }

  lemma RunStep(c: Config, s: State, step: Step, rest: seq<Step>)
    requires Enabled(c, s, step) && Runs(c, Apply(c, s, step), rest)
    ensures Runs(c, s, [step] + rest) && Exec(c, s, [step] + rest) == Exec(c, Apply(c, s, step), rest)
  {
    assert ([step] + rest)[1..] == rest;
  }

  lemma Reached(c: Config, s: State, step: Step, t: State)
    requires Enabled(c, s, step) && ReachableFrom(c, Apply(c, s, step), t)
    ensures ReachableFrom(c, s, t)
  {
    var rest: seq<Step> :| Runs(c, Apply(c, s, step), rest) && Exec(c, Apply(c, s, step), rest) == t;
    RunStep(c, s, step, rest);
  }

  lemma Here(c: Config, s: State)
    ensures ReachableFrom(c, s, s)
  {
    assert Runs(c, s, []) && Exec(c, s, []) == s;
  }

  lemma OneStep(c: Config, s: State, step: Step)
    requires Enabled(c, s, step)
    ensures ReachableFrom(c, s, Apply(c, s, step))
  {
    Here(c, Apply(c, s, step));
    Reached(c, s, step, Apply(c, s, step));
  }

  lemma Onward(c: Config, s: State, t: State, u: State)
    requires ReachableFrom(c, s, t) && ReachableFrom(c, t, u)
    ensures ReachableFrom(c, s, u)
  {
    var a: seq<Step> :| Runs(c, s, a) && Exec(c, s, a) == t;
    var b: seq<Step> :| Runs(c, t, b) && Exec(c, t, b) == u;
    RunsConcat(c, s, a, b);
  }

  lemma StepOnward(c: Config, s: State, t: State, step: Step)
    requires ReachableFrom(c, s, t) && Enabled(c, t, step)
    ensures ReachableFrom(c, s, Apply(c, t, step))
  {
    OneStep(c, t, step);
    Onward(c, s, t, Apply(c, t, step));
  }

  // ---------- staleness ----------

  /** `version` was current at time `t`. */
  predicate CurrentAt(s: State, version: nat, t: int) {
    version < |s.commits| && s.commits[version] <= t
    && (version + 1 < |s.commits| ==> t <= s.commits[version + 1])
  }

  /** `version` was committed, and still current some time after `t`. */
  predicate CurrentAfter(s: State, version: nat, t: int) {
    version < |s.commits| && (version + 1 < |s.commits| ==> t < s.commits[version + 1])
  }

  /** Committed inputs with rows current after `t`, and level map and source set not much older. */
  predicate InputsAfter(c: Config, s: State, x: Inputs, t: int) {
    && CurrentAfter(s, x.version, t)
    && CurrentAfter(s, x.levels, t + 1 - (LEVELS_TTL + c.lag))
    && CurrentAfter(s, x.sources, t + 1 - (SOURCES_TTL + c.lag))
  }

  /** The value answers the query on such inputs. */
  ghost predicate AnswerAfter(c: Config, s: State, q: Query, v: Value, t: int) {
    exists x: Inputs :: InputsAfter(c, s, x, t) && Fetch(c, q, x) == Some(v)
  }

  /** The value is what a session on `version`, opened at `began`, fetched for the query. */
  ghost predicate FetchedOn(c: Config, s: State, q: Query, v: Value, version: nat, began: int) {
    exists x: Inputs :: x.version == version && InputsAfter(c, s, x, began - 1) && Fetch(c, q, x) == Some(v)
  }

  ghost predicate EntryOk(c: Config, s: State, q: Query, e: Entry<Payload>) {
    && e.value.Data?
    && e.expireAt - Ttl(c, q) <= s.now
    && AnswerAfter(c, s, q, e.value.v, e.expireAt - Ttl(c, q) - c.lag - 1)
  }

  ghost predicate AnswerOk(c: Config, s: State, q: Query, a: Answer, version: nat, began: int) {
    && began <= a.at <= s.now
    && (a.hit ==> AnswerAfter(c, s, q, a.value, a.at - (Ttl(c, q) + c.lag)))
    && (!a.hit ==> FetchedOn(c, s, q, a.value, version, began))
    && (!a.hit && q.endpoint == "open_status" ==> a.at - c.lag <= began)
  }

  predicate SourcesReadOk(c: Config, s: State, sources: Option<nat>, began: int) {
    sources.Some? ==> CurrentAfter(s, sources.value, began - (SOURCES_TTL + c.lag))
  }

  ghost predicate PcOk(c: Config, s: State, pc: Pc, version: nat, began: int) {
    match pc
    case Idle => true
    case Fetching(q, _, sources) => q in c.queries && SourcesReadOk(c, s, sources, began)
    case FellThrough(q, sources) => q in c.queries && SourcesReadOk(c, s, sources, began)
    case Storing(q, _, v) => q in c.queries && FetchedOn(c, s, q, v, version, began)
    case Releasing(q, _, Some(a)) => q in c.queries && AnswerOk(c, s, q, a, version, began)
    case Replied(q, a) => q in c.queries && AnswerOk(c, s, q, a, version, began)
    case _ => pc.q in c.queries
  }

  ghost predicate SessionOk(c: Config, s: State, x: Session) {
    x.began <= s.now && CurrentAt(s, x.version, x.began) && PcOk(c, s, x.pc, x.version, x.began)
  }

  ghost predicate PendingOk(c: Config, s: State, x: Pending) {
    x.q in c.queries && x.began <= s.now && FetchedOn(c, s, x.q, x.value, x.version, x.began)
  }

  predicate SourceSetOk(c: Config, s: State, x: SourceSet) {
    x.at <= s.now && CurrentAfter(s, x.version, x.at - c.lag - 1)
  }

  ghost predicate CommitsOk(s: State) {
    && s.commits != []
    && (forall i | 0 <= i < |s.commits| :: s.commits[i] <= s.now)
    && (forall i, j | 0 <= i < j < |s.commits| :: s.commits[i] <= s.commits[j])
  }

  ghost predicate Inv(c: Config, s: State) {
    && CommitsOk(s)
    && (forall q | q in c.queries && Key(c, q) in s.keys :: EntryOk(c, s, q, s.keys[Key(c, q)]))
    && (forall p | p in s.sessions :: SessionOk(c, s, s.sessions[p]))
    && (forall x | x in s.pending :: PendingOk(c, s, x))
    && (forall w | w in s.sources :: SourceSetOk(c, s, s.sources[w]))
  }
}
