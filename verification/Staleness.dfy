/** How old a cached answer can be, over every interleaving of the stampede protocol. */
module Staleness {
  import opened CacheClient
  import opened CacheKeys
  import opened Options
  import opened StampedeCache

  // ---------- what survives any step ----------

  /** Time passes and at most one commit happens, at the present time. */
  predicate Later(s: State, t: State) {
    (t.commits == s.commits && s.now <= t.now) || (t.commits == s.commits + [s.now] && t.now == s.now)
  }

  lemma InputsLater(c: Config, s: State, t: State, x: Inputs, after: int)
    requires Later(s, t) && InputsAfter(c, s, x, after) && after < s.now
    ensures InputsAfter(c, t, x, after)
  {
  }

  lemma InputsEarlier(c: Config, s: State, x: Inputs, after: int, before: int)
    requires InputsAfter(c, s, x, after) && before <= after
    ensures InputsAfter(c, s, x, before)
  {
  }

  lemma AnswerLater(c: Config, s: State, t: State, q: Query, v: Value, after: int)
    requires Later(s, t) && AnswerAfter(c, s, q, v, after) && after < s.now
    ensures AnswerAfter(c, t, q, v, after)
  {
    var x: Inputs :| InputsAfter(c, s, x, after) && Fetch(c, q, x) == Some(v);
    InputsLater(c, s, t, x, after);
  }

  lemma FetchedLater(c: Config, s: State, t: State, q: Query, v: Value, version: nat, began: int)
    requires Later(s, t) && FetchedOn(c, s, q, v, version, began) && began <= s.now
    ensures FetchedOn(c, t, q, v, version, began)
  {
    var x: Inputs :| x.version == version && InputsAfter(c, s, x, began - 1) && Fetch(c, q, x) == Some(v);
    InputsLater(c, s, t, x, began - 1);
  }

  lemma CurrentLater(s: State, t: State, version: nat, at: int)
    requires Later(s, t) && CurrentAt(s, version, at) && at <= s.now
    ensures CurrentAt(t, version, at)
  {
  }

  lemma EntryLater(c: Config, s: State, t: State, q: Query, e: Entry<Payload>)
    requires Later(s, t) && EntryOk(c, s, q, e)
    ensures EntryOk(c, t, q, e)
  {
    AnswerLater(c, s, t, q, e.value.v, e.expireAt - Ttl(c, q) - c.lag - 1);
  }

  lemma AnswerOkLater(c: Config, s: State, t: State, q: Query, a: Answer, version: nat, began: int)
    requires ValidConfig(c) && Later(s, t) && AnswerOk(c, s, q, a, version, began)
    ensures AnswerOk(c, t, q, a, version, began)
  {
    if a.hit {
      AnswerLater(c, s, t, q, a.value, a.at - (Ttl(c, q) + c.lag));
    } else {
      FetchedLater(c, s, t, q, a.value, version, began);
    }
  }

  lemma PcLater(c: Config, s: State, t: State, pc: Pc, version: nat, began: int)
    requires ValidConfig(c) && Later(s, t) && PcOk(c, s, pc, version, began) && began <= s.now
    ensures PcOk(c, t, pc, version, began)
  {
    match pc
    case Storing(q, _, v) => FetchedLater(c, s, t, q, v, version, began);
    case Releasing(q, _, Some(a)) => AnswerOkLater(c, s, t, q, a, version, began);
    case Replied(q, a) => AnswerOkLater(c, s, t, q, a, version, began);
    case _ =>
  }

  lemma SessionLater(c: Config, s: State, t: State, x: Session)
    requires ValidConfig(c) && Later(s, t) && SessionOk(c, s, x)
    ensures SessionOk(c, t, x)
  {
    CurrentLater(s, t, x.version, x.began);
    PcLater(c, s, t, x.pc, x.version, x.began);
  }

  /** A step keeps the invariant if whatever it changed is good in the new state. */
  lemma KeepsInv(c: Config, s: State, t: State)
    requires ValidConfig(c) && Inv(c, s) && Later(s, t)
    requires forall q | q in c.queries && Key(c, q) in t.keys ::
               (Key(c, q) in s.keys && t.keys[Key(c, q)] == s.keys[Key(c, q)]) || EntryOk(c, t, q, t.keys[Key(c, q)])
    requires forall p | p in t.sessions ::
               (p in s.sessions && t.sessions[p] == s.sessions[p]) || SessionOk(c, t, t.sessions[p])
    requires forall x | x in t.pending :: x in s.pending || PendingOk(c, t, x)
    requires forall w | w in t.sources ::
               (w in s.sources && t.sources[w] == s.sources[w]) || SourceSetOk(c, t, t.sources[w])
    ensures Inv(c, t)
  {
    forall q | q in c.queries && Key(c, q) in t.keys ensures EntryOk(c, t, q, t.keys[Key(c, q)]) {
      if Key(c, q) in s.keys && t.keys[Key(c, q)] == s.keys[Key(c, q)] {
        EntryLater(c, s, t, q, s.keys[Key(c, q)]);
      }
    }
    forall p | p in t.sessions ensures SessionOk(c, t, t.sessions[p]) {
      if p in s.sessions && t.sessions[p] == s.sessions[p] {
        SessionLater(c, s, t, s.sessions[p]);
      }
    }
    forall x | x in t.pending ensures PendingOk(c, t, x) {
      if x in s.pending {
        FetchedLater(c, s, t, x.q, x.value, x.version, x.began);
      }
    }
    forall w | w in t.sources ensures SourceSetOk(c, t, t.sources[w]) {
      if w in s.sources && t.sources[w] == s.sources[w] {
        assert SourceSetOk(c, s, s.sources[w]);
      }
    }
  }

  // ---------- what each kind of step adds ----------

  /** A session moves, and whatever else changes at this instant is good. */
  lemma SessionMoves(c: Config, s: State, t: State, p: nat, pc: Pc)
    requires ValidConfig(c) && Inv(c, s) && p in s.sessions && t.sessions == Moved(s, p, pc)
    requires t.now == s.now && t.commits == s.commits
    requires forall q | q in c.queries && Key(c, q) in t.keys ::
               (Key(c, q) in s.keys && t.keys[Key(c, q)] == s.keys[Key(c, q)]) || EntryOk(c, t, q, t.keys[Key(c, q)])
    requires forall x | x in t.pending :: x in s.pending || PendingOk(c, t, x)
    requires forall w | w in t.sources ::
               (w in s.sources && t.sources[w] == s.sources[w]) || SourceSetOk(c, t, t.sources[w])
    requires PcOk(c, s, pc, s.sessions[p].version, s.sessions[p].began)
    ensures Inv(c, t)
  {
    var x := s.sessions[p];
    assert SessionOk(c, s, x);
    CurrentLater(s, t, x.version, x.began);
    PcLater(c, s, t, pc, x.version, x.began);
    KeepsInv(c, s, t);
  }

  /** What a GET finds is as fresh as its entry's lifetime allows. */
  lemma HitIsFresh(c: Config, s: State, q: Query, version: nat, began: int)
    requires Inv(c, s) && q in c.queries && Cached(c, s, q).Some? && began <= s.now
    ensures AnswerOk(c, s, q, Answer(Cached(c, s, q).value, true, s.now), version, began)
  {
    var e := s.keys[Key(c, q)];
    var after := e.expireAt - Ttl(c, q) - c.lag - 1;
    var x: Inputs :| InputsAfter(c, s, x, after) && Fetch(c, q, x) == Some(e.value.v);
    InputsEarlier(c, s, x, after, s.now - (Ttl(c, q) + c.lag));
  }

  lemma StoredIsFresh(c: Config, s: State, t: State, q: Query, v: Value, version: nat, began: int)
    requires FetchedOn(c, s, q, v, version, began) && s.now <= began + c.lag
    requires t.now == s.now && t.commits == s.commits
    ensures EntryOk(c, t, q, Entry(Data(v), s.now + Ttl(c, q)))
  {
    var x: Inputs :| x.version == version && InputsAfter(c, s, x, began - 1) && Fetch(c, q, x) == Some(v);
    InputsEarlier(c, s, x, began - 1, s.now - c.lag - 1);
    assert InputsAfter(c, t, x, s.now - c.lag - 1);
  }

  lemma DataKeysDiffer(c: Config)
    requires ValidConfig(c)
    ensures forall a, b | a in c.queries && b in c.queries :: Key(c, a) == Key(c, b) ==> a == b
    ensures forall a, b | a in c.queries && b in c.queries :: Key(c, a) != LockOf(c, b)
  {
    forall a, b | a in c.queries && b in c.queries
      ensures Key(c, a) != LockOf(c, b) && (Key(c, a) == Key(c, b) ==> a == b)
    {
      CacheKeys.KeysApart(c.hash, a, b);
    }
  }

  /** One more entry in the store, under a query's own key. */
  lemma StoredKeys(c: Config, s: State, t: State, q: Query, e: Entry<Payload>)
    requires ValidConfig(c) && q in c.queries && t.keys == s.keys[Key(c, q) := e] && EntryOk(c, t, q, e)
    ensures forall x | x in c.queries && Key(c, x) in t.keys ::
              (Key(c, x) in s.keys && t.keys[Key(c, x)] == s.keys[Key(c, x)]) || EntryOk(c, t, x, t.keys[Key(c, x)])
  {
    DataKeysDiffer(c);
  }

  lemma StoreKeepsInv(c: Config, s: State, p: nat)
    requires ValidConfig(c) && Inv(c, s) && Enabled(c, s, StoreValue(p))
    ensures Inv(c, Apply(c, s, StoreValue(p)))
  {
    var t := Apply(c, s, StoreValue(p));
    var x := s.sessions[p];
    assert SessionOk(c, s, x);
    var Storing(q, since, v) := x.pc;
    StoredIsFresh(c, s, t, q, v, x.version, x.began);
    StoredKeys(c, s, t, q, Entry(Data(v), s.now + Ttl(c, q)));
    SessionMoves(c, s, t, p, Releasing(q, since, Some(Answer(v, false, s.now))));
  }

  lemma PendingRemoved(pending: seq<Pending>, i: nat)
    requires i < |pending|
    ensures forall x | x in pending[..i] + pending[i + 1..] :: x in pending
  {
  }

  lemma LateStoreKeepsInv(c: Config, s: State, i: nat)
    requires ValidConfig(c) && Inv(c, s) && Enabled(c, s, LateStore(i))
    ensures Inv(c, Apply(c, s, LateStore(i)))
  {
    var t := Apply(c, s, LateStore(i));
    var x := s.pending[i];
    assert x in s.pending;
    PendingRemoved(s.pending, i);
    StoredIsFresh(c, s, t, x.q, x.value, x.version, x.began);
    StoredKeys(c, s, t, x.q, Entry(Data(x.value), s.now + Ttl(c, x.q)));
    KeepsInv(c, s, t);
  }

  /** A level map that a nested call brought back is one of a version current not long before. */
  lemma LevelsAreFresh(c: Config, s: State, p: nat, child: nat) returns (l: nat)
    requires Inv(c, s) && p in s.sessions && HasLevels(s, p, child)
    ensures CurrentAfter(s, l, s.sessions[p].began - (LEVELS_TTL + c.lag))
    ensures At(s, child).answer.value == Levels(c.levels(l))
  {
    var x := s.sessions[child];
    assert SessionOk(c, s, x);
    var Replied(q, a) := x.pc;
    if a.hit {
      var y: Inputs :| InputsAfter(c, s, y, a.at - (Ttl(c, q) + c.lag)) && Fetch(c, q, y) == Some(a.value);
      l := y.version;
    } else {
      l := x.version;
    }
  }

  /** What a fetch answers is FetchedOn its session's version. */
  lemma FetchIsOnVersion(c: Config, s: State, p: nat, child: nat, v: Value)
    requires Inv(c, s) && p in s.sessions && InFetch(At(s, p)) && HasInputs(c, s, p, child)
    requires FetchResult(c, s, p, child) == Some(v)
    ensures FetchedOn(c, s, At(s, p).q, v, s.sessions[p].version, s.sessions[p].began)
  {
    var me := s.sessions[p];
    assert SessionOk(c, s, me);
    var l := me.version;
    if ReadsLevels(c, me.pc.q) {
      l := LevelsAreFresh(c, s, p, child);
    }
    var o := if me.pc.sources.Some? then me.pc.sources.value else me.version;
    var x := Inputs(me.version, l, o);
    assert InputsAfter(c, s, x, me.began - 1);
    assert Fetch(c, me.pc.q, x) == Some(v);
  }

  lemma FallbackAnswerKeepsInv(c: Config, s: State, t: State, p: nat, child: nat, v: Value)
    requires ValidConfig(c) && Inv(c, s) && p in s.sessions && InFetch(At(s, p)) && HasInputs(c, s, p, child)
    requires FetchResult(c, s, p, child) == Some(v) && At(s, p).q.endpoint != "open_status"
    requires t.now == s.now && t.commits == s.commits && t.keys == s.keys && t.sources == s.sources
    requires t.sessions == Moved(s, p, Replied(At(s, p).q, Answer(v, false, s.now)))
    requires var x := s.sessions[p];
             t.pending == s.pending || t.pending == s.pending + [Pending(x.pc.q, v, x.version, x.began)]
    ensures Inv(c, t)
  {
    var x := s.sessions[p];
    assert SessionOk(c, s, x);
    FetchIsOnVersion(c, s, p, child, v);
    FetchedLater(c, s, t, x.pc.q, v, x.version, x.began);
    SessionMoves(c, s, t, p, Replied(x.pc.q, Answer(v, false, s.now)));
  }

  lemma FallbackKeepsInv(c: Config, s: State, p: nat, child: nat, fails: bool)
    requires ValidConfig(c) && Inv(c, s) && Enabled(c, s, Fallback(p, child, fails))
    ensures Inv(c, Apply(c, s, Fallback(p, child, fails)))
  {
    var t := Apply(c, s, Fallback(p, child, fails));
    var q := At(s, p).q;
    if !fails && q.endpoint != "open_status" && FetchResult(c, s, p, child).Some? {
      FallbackAnswerKeepsInv(c, s, t, p, child, FetchResult(c, s, p, child).value);
    } else {
      assert SessionOk(c, s, s.sessions[p]);
      SessionMoves(c, s, t, p, NoAnswer(q));
    }
  }

  lemma TryLockKeepsInv(c: Config, s: State, p: nat)
    requires ValidConfig(c) && Inv(c, s) && Enabled(c, s, TryLock(p))
    ensures Inv(c, Apply(c, s, TryLock(p)))
  {
    var t := Apply(c, s, TryLock(p));
    DataKeysDiffer(c);
    assert SessionOk(c, s, s.sessions[p]);
    SessionMoves(c, s, t, p, t.sessions[p].pc);
  }

  lemma ReleaseKeepsInv(c: Config, s: State, p: nat)
    requires ValidConfig(c) && Inv(c, s) && Enabled(c, s, Release(p))
    ensures Inv(c, Apply(c, s, Release(p)))
  {
    var t := Apply(c, s, Release(p));
    assert SessionOk(c, s, s.sessions[p]);
    SessionMoves(c, s, t, p, t.sessions[p].pc);
  }

  lemma LookupKeepsInv(c: Config, s: State, p: nat, q: Query)
    requires ValidConfig(c) && Inv(c, s) && Enabled(c, s, Lookup(p, q))
    ensures Inv(c, Apply(c, s, Lookup(p, q)))
  {
    var t := Apply(c, s, Lookup(p, q));
    if Cached(c, s, q).Some? {
      HitPcOk(c, s, p, q);
    }
    SessionMoves(c, s, t, p, t.sessions[p].pc);
  }

  /** A session that gets a hit, whatever it does with it next. */
  lemma HitPcOk(c: Config, s: State, p: nat, q: Query)
    requires Inv(c, s) && p in s.sessions && q in c.queries && Cached(c, s, q).Some?
    ensures var x, hit := s.sessions[p], Answer(Cached(c, s, q).value, true, s.now);
            PcOk(c, s, Replied(q, hit), x.version, x.began)
  {
    assert SessionOk(c, s, s.sessions[p]);
    HitIsFresh(c, s, q, s.sessions[p].version, s.sessions[p].began);
  }

  lemma PollKeepsInv(c: Config, s: State, p: nat)
    requires ValidConfig(c) && Inv(c, s) && Enabled(c, s, Poll(p))
    ensures Inv(c, Apply(c, s, Poll(p)))
  {
    var t := Apply(c, s, Poll(p));
    var q := At(s, p).q;
    assert SessionOk(c, s, s.sessions[p]);
    if Cached(c, s, q).Some? {
      HitPcOk(c, s, p, q);
    }
    SessionMoves(c, s, t, p, t.sessions[p].pc);
  }

  lemma RecheckKeepsInv(c: Config, s: State, p: nat)
    requires ValidConfig(c) && Inv(c, s) && Enabled(c, s, Recheck(p))
    ensures Inv(c, Apply(c, s, Recheck(p)))
  {
    var t := Apply(c, s, Recheck(p));
    var x := s.sessions[p];
    assert SessionOk(c, s, x);
    if Cached(c, s, x.pc.q).Some? {
      HitIsFresh(c, s, x.pc.q, x.version, x.began);
    }
    SessionMoves(c, s, t, p, t.sessions[p].pc);
  }

  lemma FetchKeepsInv(c: Config, s: State, p: nat, child: nat, fails: bool)
    requires ValidConfig(c) && Inv(c, s) && Enabled(c, s, RunFetch(p, child, fails))
    ensures Inv(c, Apply(c, s, RunFetch(p, child, fails)))
  {
    var t := Apply(c, s, RunFetch(p, child, fails));
    assert SessionOk(c, s, s.sessions[p]);
    if !fails && FetchResult(c, s, p, child).Some? {
      FetchIsOnVersion(c, s, p, child, FetchResult(c, s, p, child).value);
    }
    SessionMoves(c, s, t, p, t.sessions[p].pc);
  }

  lemma SourcesKeepInv(c: Config, s: State, p: nat)
    requires ValidConfig(c) && Inv(c, s) && Enabled(c, s, ReadSources(p))
    ensures Inv(c, Apply(c, s, ReadSources(p)))
  {
    var t := Apply(c, s, ReadSources(p));
    assert SessionOk(c, s, s.sessions[p]);
    if HasFreshSources(c, s, p) {
      assert SourceSetOk(c, s, s.sources[c.worker(p)]);
    }
    SessionMoves(c, s, t, p, t.sessions[p].pc);
  }

  lemma OpenKeepsInv(c: Config, s: State, step: Step)
    requires ValidConfig(c) && Inv(c, s) && Enabled(c, s, step) && (step.Open? || step.Nest?)
    ensures Inv(c, Apply(c, s, step))
  {
    var t := Apply(c, s, step);
    if step.Nest? {
      assert SessionOk(c, s, s.sessions[step.p]);
      assert SessionOk(c, t, t.sessions[step.child]);
    } else {
      assert SessionOk(c, t, t.sessions[step.p]);
    }
    KeepsInv(c, s, t);
  }

  lemma StepIsLater(c: Config, s: State, step: Step)
    requires Enabled(c, s, step)
    ensures Later(s, Apply(c, s, step))
  {
  }

  lemma CallStepKeepsInv(c: Config, s: State, step: Step)
    requires ValidConfig(c) && Inv(c, s) && Enabled(c, s, step)
    requires !step.Tick? && !step.Close? && !step.DeleteKey? && !step.ForgetSources? && !step.Commit?
    ensures Inv(c, Apply(c, s, step))
  {
    match step {
      case Open(_) => OpenKeepsInv(c, s, step);
      case Nest(_, _) => OpenKeepsInv(c, s, step);
      case Lookup(p, q) => LookupKeepsInv(c, s, p, q);
      case TryLock(p) => TryLockKeepsInv(c, s, p);
      case Poll(p) => PollKeepsInv(c, s, p);
      case Recheck(p) => RecheckKeepsInv(c, s, p);
      case ReadSources(p) => SourcesKeepInv(c, s, p);
      case RunFetch(p, child, fails) => FetchKeepsInv(c, s, p, child, fails);
      case StoreValue(p) => StoreKeepsInv(c, s, p);
      case Release(p) => ReleaseKeepsInv(c, s, p);
      case Fallback(p, child, fails) => FallbackKeepsInv(c, s, p, child, fails);
      case LateStore(i) => LateStoreKeepsInv(c, s, i);
    }
  }

  lemma OtherStepKeepsInv(c: Config, s: State, step: Step)
    requires ValidConfig(c) && Inv(c, s) && Enabled(c, s, step)
    requires step.Tick? || step.Close? || step.DeleteKey? || step.ForgetSources? || step.Commit?
    ensures Inv(c, Apply(c, s, step))
  {
    KeepsInv(c, s, Apply(c, s, step));
  }

  /** Every step of every participant keeps the invariant. */
  lemma StepKeepsInv(c: Config, s: State, step: Step)
    requires ValidConfig(c) && Inv(c, s) && Enabled(c, s, step)
    ensures Inv(c, Apply(c, s, step)) && Later(s, Apply(c, s, step))
  {
    StepIsLater(c, s, step);
    if step.Tick? || step.Close? || step.DeleteKey? || step.ForgetSources? || step.Commit? {
      OtherStepKeepsInv(c, s, step);
    } else {
      CallStepKeepsInv(c, s, step);
    }
  }

  lemma {:induction false} RunKeepsInv(c: Config, s: State, steps: seq<Step>)
    requires ValidConfig(c) && Inv(c, s) && Runs(c, s, steps)
    ensures var t := Exec(c, s, steps);
            Inv(c, t) && s.now <= t.now && s.commits <= t.commits
    decreases |steps|
  {
    if steps != [] {
      StepKeepsInv(c, s, steps[0]);
      RunKeepsInv(c, Apply(c, s, steps[0]), steps[1..]);
    }
  }

  /** What every reachable state keeps; time and history only grow. */
  lemma ReachableKeepsInv(c: Config, s: State, t: State)
    requires ValidConfig(c) && Inv(c, s) && ReachableFrom(c, s, t)
    ensures Inv(c, t) && s.now <= t.now && s.commits <= t.commits
  {
    var steps: seq<Step> :| Runs(c, s, steps) && Exec(c, s, steps) == t;
    RunKeepsInv(c, s, steps);
  }

  lemma ReachableInv(c: Config, s: State)
    requires ValidConfig(c) && Reachable(c, s)
    ensures Inv(c, s)
  {
    ReachableKeepsInv(c, INIT, s);
  }

  // ---------- the main results ----------

  /**
   A hit read at time t is the query's own answer on committed inputs: rows of a version that was
   still current after t - (ttl + lag), and, where the fetch uses them, a level map at most
   60 s + lag and a source set at most 30 s + lag older than that.
   */
  lemma BoundedStaleness(c: Config, s: State, p: nat)
    requires ValidConfig(c) && Reachable(c, s) && At(s, p).Replied? && At(s, p).answer.hit
    ensures var Replied(q, a) := At(s, p);
            a.at <= s.now && AnswerAfter(c, s, q, a.value, a.at - (Ttl(c, q) + c.lag))
  {
    ReachableInv(c, s);
    assert SessionOk(c, s, s.sessions[p]);
  }

  /** What a query answers on rows, level map and source set of given versions. */
  ghost predicate Contents(c: Config, q: Query, x: Inputs, value: Value) {
    && (q.endpoint == "detail" ==>
          var place := c.place(q.params, x.version, x.sources);
          place.Some? && value == Detail(place.value.body, None))
    && (q.endpoint == "open_status" ==>
          value == match c.place(q.params, x.version, x.sources)
                   case Some(place) => OpenStatus(Some(place.hours))
                   case None => OpenStatus(None))
    && (q.endpoint == "taxonomy_levels" ==> value == Levels(c.levels(x.version)))
    && (q.endpoint in {"search", "nearby", "map"} ==>
          value == Listing(c.listing(q, x.version, if c.categorised(q) then c.levels(x.levels) else "", x.sources)))
    && (q.endpoint !in {"detail", "open_status", "taxonomy_levels", "search", "nearby", "map"} ==>
          value == Listing(c.listing(q, x.version, "", 0)))
  }

  /** How long the entries of each endpoint live. */
  ghost predicate LivesFor(c: Config, q: Query, ms: nat) {
    && (q.endpoint == "detail" ==> ms == 1800 * 1000)
    && (q.endpoint in {"nearby", "unified_categories"} ==> ms == 300 * 1000)
    && (q.endpoint in {"open_status", "taxonomy_levels"} ==> ms == 60 * 1000)
    && (q.endpoint !in {"detail", "nearby", "unified_categories", "open_status", "taxonomy_levels"} ==>
          ms == c.defaultTtl)
  }

  /**
   Each endpoint's hits spelled out: what the value is made of, and how recent each part is.  Half a
   minute and one minute are what the source set and the level map may be older than the rows.
   */
  lemma HitContents(c: Config, s: State, p: nat) returns (x: Inputs, life: nat)
    requires ValidConfig(c) && Reachable(c, s) && At(s, p).Replied? && At(s, p).answer.hit
    ensures var Replied(q, a) := At(s, p);
            && Contents(c, q, x, a.value) && LivesFor(c, q, life)
            && CurrentAfter(s, x.version, a.at - life - c.lag)
            && CurrentAfter(s, x.levels, a.at - life - 2 * c.lag - 60 * 1000 + 1)
            && CurrentAfter(s, x.sources, a.at - life - 2 * c.lag - 30 * 1000 + 1)
  {
    BoundedStaleness(c, s, p);
    var Replied(q, a) := At(s, p);
    life := Ttl(c, q);
    x :| InputsAfter(c, s, x, a.at - (life + c.lag)) && Fetch(c, q, x) == Some(a.value);
  }

  /**
   A hit of a query whose fetch reads neither the level map nor the source set is what one version
   answers, and that version was still current after t - (ttl + lag).
   */
  lemma OneVersionHits(c: Config, s: State, p: nat) returns (version: nat)
    requires ValidConfig(c) && Reachable(c, s) && At(s, p).Replied? && At(s, p).answer.hit
    requires !ReadsLevels(c, At(s, p).q) && !ReadsSources(At(s, p).q)
    ensures var Replied(q, a) := At(s, p);
            && CurrentAfter(s, version, a.at - (Ttl(c, q) + c.lag))
            && Fetch(c, q, Inputs(version, version, version)) == Some(a.value)
  {
    BoundedStaleness(c, s, p);
    var Replied(q, a) := At(s, p);
    var x: Inputs :| InputsAfter(c, s, x, a.at - (Ttl(c, q) + c.lag)) && Fetch(c, q, x) == Some(a.value);
    version := x.version;
  }

  /** Committed inputs; those parts that are old enough to must show commit `j` or a later one. */
  predicate InputsSince(c: Config, s: State, x: Inputs, j: nat, age: int) {
    && x.version < |s.commits| && x.levels < |s.commits| && x.sources < |s.commits|
    && (age >= 0 ==> j <= x.version)
    && (age + 1 >= LEVELS_TTL + c.lag ==> j <= x.levels)
    && (age + 1 >= SOURCES_TTL + c.lag ==> j <= x.sources)
  }

  /**
   Once a commit is ttl + lag old, every hit has its rows; once it is LEVELS_TTL + lag older
   still, its level map; and its source set after SOURCES_TTL + lag on top.
   */
  lemma CommitReachesHits(c: Config, s: State, p: nat, j: nat)
    requires ValidConfig(c) && Reachable(c, s) && j < |s.commits|
    requires At(s, p).Replied? && At(s, p).answer.hit
    ensures var Replied(q, a) := At(s, p);
            exists x: Inputs ::
              InputsSince(c, s, x, j, a.at - s.commits[j] - (Ttl(c, q) + c.lag)) && Fetch(c, q, x) == Some(a.value)
  {
    BoundedStaleness(c, s, p);
    ReachableInv(c, s);
    InputsReachCommit(c, s, At(s, p).q, At(s, p).answer, j);
  }

  lemma InputsReachCommit(c: Config, s: State, q: Query, a: Answer, j: nat)
    requires CommitsOk(s) && AnswerAfter(c, s, q, a.value, a.at - (Ttl(c, q) + c.lag)) && j < |s.commits|
    ensures exists x: Inputs ::
              InputsSince(c, s, x, j, a.at - s.commits[j] - (Ttl(c, q) + c.lag)) && Fetch(c, q, x) == Some(a.value)
  {
    var after := a.at - (Ttl(c, q) + c.lag);
    var x: Inputs :| InputsAfter(c, s, x, after) && Fetch(c, q, x) == Some(a.value);
    NotBefore(s, x.version, after, j);
    NotBefore(s, x.levels, after + 1 - (LEVELS_TTL + c.lag), j);
    NotBefore(s, x.sources, after + 1 - (SOURCES_TTL + c.lag), j);
    assert InputsSince(c, s, x, j, after - s.commits[j]);
  }

  /** A version still current after a commit is that commit's or a later one. */
  lemma NotBefore(s: State, version: nat, after: int, j: nat)
    requires CommitsOk(s) && CurrentAfter(s, version, after) && j < |s.commits|
    ensures s.commits[j] <= after ==> j <= version
  {
    assert version + 1 <= j ==> s.commits[version + 1] <= s.commits[j];
  }

  /** Whatever is cached under a query's key was the answer to that very query on committed inputs. */
  lemma NoForeignValues(c: Config, s: State, q: Query)
    requires ValidConfig(c) && Reachable(c, s) && q in c.queries && Key(c, q) in s.keys
    ensures var e := s.keys[Key(c, q)];
            e.value.Data? && exists x: Inputs ::
              && x.version < |s.commits| && x.levels < |s.commits| && x.sources < |s.commits|
              && Fetch(c, q, x) == Some(e.value.v)
  {
    ReachableInv(c, s);
    var e := s.keys[Key(c, q)];
    var x: Inputs :| InputsAfter(c, s, x, e.expireAt - Ttl(c, q) - c.lag - 1) && Fetch(c, q, x) == Some(e.value.v);
  }

  /** An entity that no committed version has is not cached as a detail. */
  lemma NotFoundIsNotCached(c: Config, s: State, params: string)
    requires ValidConfig(c) && Reachable(c, s) && Query("detail", params) in c.queries
    requires forall i: nat, o: nat | i < |s.commits| && o < |s.commits| :: c.place(params, i, o).None?
    ensures Key(c, Query("detail", params)) !in s.keys
  {
    var q := Query("detail", params);
    if Key(c, q) in s.keys {
      NoForeignValues(c, s, q);
    }
  }

  // ---------- two lifetimes in one reply ----------

  /** cached_detail: the stored body, with the hours of the status answer if it has any. */
  function Compose(body: Value, status: Option<Value>): Option<Hours>
    requires body.Detail?
  {
    match status
    case Some(OpenStatus(Some(h))) => Some(h)
    case _ => body.hours
  }

  /**
   The hours served with a session's detail answer, after its later open-status lookup, which may
   also have come to nothing: blank, or those of the open-status query alone, on a version current
   within 60 s + lag of that read, even when the body is up to 1800 s + lag old.
   */
  lemma TwoLifetimes(c: Config, s: State, t: State, p: nat, params: string)
    requires ValidConfig(c) && Reachable(c, s) && ReachableFrom(c, s, t)
    requires At(s, p).Replied? && At(s, p).q == Query("detail", params)
    requires (At(t, p).Replied? || At(t, p).NoAnswer?) && At(t, p).q == Query("open_status", params)
    ensures var a := At(s, p).answer;
            && a.value.Detail?
            && (a.hit ==> AnswerAfter(c, s, At(s, p).q, a.value, a.at - (1800000 + c.lag)))
            && (At(t, p).NoAnswer? ==> Compose(a.value, None) == None)
            && (At(t, p).Replied? ==>
                  var b := At(t, p).answer;
                  && AnswerAfter(c, t, At(t, p).q, b.value, b.at - (60000 + c.lag))
                  && b.value == OpenStatus(Compose(a.value, Some(b.value))))
  {
    ReachableInv(c, s);
    ReachableKeepsInv(c, s, t);
    DetailShape(c, s, p);
    if At(s, p).answer.hit {
      BoundedStaleness(c, s, p);
    }
    if At(t, p).Replied? {
      StatusIsRecent(c, t, p);
    }
  }

  /** An open-status answer, read or fetched, is on inputs of the last 60 s + lag. */
  lemma StatusAnswer(c: Config, t: State, q: Query, b: Answer, version: nat, began: int) returns (x: Inputs)
    requires AnswerOk(c, t, q, b, version, began) && q.endpoint == "open_status"
    ensures InputsAfter(c, t, x, b.at - (60000 + c.lag)) && Fetch(c, q, x) == Some(b.value)
  {
    var after := b.at - (60000 + c.lag);
    if b.hit {
      x :| InputsAfter(c, t, x, after) && Fetch(c, q, x) == Some(b.value);
    } else {
      x :| x.version == version && InputsAfter(c, t, x, began - 1) && Fetch(c, q, x) == Some(b.value);
      InputsEarlier(c, t, x, began - 1, after);
    }
  }

  lemma StatusIsRecent(c: Config, t: State, p: nat)
    requires Inv(c, t) && At(t, p).Replied? && At(t, p).q.endpoint == "open_status"
    ensures var b := At(t, p).answer;
            AnswerAfter(c, t, At(t, p).q, b.value, b.at - (60000 + c.lag)) && b.value.OpenStatus?
  {
    var y := t.sessions[p];
    assert SessionOk(c, t, y);
    var x := StatusAnswer(c, t, y.pc.q, y.pc.answer, y.version, y.began);
  }

  lemma DetailShape(c: Config, s: State, p: nat)
    requires Inv(c, s) && At(s, p).Replied? && At(s, p).q.endpoint == "detail"
    ensures At(s, p).answer.value.Detail? && At(s, p).answer.value.hours == None
  {
    var x := s.sessions[p];
    var Replied(q, a) := x.pc;
    assert SessionOk(c, s, x);
    if a.hit {
      var y: Inputs :| InputsAfter(c, s, y, a.at - (Ttl(c, q) + c.lag)) && Fetch(c, q, y) == Some(a.value);
    } else {
      var y: Inputs :|
        y.version == x.version && InputsAfter(c, s, y, x.began - 1) && Fetch(c, q, y) == Some(a.value);
    }
  }
}
