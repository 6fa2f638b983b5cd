/**
 What a single caller of the stampede cache does, whatever everybody else does in the meantime:
 a waiter that polls, a lock holder that checks again, a caller that gives up.
 */
module CacheCalls {
  import opened CacheClient
  import opened CacheKeys
  import opened Options
  import opened StampedeCache

  /** Redis would answer a GET of the query's key with this value. */
  predicate Holds(c: Config, s: State, q: Query, v: Value) {
    var key := DataKey(c.hash, q);
    key in s.keys && s.keys[key].value == Data(v) && s.now < s.keys[key].expireAt
  }

  /** No GET of the query's key would be answered with data. */
  predicate HoldsNothing(c: Config, s: State, q: Query) {
    var key := DataKey(c.hash, q);
    key !in s.keys || !s.keys[key].value.Data? || s.keys[key].expireAt <= s.now
  }

  /** In `t` session `p` stands at `pc`, and nothing else has changed since `s`. */
  predicate OnlyMoves(s: State, t: State, p: nat, pc: Pc) {
    && p in s.sessions && t.sessions == s.sessions[p := s.sessions[p].(pc := pc)]
    && t == s.(sessions := t.sessions)
  }

  // ---------- one step of one caller ----------

  /** A GET that finds data is a hit with that value, at once: on arrival and at every poll. */
  lemma HitAnswers(c: Config, s: State, p: nat, q: Query, v: Value)
    requires Holds(c, s, q, v)
    ensures Enabled(c, s, Lookup(p, q)) ==>
              OnlyMoves(s, Apply(c, s, Lookup(p, q)), p, Replied(q, Answer(v, true, s.now)))
    ensures At(s, p).Waiting? && At(s, p).q == q && At(s, p).polls < 100 ==>
              && Enabled(c, s, Poll(p))
              && OnlyMoves(s, Apply(c, s, Poll(p)), p, Replied(q, Answer(v, true, s.now)))
    ensures At(s, p).Locked? && At(s, p).q == q ==>
              && Enabled(c, s, Recheck(p))
              && OnlyMoves(s, Apply(c, s, Recheck(p)), p,
                           Releasing(q, At(s, p).since, Some(Answer(v, true, s.now))))
  {
  }

  /** A GET that finds none: on to the lock, to the next try, or, under the lock, to the fetch. */
  lemma MissGoesOn(c: Config, s: State, p: nat, q: Query)
    requires HoldsNothing(c, s, q)
    ensures Enabled(c, s, Lookup(p, q)) ==> OnlyMoves(s, Apply(c, s, Lookup(p, q)), p, Missed(q))
    ensures At(s, p).Waiting? && At(s, p).q == q && At(s, p).polls < 100 ==>
              && Enabled(c, s, Poll(p))
              && OnlyMoves(s, Apply(c, s, Poll(p)), p, Waiting(q, At(s, p).polls + 1))
    ensures At(s, p).Locked? && At(s, p).q == q ==>
              && Enabled(c, s, Recheck(p))
              && OnlyMoves(s, Apply(c, s, Recheck(p)), p, Fetching(q, At(s, p).since, None))
  {
  }

  /** SET NX EX: taken, for five seconds, exactly when no live lock is there; else the caller waits. */
  lemma LockLaw(c: Config, s: State, p: nat)
    requires Enabled(c, s, TryLock(p))
    ensures var q, t := At(s, p).q, Apply(c, s, TryLock(p));
            var lock := DataKey(c.hash, q) + ":lock";
            if lock in s.keys && s.now < s.keys[lock].expireAt then OnlyMoves(s, t, p, Waiting(q, 0))
            else && t == s.(keys := s.keys[lock := Entry(Lock(p), s.now + 5000)], sessions := t.sessions)
                 && t.sessions == s.sessions[p := s.sessions[p].(pc := Locked(q, s.now))]
  {
  }

  // ---------- a waiter and the holder of the lock ----------

  /** What the holder stores, a waiter answers with at its next poll, as long as the entry lives. */
  lemma WaiterGetsHoldersValue(c: Config, s: State, h: nat, p: nat, d: nat) returns (t: State)
    requires h in s.sessions && p in s.sessions && At(s, h).Storing? && s.now <= s.sessions[h].began + c.lag
    requires At(s, p).Waiting? && At(s, p).q == At(s, h).q && At(s, p).polls < 100 && d < Ttl(c, At(s, h).q)
    ensures ReachableFrom(c, s, t) && t.now == s.now + d
    ensures At(t, p) == Replied(At(s, h).q, Answer(At(s, h).value, true, t.now))
  {
    var q, v := At(s, h).q, At(s, h).value;
    OneStep(c, s, StoreValue(h));
    var s1 := Apply(c, s, StoreValue(h));
    StepOnward(c, s, s1, Tick(d));
    var s2 := Apply(c, s1, Tick(d));
    HitAnswers(c, s2, p, q, v);
    StepOnward(c, s, s2, Poll(p));
    t := Apply(c, s2, Poll(p));
  }

  /** A fetch that raises, for its own reasons or for want of a row, leaves no value, no lock and no answer. */
  lemma FailureReleases(c: Config, s: State, p: nat, child: nat, fails: bool) returns (t: State)
    requires p in s.sessions && At(s, p).Fetching?
    requires fails || (HasInputs(c, s, p, child) && FetchResult(c, s, p, child).None?)
    ensures ReachableFrom(c, s, t) && At(t, p) == NoAnswer(At(s, p).q)
    ensures t.keys == s.keys - {DataKey(c.hash, At(s, p).q) + ":lock"} && t.pending == s.pending
  {
    OneStep(c, s, RunFetch(p, child, fails));
    var s1 := Apply(c, s, RunFetch(p, child, fails));
    StepOnward(c, s, s1, Release(p));
    t := Apply(c, s1, Release(p));
  }

  /**
   A caller that gave up waiting fetches without a lock, answers with what it fetched, and stores it
   afterwards, unless it was the open-status lookup, which then has no answer, or the level map.
   */
  lemma FallThroughFetches(c: Config, s: State, p: nat, child: nat, v: Value) returns (t: State)
    requires p in s.sessions && At(s, p).FellThrough? && HasInputs(c, s, p, child)
    requires FetchResult(c, s, p, child) == Some(v) && s.now <= s.sessions[p].began + c.lag
    ensures ReachableFrom(c, s, t) && t.now == s.now && t.pending == s.pending
    ensures var q := At(s, p).q;
            if q.endpoint == "open_status" then At(t, p) == NoAnswer(q) && t.keys == s.keys
            else && At(t, p) == Replied(q, Answer(v, false, s.now))
                 && t.keys == if q.endpoint == "taxonomy_levels" then s.keys
                              else s.keys[DataKey(c.hash, q) := Entry(Data(v), s.now + Ttl(c, q))]
  {
    var q, x := At(s, p).q, s.sessions[p];
    OneStep(c, s, Fallback(p, child, false));
    t := Apply(c, s, Fallback(p, child, false));
    if q.endpoint != "open_status" && q.endpoint != "taxonomy_levels" {
      var i := |s.pending|;
      assert t.pending[i] == Pending(q, v, x.version, x.began);
      StepOnward(c, s, t, LateStore(i));
      var u := Apply(c, t, LateStore(i));
      assert u.pending == s.pending;
      t := u;
    }
  }

  /** Clearing a worker's copy makes its next reader load the set of its own version, whatever its age. */
  lemma ForgottenSourcesReload(c: Config, s: State, p: nat) returns (t: State)
    requires p in s.sessions && InFetch(At(s, p)) && s.now <= s.sessions[p].began + c.lag
    ensures ReachableFrom(c, s, t) && At(t, p) == At(s, p).(sources := Some(s.sessions[p].version))
    ensures t.sources == s.sources[c.worker(p) := SourceSet(s.sessions[p].version, s.now)]
  {
    OneStep(c, s, ForgetSources(c.worker(p)));
    var s1 := Apply(c, s, ForgetSources(c.worker(p)));
    StepOnward(c, s, s1, ReadSources(p));
    t := Apply(c, s1, ReadSources(p));
    assert t.sources == s.sources[c.worker(p) := SourceSet(s.sessions[p].version, s.now)];
  }

  // ---------- whole runs ----------

  /** The state before step `i`. */
  function Before(c: Config, s: State, steps: seq<Step>, i: nat): State
    requires Runs(c, s, steps) && i <= |steps|
    decreases i
  {
    if i == 0 then s else Before(c, Apply(c, s, steps[0]), steps[1..], i - 1)
  }

  lemma {:induction false} BeforeNext(c: Config, s: State, steps: seq<Step>, i: nat)
    requires Runs(c, s, steps) && i < |steps|
    ensures Enabled(c, Before(c, s, steps, i), steps[i])
    ensures Before(c, s, steps, i + 1) == Apply(c, Before(c, s, steps, i), steps[i])
    decreases i
  {
    if i > 0 {
      BeforeNext(c, Apply(c, s, steps[0]), steps[1..], i - 1);
    }
  }

  lemma {:induction false} BeforeEnd(c: Config, s: State, steps: seq<Step>)
    requires Runs(c, s, steps)
    ensures Before(c, s, steps, |steps|) == Exec(c, s, steps)
    decreases |steps|
  {
    if steps != [] {
      BeforeEnd(c, Apply(c, s, steps[0]), steps[1..]);
    }
  }

  /** Step `i` is the poll number `k` of `p` for `q`, and the key then held nothing. */
  predicate VainPoll(c: Config, steps: seq<Step>, p: nat, q: Query, k: nat, i: nat)
    requires Runs(c, INIT, steps)
  {
    && i < |steps| && steps[i] == Poll(p)
    && At(Before(c, INIT, steps, i), p) == Waiting(q, k) && HoldsNothing(c, Before(c, INIT, steps, i), q)
  }

  ghost predicate VainPolls(c: Config, steps: seq<Step>, p: nat, q: Query, polls: seq<nat>)
    requires Runs(c, INIT, steps)
  {
    && (forall k | 0 <= k < |polls| :: VainPoll(c, steps, p, q, k, polls[k]))
    && (forall j, k | 0 <= j < k < |polls| :: polls[j] < polls[k])
  }

  /** How a caller comes to be waiting, or to have given up. */
  lemma WaitingStep(c: Config, s: State, step: Step, p: nat)
    requires Enabled(c, s, step)
    ensures var was, now := At(s, p), At(Apply(c, s, step), p);
            && (now.Waiting? && now != was && now.polls != 0 ==>
                  && step == Poll(p) && was == Waiting(now.q, now.polls - 1) && was.polls < 100
                  && HoldsNothing(c, s, now.q))
            && (now.FellThrough? && !(was.FellThrough? && was.q == now.q) ==>
                  step == Poll(p) && was.Waiting? && was.q == now.q && was.polls >= 100)
  {
  }

  lemma {:induction false} PollsSoFar(c: Config, steps: seq<Step>, p: nat, i: nat) returns (polls: seq<nat>)
    requires Runs(c, INIT, steps) && i <= |steps|
    requires At(Before(c, INIT, steps, i), p).Waiting? || At(Before(c, INIT, steps, i), p).FellThrough?
    ensures var pc := At(Before(c, INIT, steps, i), p);
            VainPolls(c, steps, p, pc.q, polls) && (forall k | 0 <= k < |polls| :: polls[k] < i)
            && |polls| <= 100 && |polls| == if pc.Waiting? then pc.polls else 100
    decreases i
  {
    if i > 0 {
      var s, pc := Before(c, INIT, steps, i - 1), At(Before(c, INIT, steps, i), p);
      BeforeNext(c, INIT, steps, i - 1);
      WaitingStep(c, s, steps[i - 1], p);
      if pc.Waiting? && pc.polls == 0 {
        polls := [];
      } else {
        polls := PollsSoFar(c, steps, p, i - 1);
        if pc.Waiting? && At(s, p) != pc {
          polls := polls + [i - 1];
        }
      }
    }
  }

  /** A caller that falls through has polled a hundred times, and the key held no data any time. */
  lemma FallThroughPolledInVain(c: Config, steps: seq<Step>, p: nat) returns (polls: seq<nat>)
    requires Runs(c, INIT, steps) && At(Exec(c, INIT, steps), p).FellThrough?
    ensures |polls| == 100 && VainPolls(c, steps, p, At(Exec(c, INIT, steps), p).q, polls)
  {
    BeforeEnd(c, INIT, steps);
    polls := PollsSoFar(c, steps, p, |steps|);
  }

  /** How a caller comes to hold the lock, and to fetch. */
  lemma FetchingStep(c: Config, s: State, step: Step, p: nat)
    requires Enabled(c, s, step)
    ensures var was, now := At(s, p), At(Apply(c, s, step), p);
            && (now.Locked? && now != was ==>
                  && step == TryLock(p) && was == Missed(now.q) && now.since == s.now
                  && Read(s.keys, DataKey(c.hash, now.q) + ":lock", s.now).None?)
            && (now.Fetching? && !(was.Fetching? && was.q == now.q && was.since == now.since) ==>
                  step == Recheck(p) && was == Locked(now.q, now.since) && HoldsNothing(c, s, now.q))
  {
  }

  /** Step `i` took the lock for `q` at `since`, and no live lock was there. */
  predicate TookLock(c: Config, steps: seq<Step>, p: nat, q: Query, since: int, i: nat)
    requires Runs(c, INIT, steps)
  {
    i < |steps| && steps[i] == TryLock(p) &&
    var s := Before(c, INIT, steps, i);
    At(s, p) == Missed(q) && s.now == since && Read(s.keys, DataKey(c.hash, q) + ":lock", s.now).None?
  }

  /** Step `i` checked again under that lock, and the key held nothing. */
  predicate CheckedAgain(c: Config, steps: seq<Step>, p: nat, q: Query, since: int, i: nat)
    requires Runs(c, INIT, steps)
  {
    && i < |steps| && steps[i] == Recheck(p)
    && At(Before(c, INIT, steps, i), p) == Locked(q, since) && HoldsNothing(c, Before(c, INIT, steps, i), q)
  }

  lemma {:induction false} LockedBefore(c: Config, steps: seq<Step>, p: nat, i: nat) returns (took: nat)
    requires Runs(c, INIT, steps) && i <= |steps| && At(Before(c, INIT, steps, i), p).Locked?
    ensures var pc := At(Before(c, INIT, steps, i), p); took < i && TookLock(c, steps, p, pc.q, pc.since, took)
    decreases i
  {
    if i > 0 {
      BeforeNext(c, INIT, steps, i - 1);
      FetchingStep(c, Before(c, INIT, steps, i - 1), steps[i - 1], p);
      if At(Before(c, INIT, steps, i - 1), p).Locked? {
        took := LockedBefore(c, steps, p, i - 1);
      } else {
        took := i - 1;
      }
    }
  }

  lemma {:induction false} CheckedBefore(c: Config, steps: seq<Step>, p: nat, i: nat) returns (took: nat, checked: nat)
    requires Runs(c, INIT, steps) && i <= |steps| && At(Before(c, INIT, steps, i), p).Fetching?
    ensures var pc := At(Before(c, INIT, steps, i), p);
            && took < checked < i && TookLock(c, steps, p, pc.q, pc.since, took)
            && CheckedAgain(c, steps, p, pc.q, pc.since, checked)
    decreases i
  {
    if i > 0 {
      BeforeNext(c, INIT, steps, i - 1);
      FetchingStep(c, Before(c, INIT, steps, i - 1), steps[i - 1], p);
      if At(Before(c, INIT, steps, i - 1), p).Fetching? {
        took, checked := CheckedBefore(c, steps, p, i - 1);
      } else {
        checked := i - 1;
        took := LockedBefore(c, steps, p, checked);
      }
    }
  }

  /** A caller fetches under the lock only after taking a free lock and then finding no data under it. */
  lemma FetchersCheckedTwice(c: Config, steps: seq<Step>, p: nat) returns (took: nat, checked: nat)
    requires Runs(c, INIT, steps) && At(Exec(c, INIT, steps), p).Fetching?
    ensures var pc := At(Exec(c, INIT, steps), p);
            && took < checked < |steps| && TookLock(c, steps, p, pc.q, pc.since, took)
            && CheckedAgain(c, steps, p, pc.q, pc.since, checked)
  {
    BeforeEnd(c, INIT, steps);
    took, checked := CheckedBefore(c, steps, p, |steps|);
  }
}
