/**
 When the lock of the stampede protocol really admits one caller at a time.

 The lock carries no owner and is deleted by whoever finishes, so this holds on run segments
 in which no holder outlives its lease and no invalidation deletes the lock key, and either
 of the two is enough to break it.
 */
module SingleFlight {
  import opened CacheClient
  import opened CacheKeys
  import opened Options
  import opened Staleness
  import opened StampedeCache
  import StaleRefill

  /** Between a successful SET NX for `q` and the deletion of its lock. */
  predicate Critical(pc: Pc, q: Query) {
    (pc.Locked? || pc.Fetching? || pc.Storing? || pc.Releasing?) && pc.q == q
  }

  /** The step neither lets a holder of `q` overrun its lease nor invalidates `q`'s lock. */
  ghost predicate Calm(c: Config, s: State, step: Step, q: Query) {
    match step
    case Tick(d) =>
      forall p | p in s.sessions && Critical(At(s, p), q) :: s.now + d < At(s, p).since + LOCK_TIMEOUT
    case DeleteKey(key) => key != LockOf(c, q)
    case _ => true
  }

  ghost predicate CalmRun(c: Config, s: State, steps: seq<Step>, q: Query)
    requires Runs(c, s, steps)
    decreases |steps|
  {
    steps != [] ==> Calm(c, s, steps[0], q) && CalmRun(c, Apply(c, s, steps[0]), steps[1..], q)
  }

  ghost predicate HoldsLock(c: Config, s: State, p: nat, q: Query)
    requires Critical(At(s, p), q)
  {
    var since := At(s, p).since;
    && since <= s.now < since + LOCK_TIMEOUT
    && LockOf(c, q) in s.keys
    && s.keys[LockOf(c, q)] == Entry(Lock(p), since + LOCK_TIMEOUT)
  }

  /** Every caller in its critical section holds a live lock of its own. */
  ghost predicate Held(c: Config, s: State, q: Query) {
    forall p | p in s.sessions && Critical(At(s, p), q) :: HoldsLock(c, s, p, q)
  }

  lemma HeldIsExclusive(c: Config, s: State, q: Query, a: nat, b: nat)
    requires Held(c, s, q)
    requires a in s.sessions && b in s.sessions && Critical(At(s, a), q) && Critical(At(s, b), q)
    ensures a == b
  {
    assert HoldsLock(c, s, a, q) && HoldsLock(c, s, b, q);
  }

  /** Steps that leave the lock entry and the clock alone, and let no new caller in. */
  lemma Untouched(c: Config, s: State, t: State, q: Query)
    requires Held(c, s, q) && t.now == s.now
    requires forall p | p in t.sessions && Critical(At(t, p), q) ::
               p in s.sessions && Critical(At(s, p), q) && At(t, p).since == At(s, p).since
    requires LockOf(c, q) in s.keys ==>
               LockOf(c, q) in t.keys && t.keys[LockOf(c, q)] == s.keys[LockOf(c, q)]
    ensures Held(c, t, q)
  {
    forall p | p in t.sessions && Critical(At(t, p), q) ensures HoldsLock(c, t, p, q) {
      assert HoldsLock(c, s, p, q);
    }
  }

  lemma LockNamesDiffer(c: Config, q: Query)
    requires ValidConfig(c) && q in c.queries
    ensures forall x | x in c.queries :: Key(c, x) != LockOf(c, q)
    ensures forall x | x in c.queries && x != q :: LockOf(c, x) != LockOf(c, q)
  {
    forall x | x in c.queries
      ensures Key(c, x) != LockOf(c, q) && (x != q ==> LockOf(c, x) != LockOf(c, q))
    {
      CacheKeys.KeysApart(c.hash, x, q);
    }
  }

  lemma TryLockKeepsHeld(c: Config, s: State, p: nat, q: Query)
    requires ValidConfig(c) && q in c.queries && Inv(c, s) && Held(c, s, q)
    requires Enabled(c, s, TryLock(p))
    ensures Held(c, Apply(c, s, TryLock(p)), q)
  {
    var t := Apply(c, s, TryLock(p));
    var x := At(s, p).q;
    assert SessionOk(c, s, s.sessions[p]);
    LockNamesDiffer(c, q);
    if x == q && At(t, p).Locked? {
      forall a | a in t.sessions && a != p ensures !Critical(At(t, a), q) {
        assert At(t, a) == At(s, a);
        assert Critical(At(s, a), q) ==> HoldsLock(c, s, a, q);
      }
    } else {
      Untouched(c, s, t, q);
    }
  }

  lemma ReleaseKeepsHeld(c: Config, s: State, p: nat, q: Query)
    requires ValidConfig(c) && q in c.queries && Inv(c, s) && Held(c, s, q)
    requires Enabled(c, s, Release(p))
    ensures Held(c, Apply(c, s, Release(p)), q)
  {
    var t := Apply(c, s, Release(p));
    assert SessionOk(c, s, s.sessions[p]);
    LockNamesDiffer(c, q);
    if At(s, p).q == q {
      forall a | a in t.sessions ensures !Critical(At(t, a), q) {
        if a != p && Critical(At(s, a), q) {
          HeldIsExclusive(c, s, q, a, p);
        }
      }
    } else {
      Untouched(c, s, t, q);
    }
  }

  lemma TickKeepsHeld(c: Config, s: State, d: nat, q: Query)
    requires Held(c, s, q) && Calm(c, s, Tick(d), q)
    ensures Held(c, Apply(c, s, Tick(d)), q)
  {
    var t := Apply(c, s, Tick(d));
    forall p | p in t.sessions && Critical(At(t, p), q) ensures HoldsLock(c, t, p, q) {
      assert At(t, p) == At(s, p) && HoldsLock(c, s, p, q);
    }
  }

  lemma StoresKeepHeld(c: Config, s: State, step: Step, q: Query)
    requires ValidConfig(c) && q in c.queries && Inv(c, s) && Held(c, s, q)
    requires Enabled(c, s, step) && (step.StoreValue? || step.LateStore?)
    ensures Held(c, Apply(c, s, step), q)
  {
    if step.StoreValue? {
      assert SessionOk(c, s, s.sessions[step.p]);
    } else {
      assert s.pending[step.i] in s.pending;
    }
    LockNamesDiffer(c, q);
    Untouched(c, s, Apply(c, s, step), q);
  }

  lemma ReadsKeepHeld(c: Config, s: State, step: Step, q: Query)
    requires Held(c, s, q) && Enabled(c, s, step)
    requires step.Lookup? || step.Poll? || step.Recheck?
    ensures Held(c, Apply(c, s, step), q)
  {
    Untouched(c, s, Apply(c, s, step), q);
  }

  lemma FetchesKeepHeld(c: Config, s: State, step: Step, q: Query)
    requires Held(c, s, q) && Enabled(c, s, step)
    requires step.ReadSources? || step.RunFetch? || step.Fallback?
    ensures Held(c, Apply(c, s, step), q)
  {
    Untouched(c, s, Apply(c, s, step), q);
  }

  lemma OthersKeepHeld(c: Config, s: State, step: Step, q: Query)
    requires Held(c, s, q) && Enabled(c, s, step) && Calm(c, s, step, q)
    requires step.Open? || step.Nest? || step.Close? || step.DeleteKey? || step.ForgetSources? || step.Commit?
    ensures Held(c, Apply(c, s, step), q)
  {
    Untouched(c, s, Apply(c, s, step), q);
  }

  lemma StepKeepsHeld(c: Config, s: State, step: Step, q: Query)
    requires ValidConfig(c) && q in c.queries && Inv(c, s) && Held(c, s, q)
    requires Enabled(c, s, step) && Calm(c, s, step, q)
    ensures Held(c, Apply(c, s, step), q)
  {
    if step.TryLock? {
      TryLockKeepsHeld(c, s, step.p, q);
    } else if step.Release? {
      ReleaseKeepsHeld(c, s, step.p, q);
    } else if step.Tick? {
      TickKeepsHeld(c, s, step.d, q);
    } else if step.StoreValue? || step.LateStore? {
      StoresKeepHeld(c, s, step, q);
    } else if step.Open? || step.Nest? || step.Close? || step.DeleteKey? || step.ForgetSources? || step.Commit? {
      OthersKeepHeld(c, s, step, q);
    } else if step.Lookup? || step.Poll? || step.Recheck? {
      ReadsKeepHeld(c, s, step, q);
    } else {
      FetchesKeepHeld(c, s, step, q);
    }
  }

  /**
   Single flight: through any calm run segment at most one caller per query is between its
   SET NX and its delete, and it holds the live lock.
   */
  lemma {:induction false} CalmRunsHold(c: Config, s: State, steps: seq<Step>, q: Query)
    requires ValidConfig(c) && q in c.queries && Inv(c, s) && Held(c, s, q)
    requires Runs(c, s, steps) && CalmRun(c, s, steps, q)
    ensures Held(c, Exec(c, s, steps), q)
    ensures var t := Exec(c, s, steps);
            forall a, b | a in t.sessions && b in t.sessions && Critical(At(t, a), q) && Critical(At(t, b), q) :: a == b
    decreases |steps|
  {
    if steps != [] {
      StepKeepsInv(c, s, steps[0]);
      StepKeepsHeld(c, s, steps[0], q);
      CalmRunsHold(c, Apply(c, s, steps[0]), steps[1..], q);
    } else {
      forall a, b | a in s.sessions && b in s.sessions && Critical(At(s, a), q) && Critical(At(s, b), q)
        ensures a == b
      {
        HeldIsExclusive(c, s, q, a, b);
      }
    }
  }

  /** A delete that ends a calm segment removes the deleter's own lock. */
  lemma ReleaseRemovesOwnLock(c: Config, s: State, steps: seq<Step>, p: nat, q: Query)
    requires ValidConfig(c) && q in c.queries && Inv(c, s) && Held(c, s, q)
    requires Runs(c, s, steps) && CalmRun(c, s, steps, q)
    requires var t := Exec(c, s, steps); Enabled(c, t, Release(p)) && At(t, p).q == q
    ensures var t := Exec(c, s, steps);
            LockOf(c, q) in t.keys && t.keys[LockOf(c, q)].value == Lock(p)
  {
    CalmRunsHold(c, s, steps, q);
    assert HoldsLock(c, Exec(c, s, steps), p, q);
  }

  // ---------- either disturbance is enough ----------

  /** A caller that arrives while no value and no live lock is stored takes the lock. */
  lemma NewcomerLocks(c: Config, s: State, q: Query, b: nat) returns (t: State)
    requires ValidConfig(c) && q in c.queries && b !in s.sessions
    requires Key(c, q) !in s.keys && Read(s.keys, LockOf(c, q), s.now).None?
    ensures ReachableFrom(c, s, t) && b in t.sessions && Critical(At(t, b), q)
    ensures LockOf(c, q) in t.keys && t.keys[LockOf(c, q)].value == Lock(b)
    ensures forall a | a in s.sessions :: a in t.sessions && t.sessions[a] == s.sessions[a]
  {
    var s1 := Apply(c, s, Open(b));
    OneStep(c, s, Open(b));
    var s2 := Apply(c, s1, Lookup(b, q));
    StepOnward(c, s, s1, Lookup(b, q));
    assert At(s2, b) == Missed(q);
    t := Apply(c, s2, TryLock(b));
    StepOnward(c, s, s2, TryLock(b));
  }

  /**
   From any state in which a caller is still between its SET NX and its delete although its lock
   is gone, a run goes on to two callers there, and the lock is the second one's, which the first
   one's delete would remove.
   */
  lemma LostLockBreaksSingleFlight(c: Config, s: State, q: Query, a: nat, b: nat) returns (t: State)
    requires ValidConfig(c) && q in c.queries && a in s.sessions && Critical(At(s, a), q) && b !in s.sessions
    requires Read(s.keys, LockOf(c, q), s.now).None?
    ensures ReachableFrom(c, s, t) && a in t.sessions && b in t.sessions
    ensures Critical(At(t, a), q) && Critical(At(t, b), q)
    ensures LockOf(c, q) in t.keys && t.keys[LockOf(c, q)].value == Lock(b)
  {
    var s1 := Apply(c, s, DeleteKey(Key(c, q)));
    OneStep(c, s, DeleteKey(Key(c, q)));
    t := NewcomerLocks(c, s1, q, b);
    Onward(c, s, s1, t);
  }

  /** A lease overrun, or an invalidation of the lock key, is how a caller loses its lock. */
  lemma DisturbanceLosesLock(c: Config, s: State, q: Query, a: nat, overrun: bool)
    requires a in s.sessions && Critical(At(s, a), q) && HoldsLock(c, s, a, q)
    ensures var t := Apply(c, s, if overrun then Tick(LOCK_TIMEOUT) else DeleteKey(LockOf(c, q)));
            a in t.sessions && Critical(At(t, a), q) && Read(t.keys, LockOf(c, q), t.now).None?
  {
  }

  /** Starting from nothing, either disturbance leads to two callers between SET NX and delete. */
  lemma DisturbanceBreaksSingleFlight(c: Config, q: Query, overrun: bool) returns (t: State)
    requires ValidConfig(c) && q in c.queries
    ensures Reachable(c, t) && 1 in t.sessions && 2 in t.sessions
    ensures Critical(At(t, 1), q) && Critical(At(t, 2), q)
    ensures LockOf(c, q) in t.keys && t.keys[LockOf(c, q)].value == Lock(2)
  {
    Here(c, INIT);
    var s0 := StaleRefill.Do(c, INIT, Open(1));
    var s := StaleRefill.GoFetch(c, s0, 1, q);
    var step := if overrun then Tick(LOCK_TIMEOUT) else DeleteKey(LockOf(c, q));
    DisturbanceLosesLock(c, s, q, 1, overrun);
    var s1 := Apply(c, s, step);
    StepOnward(c, INIT, s, step);
    t := LostLockBreaksSingleFlight(c, s1, q, 1, 2);
    Onward(c, INIT, s1, t);
  }
}
