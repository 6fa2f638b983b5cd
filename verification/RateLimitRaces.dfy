/**
 Concurrent requests of one client address against the rate limiter.

 The count and the add are two separate atomic pipelines, so other requests may count in
 between.  A run is a sequence of pipelines of any number of requests, in any order.
 */
module RateLimitRaces {
  import opened SlidingWindow

  /** The stored sorted set, and the requests that were let through but have not added themselves. */
  datatype State = State(members: set<Member>, waiting: set<Member>)

  datatype Step =
    | Count(m: Member)             // first pipeline of the request that would add `m`
    | Add(m: Member)               // second pipeline
    | Expire(kept: set<Member>)    // the key (or any of its members) disappears

  const EMPTY := State({}, {})

  /** Members left when a request at time `now` prunes the set. */
  function InWindow(members: set<Member>, now: int, window: nat): set<Member> {
    set m | m in members && now - window < m.at
  }

  predicate Enabled(s: State, step: Step) {
    match step
    case Count(m) => m !in s.members && m !in s.waiting
    case Add(m) => m in s.waiting
    case Expire(kept) => kept <= s.members
  }

  function Apply(s: State, step: Step, max: nat, window: nat): State
    requires Enabled(s, step)
  {
    match step
    case Count(m) =>
      var left := InWindow(s.members, m.at, window);
      State(left, if |left| < max then s.waiting + {m} else s.waiting)
    case Add(m) => State(s.members + {m}, s.waiting - {m})
    case Expire(kept) => State(kept, s.waiting)
  }

  predicate Runs(s: State, steps: seq<Step>, max: nat, window: nat)
    decreases |steps|
  {
    steps == [] ||
    (Enabled(s, steps[0]) && Runs(Apply(s, steps[0], max, window), steps[1..], max, window))
  }

  function Exec(s: State, steps: seq<Step>, max: nat, window: nat): State
    requires Runs(s, steps, max, window)
    decreases |steps|
  {
    if steps == [] then s else Exec(Apply(s, steps[0], max, window), steps[1..], max, window)
  }

  /** At no point of the run are more than `k` requests between their count and their add. */
  predicate AtMostWaiting(s: State, steps: seq<Step>, max: nat, window: nat, k: nat)
    requires Runs(s, steps, max, window)
    decreases |steps|
  {
    |s.waiting| <= k &&
    (steps != [] ==> AtMostWaiting(Apply(s, steps[0], max, window), steps[1..], max, window, k))
  }

  lemma StepKeepsBound(s: State, step: Step, max: nat, window: nat, k: nat)
    requires Enabled(s, step) && s.members !! s.waiting && 1 <= max && 1 <= k
    requires |s.members| + |s.waiting| <= max - 1 + k
    requires |Apply(s, step, max, window).waiting| <= k
    ensures var s' := Apply(s, step, max, window);
            s'.members !! s'.waiting && |s'.members| + |s'.waiting| <= max - 1 + k
  {
    match step {
      case Count(m) =>
        var left := InWindow(s.members, m.at, window);
        SubsetSize(left, s.members);
      case Add(m) =>
        assert |s.members + {m}| == |s.members| + 1;
        assert |s.waiting - {m}| == |s.waiting| - 1;
      case Expire(kept) =>
        SubsetSize(kept, s.members);
    }
  }

  /** Stored members plus requests let through never exceed the limit by more than k - 1. */
  lemma {:induction false} OvershootFrom(s: State, steps: seq<Step>, max: nat, window: nat, k: nat)
    requires 1 <= max && 1 <= k
    requires Runs(s, steps, max, window) && AtMostWaiting(s, steps, max, window, k)
    requires s.members !! s.waiting && |s.members| + |s.waiting| <= max - 1 + k
    ensures var e := Exec(s, steps, max, window);
            e.members !! e.waiting && |e.members| + |e.waiting| <= max - 1 + k
    decreases |steps|
  {
    if steps != [] {
      StepKeepsBound(s, steps[0], max, window, k);
      OvershootFrom(Apply(s, steps[0], max, window), steps[1..], max, window, k);
    }
  }

  lemma OvershootBound(steps: seq<Step>, max: nat, window: nat, k: nat)
    requires 1 <= max && 1 <= k
    requires Runs(EMPTY, steps, max, window) && AtMostWaiting(EMPTY, steps, max, window, k)
    ensures var e := Exec(EMPTY, steps, max, window);
            |e.members| + |e.waiting| <= max - 1 + k
  {
    OvershootFrom(EMPTY, steps, max, window, k);
  }

  /** The requests numbered lo..hi-1, all at time zero. */
  function Burst(lo: nat, hi: nat): set<Member> {
    set i | lo <= i < hi :: Member(0, i)
  }

  lemma {:induction false} BurstSize(lo: nat, hi: nat)
    requires lo <= hi
    ensures |Burst(lo, hi)| == hi - lo
  {
    if lo < hi {
      BurstSize(lo, hi - 1);
      assert Burst(lo, hi) == Burst(lo, hi - 1) + {Member(0, hi - 1)};
    } else {
      assert Burst(lo, hi) == {};
    }
  }

  lemma {:induction false} RunsAppend(s: State, a: seq<Step>, b: seq<Step>, max: nat, window: nat, k: nat)
    requires Runs(s, a, max, window) && Runs(Exec(s, a, max, window), b, max, window)
    requires AtMostWaiting(s, a, max, window, k)
    requires AtMostWaiting(Exec(s, a, max, window), b, max, window, k)
    ensures Runs(s, a + b, max, window) && AtMostWaiting(s, a + b, max, window, k)
    ensures Exec(s, a + b, max, window) == Exec(Exec(s, a, max, window), b, max, window)
    decreases |a|
  {
    if a == [] {
      assert a + b == b;
    } else {
      assert (a + b)[0] == a[0] && (a + b)[1..] == a[1..] + b;
      RunsAppend(Apply(s, a[0], max, window), a[1..], b, max, window, k);
    }
  }

  /** n requests that each count and add before the next one starts. */
  lemma {:induction false} OneByOne(n: nat, max: nat, window: nat, k: nat) returns (steps: seq<Step>)
    requires n <= max && 1 <= k && 1 <= window
    ensures Runs(EMPTY, steps, max, window) && AtMostWaiting(EMPTY, steps, max, window, k)
    ensures Exec(EMPTY, steps, max, window) == State(Burst(0, n), {})
  {
    if n == 0 {
      steps := [];
      assert Burst(0, 0) == {};
    } else {
      var before := OneByOne(n - 1, max, window, k);
      var m := Member(0, n - 1);
      var s := State(Burst(0, n - 1), {});
      BurstSize(0, n - 1);
      assert InWindow(s.members, 0, window) == s.members;
      var s1 := Apply(s, Count(m), max, window);
      assert s1 == State(s.members, {m});
      assert Apply(s1, Add(m), max, window) == State(Burst(0, n), {});
      assert [Count(m), Add(m)][1..] == [Add(m)];
      assert Exec(s1, [Add(m)], max, window) == State(Burst(0, n), {});
      RunsAppend(EMPTY, before, [Count(m), Add(m)], max, window, k);
      steps := before + [Count(m), Add(m)];
    }
  }

  lemma CountOnce(members: set<Member>, lo: nat, hi: nat, max: nat, window: nat)
    requires lo <= hi && 1 <= window && |members| < max && members == Burst(0, lo)
    ensures Enabled(State(members, Burst(lo, hi)), Count(Member(0, hi)))
    ensures Apply(State(members, Burst(lo, hi)), Count(Member(0, hi)), max, window) == State(members, Burst(lo, hi + 1))
  {
    assert InWindow(members, 0, window) == members;
    assert Burst(lo, hi + 1) == Burst(lo, hi) + {Member(0, hi)};
  }

  lemma CountRuns(members: set<Member>, lo: nat, hi: nat, max: nat, window: nat, k: nat)
    requires lo <= hi && hi - lo < k && 1 <= window && |members| < max && members == Burst(0, lo)
    ensures var t, steps := State(members, Burst(lo, hi)), [Count(Member(0, hi))];
            && Runs(t, steps, max, window) && AtMostWaiting(t, steps, max, window, k)
            && Exec(t, steps, max, window) == State(members, Burst(lo, hi + 1))
  {
    var t, u := State(members, Burst(lo, hi)), State(members, Burst(lo, hi + 1));
    CountOnce(members, lo, hi, max, window);
    BurstSize(lo, hi);
    BurstSize(lo, hi + 1);
    assert Runs(u, [], max, window) && AtMostWaiting(u, [], max, window, k);
    assert [Count(Member(0, hi))][1..] == [];
  }

  lemma OneMoreCounts(s: State, before: seq<Step>, lo: nat, hi: nat, max: nat, window: nat, k: nat)
    returns (steps: seq<Step>)
    requires lo <= hi && hi - lo < k && 1 <= window && |s.members| < max && s.members == Burst(0, lo)
    requires Runs(s, before, max, window) && AtMostWaiting(s, before, max, window, k)
    requires Exec(s, before, max, window) == State(s.members, Burst(lo, hi))
    ensures Runs(s, steps, max, window) && AtMostWaiting(s, steps, max, window, k)
    ensures Exec(s, steps, max, window) == State(s.members, Burst(lo, hi + 1))
  {
    var last := [Count(Member(0, hi))];
    CountRuns(s.members, lo, hi, max, window, k);
    RunsAppend(s, before, last, max, window, k);
    steps := before + last;
  }

  lemma NoneCount(s: State, lo: nat, max: nat, window: nat, k: nat)
    requires s == State(Burst(0, lo), {})
    ensures Runs(s, [], max, window) && AtMostWaiting(s, [], max, window, k)
    ensures Exec(s, [], max, window) == State(s.members, Burst(lo, lo))
  {
    assert Burst(lo, lo) == {};
  }

  /** n requests that all count before any of them adds. */
  lemma {:induction false} AllCount(s: State, lo: nat, n: nat, max: nat, window: nat, k: nat)
    returns (steps: seq<Step>)
    requires n <= k && 1 <= window && |s.members| < max
    requires s == State(Burst(0, lo), {})
    ensures Runs(s, steps, max, window) && AtMostWaiting(s, steps, max, window, k)
    ensures Exec(s, steps, max, window) == State(s.members, Burst(lo, lo + n))
  {
    if n == 0 {
      steps := [];
      NoneCount(s, lo, max, window, k);
    } else {
      var before := AllCount(s, lo, n - 1, max, window, k);
      steps := OneMoreCounts(s, before, lo, lo + n - 1, max, window, k);
    }
  }

  /** The bound is exact: for every limit and every k some run reaches it. */
  lemma OvershootReached(max: nat, window: nat, k: nat) returns (steps: seq<Step>)
    requires 1 <= max && 1 <= k && 1 <= window
    ensures Runs(EMPTY, steps, max, window) && AtMostWaiting(EMPTY, steps, max, window, k)
    ensures var e := Exec(EMPTY, steps, max, window);
            |e.members| + |e.waiting| == max - 1 + k
  {
    var first := OneByOne(max - 1, max, window, k);
    var s := State(Burst(0, max - 1), {});
    BurstSize(0, max - 1);
    var second := AllCount(s, max - 1, k, max, window, k);
    BurstSize(max - 1, max - 1 + k);
    RunsAppend(EMPTY, first, second, max, window, k);
    steps := first + second;
  }

  /** Once the key is gone the next request is let through, whatever was stored. */
  lemma ExpiryForgets(s: State, m: Member, max: nat, window: nat)
    requires m !in s.members && m !in s.waiting && 1 <= max
    ensures var steps := [Expire({})] + [Count(m)];
            && Runs(s, steps, max, window)
            && Exec(s, steps, max, window) == State({}, s.waiting + {m})
  {
    var t := Apply(s, Expire({}), max, window);
    assert InWindow(t.members, m.at, window) == {};
    TwoSteps(s, Expire({}), Count(m), max, window);
  }

  // ---------- without races ----------

  /** Each request counts and, if it is let through, adds itself before the next one counts. */
  function Serial(rs: seq<Request>, max: nat, window: nat): seq<Step> {
    if rs == [] then []
    else
      var before, r := rs[..|rs| - 1], rs[|rs| - 1];
      Serial(before, max, window) + [Count(Member(r.now, r.uuid))] +
      if Admits(Admissions(before, max, window), r, max, window) then [Add(Member(r.now, r.uuid))] else []
  }

  /** The stored set holds the log's members of the window at `now`, and only members of the log. */
  ghost predicate Mirrors(s: State, log: set<Member>, now: int, window: nat) {
    s.waiting == {} && s.members <= log && Between(log, now - window, now) <= s.members
  }

  lemma {:induction false} RunsThen(s: State, a: seq<Step>, b: seq<Step>, max: nat, window: nat)
    requires Runs(s, a, max, window) && Runs(Exec(s, a, max, window), b, max, window)
    ensures Runs(s, a + b, max, window)
    ensures Exec(s, a + b, max, window) == Exec(Exec(s, a, max, window), b, max, window)
    decreases |a|
  {
    if a == [] {
      assert a + b == b;
    } else {
      assert (a + b)[0] == a[0] && (a + b)[1..] == a[1..] + b;
      RunsThen(Apply(s, a[0], max, window), a[1..], b, max, window);
    }
  }

  /** The first pipeline leaves the window and lets through what the log would. */
  lemma CountAgrees(s: State, log: set<Member>, r: Request, max: nat, window: nat)
    requires Mirrors(s, log, r.now, window) && (forall m | m in log :: m.at <= r.now)
    requires Member(r.now, r.uuid) !in log
    ensures Enabled(s, Count(Member(r.now, r.uuid)))
    ensures Apply(s, Count(Member(r.now, r.uuid)), max, window) ==
              State(Between(log, r.now - window, r.now),
                    if Admits(log, r, max, window) then {Member(r.now, r.uuid)} else {})
  {
    assert InWindow(s.members, r.now, window) == Between(log, r.now - window, r.now);
  }

  lemma TwoSteps(s: State, a: Step, b: Step, max: nat, window: nat)
    requires Enabled(s, a) && Enabled(Apply(s, a, max, window), b)
    ensures Runs(s, [a] + [b], max, window)
    ensures Exec(s, [a] + [b], max, window) == Apply(Apply(s, a, max, window), b, max, window)
  {
    var t := Apply(s, a, max, window);
    var u := Apply(t, b, max, window);
    assert ([a] + [b])[0] == a && ([a] + [b])[1..] == [b] && [b][1..] == [];
    assert Runs(u, [], max, window) && Exec(u, [], max, window) == u;
    assert Runs(t, [b], max, window) && Exec(t, [b], max, window) == u;
  }

  lemma OneStep(s: State, a: Step, max: nat, window: nat)
    requires Enabled(s, a)
    ensures Runs(s, [a] + [], max, window) && Exec(s, [a] + [], max, window) == Apply(s, a, max, window)
  {
    assert [a] + [] == [a] && [a][1..] == [];
  }

  /** One request against a stored set that mirrors the log. */
  lemma OneRequest(s: State, log: set<Member>, r: Request, max: nat, window: nat)
    requires Mirrors(s, log, r.now, window) && (forall m | m in log :: m.at <= r.now)
    requires Member(r.now, r.uuid) !in log && 1 <= window
    ensures var m := Member(r.now, r.uuid);
            var steps := [Count(m)] + if Admits(log, r, max, window) then [Add(m)] else [];
            && Runs(s, steps, max, window)
            && Mirrors(Exec(s, steps, max, window), Decide(log, r, max, window), r.now, window)
  {
    var m := Member(r.now, r.uuid);
    CountAgrees(s, log, r, max, window);
    if Admits(log, r, max, window) {
      TwoSteps(s, Count(m), Add(m), max, window);
    } else {
      OneStep(s, Count(m), max, window);
    }
  }

  /** Requests that do not overlap are admitted exactly as the sliding-window log admits them. */
  lemma {:induction false} SerialIsSlidingWindow(rs: seq<Request>, max: nat, window: nat)
    requires Monotone(rs) && 1 <= window && forall i, j | 0 <= i < j < |rs| :: rs[i].uuid != rs[j].uuid
    ensures Runs(EMPTY, Serial(rs, max, window), max, window)
    ensures rs != [] ==> Mirrors(Exec(EMPTY, Serial(rs, max, window), max, window), Admissions(rs, max, window),
                                 rs[|rs| - 1].now, window)
    decreases |rs|
  {
    if rs != [] {
      var before, r := rs[..|rs| - 1], rs[|rs| - 1];
      var log := Admissions(before, max, window);
      SerialIsSlidingWindow(before, max, window);
      forall m | m in log
        ensures before != [] && m.at <= before[|before| - 1].now && m != Member(r.now, r.uuid)
      {
        AdmissionsUpTo(before, max, window, m);
        AdmittedRequest(before, max, window, m);
      }
      var s := Exec(EMPTY, Serial(before, max, window), max, window);
      if before == [] {
        assert s == EMPTY && log == {};
      }
      assert Mirrors(s, log, r.now, window);
      OneRequest(s, log, r, max, window);
      var m := Member(r.now, r.uuid);
      var steps := [Count(m)] + if Admits(log, r, max, window) then [Add(m)] else [];
      RunsThen(EMPTY, Serial(before, max, window), steps, max, window);
      assert Serial(rs, max, window) == Serial(before, max, window) + steps;
    }
  }

  lemma {:induction false} AdmittedRequest(rs: seq<Request>, max: nat, window: nat, m: Member)
    requires m in Admissions(rs, max, window)
    ensures exists i | 0 <= i < |rs| :: rs[i].uuid == m.uuid
  {
    var before, r := rs[..|rs| - 1], rs[|rs| - 1];
    if m in Admissions(before, max, window) {
      AdmittedRequest(before, max, window, m);
      var i :| 0 <= i < |before| && before[i].uuid == m.uuid;
      assert rs[i].uuid == m.uuid;
    } else {
      assert rs[|rs| - 1].uuid == m.uuid;
    }
  }
}
