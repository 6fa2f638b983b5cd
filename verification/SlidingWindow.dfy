/**
 The sliding-window rate limiter of one client address.

 Redis keeps a sorted set of admitted requests per address.  A request first runs one
 pipeline (drop members outside the window, count, refresh the key's expiry) and, when the
 count is below the limit, a second one (add itself, refresh the expiry).

 `Decide`/`Admissions` is the limiter as a pure sliding-window log over everything ever
 admitted; `Limiter` is the stored, pruned and expiring state that has to agree with it.
 */
module SlidingWindow {

  /** A member `{now}:{uuid4}` of the sorted set, scored by its own `now`. */
  datatype Member = Member(at: int, uuid: nat)

  datatype Request = Request(now: int, uuid: nat)

  /** The members admitted in the half-open interval (lo, hi]. */
  function Between(log: set<Member>, lo: int, hi: int): set<Member> {
    set m | m in log && lo < m.at <= hi
  }

  /** Admit exactly when fewer than `max` requests were admitted in (now - window, now]. */
  predicate Admits(log: set<Member>, r: Request, max: nat, window: nat) {
    |Between(log, r.now - window, r.now)| < max
  }

  function Decide(log: set<Member>, r: Request, max: nat, window: nat): set<Member> {
    if Admits(log, r, max, window) then log + {Member(r.now, r.uuid)} else log
  }

  /** Everything admitted while serving `rs` in order, starting from nothing. */
  function Admissions(rs: seq<Request>, max: nat, window: nat): set<Member> {
    if rs == [] then {}
    else Decide(Admissions(rs[..|rs| - 1], max, window), rs[|rs| - 1], max, window)
  }

  ghost predicate Monotone(rs: seq<Request>) {
    forall i, j | 0 <= i < j < |rs| :: rs[i].now <= rs[j].now
  }

  lemma SubsetSize<T>(a: set<T>, b: set<T>)
    requires a <= b
    ensures |a| <= |b|
  {
    assert b == a + (b - a);
  }

  lemma {:induction false} AdmissionsUpTo(rs: seq<Request>, max: nat, window: nat, m: Member)
    requires Monotone(rs) && m in Admissions(rs, max, window)
    ensures rs != [] && m.at <= rs[|rs| - 1].now
  {
    var prefix := rs[..|rs| - 1];
    if m in Admissions(prefix, max, window) {
      AdmissionsUpTo(prefix, max, window, m);
    }
  }

  /** No half-open interval of the window's length ever holds more than `max` admissions. */
  lemma {:induction false} WindowNeverOverfull(rs: seq<Request>, max: nat, window: nat, lo: int)
    requires Monotone(rs)
    ensures |Between(Admissions(rs, max, window), lo, lo + window)| <= max
  {
    if rs != [] {
      var prefix, r := rs[..|rs| - 1], rs[|rs| - 1];
      var before := Admissions(prefix, max, window);
      var after := Admissions(rs, max, window);
      WindowNeverOverfull(prefix, max, window, lo);
      var inside := Between(before, lo, lo + window);
      if Admits(before, r, max, window) && lo < r.now <= lo + window {
        forall m | m in inside
          ensures m in Between(before, r.now - window, r.now)
        {
          AdmissionsUpTo(prefix, max, window, m);
        }
        SubsetSize(inside, Between(before, r.now - window, r.now));
        assert Between(after, lo, lo + window) == inside + {Member(r.now, r.uuid)};
      } else {
        assert Between(after, lo, lo + window) == inside;
      }
    }
  }

  /** A refusal happens only when the window ending at the request is full to the limit. */
  lemma RefusedMeansFull(rs: seq<Request>, r: Request, max: nat, window: nat)
    requires Monotone(rs + [r])
    requires !Admits(Admissions(rs, max, window), r, max, window)
    ensures |Between(Admissions(rs, max, window), r.now - window, r.now)| == max
  {
    assert rs == (rs + [r])[..|rs|];
    assert Monotone(rs) by {
      forall i, j | 0 <= i < j < |rs|
        ensures rs[i].now <= rs[j].now
      {
        assert (rs + [r])[i].now <= (rs + [r])[j].now;
      }
    }
    WindowNeverOverfull(rs, max, window, r.now - window);
  }

  /** A Redis sorted set with the time at which the whole key expires. */
  datatype ZSet = ZSet(members: set<Member>, expireAt: int)

  /**
   What one address's key stores agrees with everything it was ever admitted: nothing that
   can still be inside a window has been pruned, and no key expires before its members do.
   */
  ghost predicate Agrees(key: ZSet, log: set<Member>, clock: int, window: nat) {
    && (forall m | m in log :: 0 <= m.at <= clock)
    && (forall m | m in key.members :: m in log && m.at + window < key.expireAt)
    && (forall m | m in log && clock - window < m.at :: m in key.members)
  }

  /** ZREMRANGEBYSCORE key 0 windowStart, on a key that may have expired by `now`. */
  function Pruned(key: ZSet, now: int, window: nat): set<Member> {
    if now < key.expireAt then set m | m in key.members && !(0 <= m.at <= now - window) else {}
  }

  /** Pruning and expiry together leave exactly the admissions inside the window. */
  lemma PrunedIsWindow(key: ZSet, log: set<Member>, clock: int, now: int, window: nat)
    requires Agrees(key, log, clock, window) && clock <= now
    ensures Pruned(key, now, window) == Between(log, now - window, now)
    ensures Agrees(ZSet(Pruned(key, now, window), now + window + 1), log, now, window)
  {
    forall m | m in log && now - window < m.at
      ensures m in Pruned(key, now, window)
    {
      assert m in key.members;
    }
  }

  /** The limiter's Redis state, one sorted set per client address. */
  class Limiter {
    const max: nat
    const window: nat
    var keys: map<string, ZSet>
    /** Every admission so far per address, and the time of the latest request. */
    ghost var admitted: map<string, set<Member>>
    ghost var clock: int

    ghost function Log(ip: string): set<Member>
      reads this
    {
      if ip in admitted then admitted[ip] else {}
    }

    function Key(ip: string): ZSet
      reads this
    {
      if ip in keys then keys[ip] else ZSet({}, 0)
    }

    ghost predicate Valid()
      reads this
    {
      forall ip :: Agrees(Key(ip), Log(ip), clock, window)
    }

    constructor (max: nat, window: nat)
      ensures Valid() && this.max == max && this.window == window
      ensures clock == 0 && forall ip :: Log(ip) == {}
    {
      this.max, this.window := max, window;
      keys, admitted, clock := map[], map[], 0;
    }

    /** First pipeline: ZREMRANGEBYSCORE key 0 now-window; ZCARD key; EXPIRE key window+1. */
    method CountRecent(ip: string, now: int) returns (count: nat)
      requires Valid() && clock <= now
      modifies `keys, `clock
      ensures Valid() && clock == now
      ensures count == |Between(Log(ip), now - window, now)|
    {
      PrunedIsWindow(Key(ip), Log(ip), clock, now, window);
      var members := Pruned(Key(ip), now, window);
      keys, clock := keys[ip := ZSet(members, now + window + 1)], now;
      forall a ensures Agrees(Key(a), Log(a), clock, window) {
        if a != ip {
          assert Key(a) == old(Key(a));
          assert Agrees(old(Key(a)), Log(a), old(clock), window);
        }
      }
      return |members|;
    }

    /** Second pipeline: ZADD key now member; EXPIRE key window+1. */
    method Record(ip: string, m: Member)
      requires Valid() && m.at == clock && 0 <= clock
      modifies `keys, `admitted
      ensures Valid()
      ensures Log(ip) == old(Log(ip)) + {m}
      ensures forall other | other != ip :: Log(other) == old(Log(other))
    {
      keys := keys[ip := ZSet(Key(ip).members + {m}, m.at + window + 1)];
      admitted := admitted[ip := Log(ip) + {m}];
      forall a ensures Agrees(Key(a), Log(a), clock, window) {
        assert Agrees(old(Key(a)), old(Log(a)), clock, window);
      }
    }

    method Dispatch(ip: string, now: int, uuid: nat) returns (ok: bool, remaining: nat)
      requires Valid() && clock <= now && 0 <= now
      requires Member(now, uuid) !in Log(ip)  // uuid4 values do not repeat
      modifies this
      ensures Valid() && clock == now
      ensures ok == Admits(old(Log(ip)), Request(now, uuid), max, window)
      ensures Log(ip) == Decide(old(Log(ip)), Request(now, uuid), max, window)
      ensures forall other | other != ip :: Log(other) == old(Log(other))
      ensures ok ==> remaining == max - 1 - |Between(old(Log(ip)), now - window, now)|
    {
      var count := CountRecent(ip, now);
      if count >= max {
        return false, 0;
      }
      Record(ip, Member(now, uuid));
      return true, max - count - 1;
    }
  }
}
