/**
 The keyset batch shared by the maintenance jobs: the first `limit` ids above `lastId`.

 Ids are UUIDs ordered as numbers, and a job starts from the nil UUID, which is 0: a row whose id
 is the nil UUID is never above it.
 */
module BatchScan {
  type Id = nat

  const NIL_ID: Id := 0

  /** The rows a job for one source works on: those that are active and of that source. */
  predicate InScope(source: string, rowSource: string, active: bool) { active && rowSource == source }

  function Above(ids: set<Id>, lastId: Id): set<Id> { set id | id in ids && id > lastId }

  predicate IsLeast(ids: set<Id>, id: Id) {
    id in ids && forall other | other in ids :: id <= other
  }

  lemma {:induction false} LeastExists(ids: set<Id>, x: Id)
    requires x in ids
    ensures exists id :: IsLeast(ids, id)
    decreases x
  {
    if y: Id :| y in ids && y < x {
      LeastExists(ids, y);
    } else {
      assert IsLeast(ids, x);
    }
  }

  function Least(ids: set<Id>): (r: Id)
    requires ids != {}
    ensures IsLeast(ids, r)
  {
    assert exists id :: IsLeast(ids, id) by {
      var x :| x in ids;
      LeastExists(ids, x);
    }
    var id :| id in ids && IsLeast(ids, id);
    id
  }

  /** SELECT id ... AND id > :last_id ORDER BY id LIMIT :limit. */
  function Select(ids: set<Id>, lastId: Id, limit: nat): (r: seq<Id>)
    ensures |r| <= limit
    ensures r == [] <==> limit == 0 || Above(ids, lastId) == {}
    decreases limit
  {
    if limit == 0 || Above(ids, lastId) == {} then []
    else
      var first := Least(Above(ids, lastId));
      [first] + Select(ids, first, limit - 1)
  }

  /** A batch is ascending, stays above `lastId`, and skips nothing between its ends. */
  ghost predicate IsBatch(ids: set<Id>, lastId: Id, batch: seq<Id>) {
    && (forall i | 0 <= i < |batch| :: batch[i] in ids && lastId < batch[i] <= batch[|batch| - 1])
    && (forall i, j | 0 <= i < j < |batch| :: batch[i] < batch[j])
    && (batch != [] ==> forall id | id in ids && lastId < id <= batch[|batch| - 1] :: id in batch)
  }

  lemma {:induction false} SelectIsBatch(ids: set<Id>, lastId: Id, limit: nat)
    ensures IsBatch(ids, lastId, Select(ids, lastId, limit))
    decreases limit
  {
    if limit > 0 && Above(ids, lastId) != {} {
      var first := Least(Above(ids, lastId));
      SelectIsBatch(ids, first, limit - 1);
      BatchExtends(ids, lastId, first, Select(ids, first, limit - 1));
    }
  }

  lemma BatchExtends(ids: set<Id>, lastId: Id, first: Id, rest: seq<Id>)
    requires IsLeast(Above(ids, lastId), first) && IsBatch(ids, first, rest)
    ensures IsBatch(ids, lastId, [first] + rest)
  {
    var batch := [first] + rest;
    assert forall i | 0 < i < |batch| :: batch[i] == rest[i - 1];
    forall id | id in ids && lastId < id <= batch[|batch| - 1] ensures id in batch {
      assert id in Above(ids, lastId);
      if id == first {
        assert batch[0] == id;
      } else {
        assert id in rest;
        var k :| 0 <= k < |rest| && rest[k] == id;
        assert batch[k + 1] == id;
      }
    }
  }

  // ---------- progress of a loop over batches ----------

  /** The ids a loop that stands at `lastId` is done with. */
  function UpTo(ids: set<Id>, lastId: Id): set<Id> { set id | id in ids && NIL_ID < id <= lastId }

  function AsSet(batch: seq<Id>): set<Id> { set id | id in batch }

  lemma BatchGrows(ids: set<Id>, lastId: Id, batch: seq<Id>)
    requires IsBatch(ids, lastId, batch) && batch != []
    ensures UpTo(ids, batch[|batch| - 1]) == UpTo(ids, lastId) + AsSet(batch)
    ensures UpTo(ids, lastId) !! AsSet(batch) && AsSet(batch) <= ids
    ensures |UpTo(ids, batch[|batch| - 1])| == |UpTo(ids, lastId)| + |batch|
  {
    AscendingCount(batch);
  }

  lemma {:induction false} AscendingCount(s: seq<Id>)
    requires forall i, j | 0 <= i < j < |s| :: s[i] < s[j]
    ensures |AsSet(s)| == |s|
  {
    if s != [] {
      AscendingCount(s[1..]);
      assert s[0] !in s[1..] && AsSet(s) == AsSet(s[1..]) + {s[0]};
    }
  }

  lemma AboveShrinks(ids: set<Id>, lastId: Id, next: Id)
    requires next in ids && next > lastId
    ensures |Above(ids, next)| < |Above(ids, lastId)|
  {
    var after, before := Above(ids, next), Above(ids, lastId);
    assert next in before - after && before == after + (before - after);
  }

  lemma NothingAbove(ids: set<Id>, lastId: Id)
    requires Above(ids, lastId) == {}
    ensures UpTo(ids, lastId) == ids - {NIL_ID}
  {
    assert forall id | id in ids :: id !in Above(ids, lastId);
  }

  /** What lies at or below `lastId` does not matter to the next batch. */
  lemma BatchOfSameRest(a: set<Id>, b: set<Id>, lastId: Id, batch: seq<Id>)
    requires Above(a, lastId) == Above(b, lastId) && IsBatch(a, lastId, batch)
    ensures IsBatch(b, lastId, batch)
  {
    forall id | id in b && batch != [] && lastId < id <= batch[|batch| - 1] ensures id in batch {
      assert id in Above(b, lastId);
    }
    forall i | 0 <= i < |batch| ensures batch[i] in b {
      assert batch[i] in Above(a, lastId);
    }
  }
}
