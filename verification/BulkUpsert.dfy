/**
 One call of bulk_upsert: in-place last-wins deduplication, the split into existing and new
 rows, the retry loop around the flush, and the resolution of every result slot to an id.

 The session sees its snapshot plus its own writes.  Other clients appear as the outcome of
 each flush: it succeeds, or it raises IntegrityError, and then the rollback discards
 everything written so far and a new snapshot shows the table as others have left it.
 */
module BulkUpsert {
  import opened Options

  type Key = (string, string)  // (source, source_id)
  type Id = nat
  type Fields = map<string, string>

  datatype Point = Point(lon: real, lat: real)

  datatype Entry = Entry(key: Key, fields: Fields, lat: Option<real>, lon: Option<real>)

  /** `derived` are the columns that a request does not carry (categories, scores). */
  datatype Row = Row(
    key: Key, fields: Fields, lat: Option<real>, lon: Option<real>,
    location: Option<Point>, derived: Fields)

  type Table = map<Id, Row>

  /** The unique constraint on (source, source_id). */
  ghost predicate UniqueKeys(t: Table) {
    forall a, b | a in t && b in t && t[a].key == t[b].key :: a == b
  }

  /** Rows are never removed and never change key: what any other client may do to the table. */
  ghost predicate Grows(t: Table, u: Table) {
    forall id | id in t :: id in u && u[id].key == t[id].key
  }

  function IdOf(t: Table, key: Key): (r: Option<Id>)
    requires UniqueKeys(t)
    ensures r.Some? ==> r.value in t && t[r.value].key == key
    ensures r.None? ==> forall id | id in t :: t[id].key != key
  {
    if exists id | id in t :: t[id].key == key then
      var id :| id in t && t[id].key == key;
      Some(id)
    else None
  }

  // ---------- deduplication ----------

  ghost predicate DistinctKeys(es: seq<Entry>) {
    forall i, j | 0 <= i < j < |es| :: es[i].key != es[j].key
  }

  function IndexOf(es: seq<Entry>, key: Key): (i: nat)
    ensures i <= |es| && (i < |es| ==> es[i].key == key)
    ensures forall j | 0 <= j < i :: es[j].key != key
  {
    if es == [] || es[0].key == key then 0 else 1 + IndexOf(es[1..], key)
  }

  /** The entry of a key in a batch: the last one. */
  function EntryFor(es: seq<Entry>, key: Key): (r: Option<Entry>)
    ensures r.Some? ==> r.value in es && r.value.key == key
    ensures r.None? ==> forall e | e in es :: e.key != key
    ensures r.Some? ==> exists i :: 0 <= i < |es| && es[i] == r.value && forall j | i < j < |es| :: es[j].key != key
  {
    if es == [] then None
    else if es[|es| - 1].key == key then Some(es[|es| - 1])
    else EntryFor(es[..|es| - 1], key)
  }

  /** Each key once, with its last entry, in the order of first occurrence. */
  ghost predicate IsDedup(es: seq<Entry>, deduped: seq<Entry>) {
    && DistinctKeys(deduped)
    && (forall key :: EntryFor(deduped, key) == EntryFor(es, key))
    && (forall i, j | 0 <= i < j < |deduped| :: IndexOf(es, deduped[i].key) < IndexOf(es, deduped[j].key))
  }

  ghost predicate Indexes(seen: map<Key, nat>, deduped: seq<Entry>) {
    && (forall key | key in seen :: seen[key] < |deduped| && deduped[seen[key]].key == key)
    && (forall j | 0 <= j < |deduped| :: deduped[j].key in seen && seen[deduped[j].key] == j)
  }

  method Deduplicate(entities: seq<Entry>) returns (deduped: seq<Entry>)
    ensures IsDedup(entities, deduped)
  {
    var seen: map<Key, nat> := map[];
    deduped := [];
    for i := 0 to |entities|
      invariant IsDedup(entities[..i], deduped) && Indexes(seen, deduped)
    {
      var data := entities[i];
      assert entities[..i + 1] == entities[..i] + [data];
      if data.key in seen {
        DedupReplaces(entities[..i], deduped, data, seen[data.key]);
        deduped := deduped[seen[data.key] := data];
      } else {
        DedupAppends(entities[..i], deduped, data);
        seen := seen[data.key := |deduped|];
        deduped := deduped + [data];
      }
    }
    assert entities[..|entities|] == entities;
  }

  lemma {:induction false} IndexOfMore(es: seq<Entry>, data: Entry, key: Key)
    ensures IndexOf(es + [data], key) ==
              if IndexOf(es, key) < |es| then IndexOf(es, key)
              else if data.key == key then |es| else |es| + 1
  {
    if es == [] {
      assert es + [data] == [data];
      assert [data][1..] == [];
    } else {
      assert (es + [data])[1..] == es[1..] + [data];
      IndexOfMore(es[1..], data, key);
    }
  }

  lemma {:induction false} EntryForKnown(es: seq<Entry>, key: Key)
    ensures EntryFor(es, key).Some? <==> IndexOf(es, key) < |es|
  {
    var i := IndexOf(es, key);
    if i < |es| {
      assert es[i] in es;
    } else {
      forall e | e in es ensures e.key != key {
        var j :| 0 <= j < |es| && es[j] == e;
      }
    }
  }

  lemma EntryForMore(es: seq<Entry>, data: Entry, key: Key)
    ensures EntryFor(es + [data], key) == if key == data.key then Some(data) else EntryFor(es, key)
  {
    assert (es + [data])[..|es|] == es;
  }

  lemma OrderKept(es: seq<Entry>, deduped: seq<Entry>, data: Entry)
    requires IsDedup(es, deduped)
    ensures forall i | 0 <= i < |deduped| ::
              IndexOf(es + [data], deduped[i].key) == IndexOf(es, deduped[i].key) < |es|
  {
    forall i | 0 <= i < |deduped|
      ensures IndexOf(es + [data], deduped[i].key) == IndexOf(es, deduped[i].key) < |es|
    {
      EntryForDistinct(deduped, i);
      EntryForKnown(es, deduped[i].key);
      IndexOfMore(es, data, deduped[i].key);
    }
  }

  lemma DedupReplaces(es: seq<Entry>, deduped: seq<Entry>, data: Entry, i: nat)
    requires IsDedup(es, deduped) && i < |deduped| && deduped[i].key == data.key
    ensures IsDedup(es + [data], deduped[i := data])
  {
    ReplaceEntry(deduped, i, data);
    OrderKept(es, deduped, data);
    forall key ensures EntryFor(deduped[i := data], key) == EntryFor(es + [data], key) {
      EntryForMore(es, data, key);
      assert EntryFor(deduped, key) == EntryFor(es, key);
    }
  }

  lemma DedupAppends(es: seq<Entry>, deduped: seq<Entry>, data: Entry)
    requires IsDedup(es, deduped) && forall j | 0 <= j < |deduped| :: deduped[j].key != data.key
    ensures IsDedup(es + [data], deduped + [data])
  {
    OrderKept(es, deduped, data);
    forall key ensures EntryFor(deduped + [data], key) == EntryFor(es + [data], key) {
      EntryForMore(es, data, key);
      EntryForMore(deduped, data, key);
    }
    assert EntryFor(deduped, data.key).None? by {
      forall e | e in deduped ensures e.key != data.key {}
    }
    EntryForKnown(es, data.key);
    IndexOfMore(es, data, data.key);
  }

  lemma {:induction false} EntryForDistinct(es: seq<Entry>, i: nat)
    requires DistinctKeys(es) && i < |es|
    ensures EntryFor(es, es[i].key) == Some(es[i])
  {
    if i < |es| - 1 {
      EntryForDistinct(es[..|es| - 1], i);
    }
  }

  lemma ReplaceEntry(es: seq<Entry>, i: nat, data: Entry)
    requires DistinctKeys(es) && i < |es| && es[i].key == data.key
    ensures forall key ::
              EntryFor(es[i := data], key) == if key == data.key then Some(data) else EntryFor(es, key)
  {
    var t := es[i := data];
    assert DistinctKeys(t);
    forall key ensures EntryFor(t, key) == if key == data.key then Some(data) else EntryFor(es, key) {
      var b := EntryFor(es, key);
      if key == data.key {
        EntryForDistinct(t, i);
      } else if b.Some? {
        var j :| 0 <= j < |es| && es[j] == b.value;
        assert t[j] == es[j];
        EntryForDistinct(t, j);
      } else {
        forall e | e in t ensures e.key != key {
          assert e == data || e in es;
        }
      }
    }
  }

  // ---------- writing rows ----------

  function PointOf(e: Entry): Option<Point> {
    if e.lat.Some? && e.lon.Some? then Some(Point(e.lon.value, e.lat.value)) else None
  }

  /** An existing row takes every field, except that a full pair of coordinates is left out. */
  function UpdateExisting(row: Row, e: Entry): Row {
    if PointOf(e).Some? then row.(fields := e.fields)
    else row.(fields := e.fields, lat := e.lat, lon := e.lon)
  }

  function NewRow(e: Entry): Row {
    Row(e.key, e.fields, e.lat, e.lon, None, map[])
  }

  /** A row found on re-checking is overwritten with every column of the unsaved object. */
  function Overwrite(row: Row, e: Entry): Row { NewRow(e) }

  /** Every row whose key the batch names, changed by its entry. */
  function Applied(t: Table, es: seq<Entry>, how: (Row, Entry) -> Row): Table {
    map id | id in t ::
      match EntryFor(es, t[id].key)
      case Some(e) => how(t[id], e)
      case None => t[id]
  }

  lemma AppliedOneMore(t: Table, es: seq<Entry>, how: (Row, Entry) -> Row, i: nat)
    requires UniqueKeys(t) && DistinctKeys(es) && i < |es|
    ensures var found := IdOf(t, es[i].key);
            var before, after := Applied(t, es[..i], how), Applied(t, es[..i + 1], how);
            match found
            case None => after == before
            case Some(id) => before[id] == t[id] && after == before[id := how(t[id], es[i])]
  {
    var e := es[i];
    assert es[..i + 1][..i] == es[..i];
    forall key ensures EntryFor(es[..i + 1], key) == if key == e.key then Some(e) else EntryFor(es[..i], key) {}
    assert EntryFor(es[..i], e.key).None? by {
      forall x | x in es[..i] ensures x.key != e.key {
        var j :| 0 <= j < i && es[j] == x;
      }
    }
  }

  lemma AppliedNone(t: Table, how: (Row, Entry) -> Row)
    ensures Applied(t, [], how) == t
  {
  }

  /** What one entry does to the rows a pass has staged so far. */
  function Stage(staged: Table, found: Option<Id>, e: Entry, how: (Row, Entry) -> Row): Table
    requires found.Some? ==> found.value in staged
  {
    match found
    case Some(id) => staged[id := how(staged[id], e)]
    case None => staged
  }

  lemma StageOneMore(t: Table, es: seq<Entry>, how: (Row, Entry) -> Row, i: nat)
    requires UniqueKeys(t) && DistinctKeys(es) && i < |es|
    ensures var found := IdOf(t, es[i].key);
            && (found.Some? ==> found.value in Applied(t, es[..i], how))
            && Applied(t, es[..i + 1], how) == Stage(Applied(t, es[..i], how), found, es[i], how)
  {
    AppliedOneMore(t, es, how, i);
  }

  /** Which row a query over the batch's keys found for each entry. */
  method LookUp(t: Table, es: seq<Entry>) returns (found: seq<Option<Id>>)
    requires UniqueKeys(t)
    ensures |found| == |es| && forall i | 0 <= i < |es| :: found[i] == IdOf(t, es[i].key)
  {
    found := [];
    for i := 0 to |es|
      invariant |found| == i && forall j | 0 <= j < i :: found[j] == IdOf(t, es[j].key)
    {
      found := found + [IdOf(t, es[i].key)];
    }
  }

  /** One pass over a batch against the rows a query found. */
  method ApplyKnown(t: Table, es: seq<Entry>, how: (Row, Entry) -> Row)
    returns (staged: Table, found: seq<Option<Id>>)
    requires UniqueKeys(t) && DistinctKeys(es)
    ensures staged == Applied(t, es, how)
    ensures |found| == |es| && forall i | 0 <= i < |es| :: found[i] == IdOf(t, es[i].key)
  {
    found := LookUp(t, es);
    staged := t;
    AppliedNone(t, how);
    assert es[..0] == [];
    for i := 0 to |es|
      invariant staged == Applied(t, es[..i], how)
    {
      StageOneMore(t, es, how, i);
      staged := Stage(staged, found[i], es[i], how);
    }
    assert es[..|es|] == es;
  }

  // ---------- the session ----------

  /** A flush succeeds, or it fails and the next snapshot shows `seen`. */
  datatype Flush = Flushed | Conflict(seen: Table)

  datatype Result = Ok(ids: seq<Id>) | EntityError

  const MAX_RETRIES: nat := 3

  /** The committed table the session's current transaction started from. */
  function Base(snapshot: Table, flushes: seq<Flush>, failed: nat): Table
    requires failed <= |flushes|
  {
    if failed == 0 then snapshot
    else match flushes[failed - 1]
         case Conflict(seen) => seen
         case Flushed => snapshot
  }

  /** Other clients keep the unique constraint, remove nothing, and use other new ids. */
  ghost predicate ValidFlushes(snapshot: Table, flushes: seq<Flush>, freshFrom: Id) {
    && |flushes| == MAX_RETRIES
    && (forall k | 0 <= k <= MAX_RETRIES :: UniqueKeys(Base(snapshot, flushes, k)))
    && (forall k, id | 0 <= k <= MAX_RETRIES && id in Base(snapshot, flushes, k) :: id < freshFrom)
    && (forall k | 0 <= k < MAX_RETRIES && flushes[k].Conflict? :: Grows(Base(snapshot, flushes, k), flushes[k].seen))
  }

  // ---------- the outcome of a whole call ----------

  /** Location updates collected for the entries that have an id by now. */
  function LocationsOf(es: seq<Entry>, ids: seq<Option<Id>>): seq<(Id, Point)>
    requires |es| == |ids|
  {
    if es == [] then []
    else LocationsOf(es[..|es| - 1], ids[..|es| - 1])
         + if ids[|es| - 1].Some? && PointOf(es[|es| - 1]).Some?
           then [(ids[|es| - 1].value, PointOf(es[|es| - 1]).value)] else []
  }

  function PointFor(locations: seq<(Id, Point)>, id: Id): Option<Point> {
    if locations == [] then None
    else if locations[|locations| - 1].0 == id then Some(locations[|locations| - 1].1)
    else PointFor(locations[..|locations| - 1], id)
  }

  /** UPDATE entities SET location FROM (VALUES ...) WHERE ids match. */
  function SetLocations(t: Table, locations: seq<(Id, Point)>): Table {
    map id | id in t ::
      match PointFor(locations, id)
      case Some(p) => t[id].(location := Some(p))
      case None => t[id]
  }

  /**
   What a row of the batch ends up as, location aside: rows found by the first query were
   updated and rows found by the last re-check overwritten, but whatever was written before
   the last rollback is gone.
   */
  function Written(snapshot: Table, flushes: seq<Flush>, failed: nat, id: Id, e: Entry): Row
    requires failed <= |flushes| && id in Base(snapshot, flushes, failed)
    requires failed > 0 ==> UniqueKeys(Base(snapshot, flushes, failed - 1))
  {
    var row := Base(snapshot, flushes, failed)[id];
    if failed == 0 then UpdateExisting(row, e)
    else if IdOf(Base(snapshot, flushes, failed - 1), e.key).None? then Overwrite(row, e)
    else row
  }

  function Placed(row: Row, e: Entry): Row {
    if PointOf(e).Some? then row.(location := PointOf(e)) else row
  }

  /** Everything a normally returning call leaves behind. */
  ghost predicate Outcome(snapshot: Table, flushes: seq<Flush>, failed: nat, es: seq<Entry>, ids: seq<Id>, t: Table,
                          freshFrom: Id)
    requires ValidFlushes(snapshot, flushes, freshFrom) && failed <= MAX_RETRIES
  {
    var base := Base(snapshot, flushes, failed);
    && UniqueKeys(t)
    && |ids| == |es|
    // every slot holds the id of the row with its key
    && (forall i | 0 <= i < |es| :: ids[i] in t && t[ids[i]].key == es[i].key)
    // and that row is the entry's, or what a rollback left of it
    && (forall i | 0 <= i < |es| ::
          t[ids[i]] == Placed(if ids[i] in base then Written(snapshot, flushes, failed, ids[i], es[i])
                              else NewRow(es[i]), es[i]))
    && (forall i | 0 <= i < |es| :: ids[i] in base || ids[i] >= freshFrom)
    // all other rows are as they were committed
    && (forall id | id in base && EntryFor(es, base[id].key).None? :: id in t && t[id] == base[id])
    && (forall id | id in t :: id in base || id in ids)
    && Grows(base, t)
  }

  // ---------- the retry loop ----------

  lemma PointForMore(a: seq<(Id, Point)>, b: seq<(Id, Point)>, id: Id)
    ensures PointFor(a + b, id) == if PointFor(b, id).Some? then PointFor(b, id) else PointFor(a, id)
  {
    if b == [] {
      assert a + b == a;
    } else {
      assert (a + b)[..|a + b| - 1] == a + b[..|b| - 1];
      PointForMore(a, b[..|b| - 1], id);
    }
  }

  /** No id is given to two slots. */
  ghost predicate Injective(ids: seq<Option<Id>>) {
    forall i, j | 0 <= i < j < |ids| && ids[i].Some? :: ids[i] != ids[j]
  }

  /** The collected locations are exactly those of the slots that have an id. */
  ghost predicate LocationsOk(es: seq<Entry>, ids: seq<Option<Id>>, locations: seq<(Id, Point)>)
    requires |es| == |ids|
  {
    && (forall i | 0 <= i < |es| && ids[i].Some? :: PointFor(locations, ids[i].value) == PointOf(es[i]))
    && (forall id: Id | PointFor(locations, id).Some? :: Some(id) in ids)
  }

  lemma {:induction false} LocationsOfOk(es: seq<Entry>, ids: seq<Option<Id>>)
    requires |es| == |ids| && Injective(ids)
    ensures LocationsOk(es, ids, LocationsOf(es, ids))
  {
    if es != [] {
      var n := |es| - 1;
      LocationsOfOk(es[..n], ids[..n]);
      var before := LocationsOf(es[..n], ids[..n]);
      var after := LocationsOf(es, ids);
      var last := after[|before|..];
      assert after == before + last;
      forall id: Id ensures PointFor(after, id) ==
        if ids[n] == Some(id) && PointOf(es[n]).Some? then PointOf(es[n]) else PointFor(before, id)
      {
        PointForMore(before, last, id);
      }
      if ids[n].Some? {
        assert ids[n] !in ids[..n];
      }
      forall i | 0 <= i < |es| && ids[i].Some? ensures PointFor(after, ids[i].value) == PointOf(es[i]) {
        if i < n {
          assert ids[..n][i] == ids[i] && es[..n][i] == es[i];
        }
      }
      forall id: Id | PointFor(after, id).Some? ensures Some(id) in ids {
        if PointFor(before, id).Some? {
          assert Some(id) in ids[..n];
        } else {
          assert ids[n] == Some(id);
        }
      }
    }
  }

  /** Slots partition into resolved ones, holding the id of the row with their key, and pending ones. */
  ghost predicate Partition(base: Table, es: seq<Entry>, ids: seq<Option<Id>>, pending: seq<nat>)
    requires UniqueKeys(base)
  {
    && |ids| == |es|
    && (forall i | 0 <= i < |es| :: ids[i] == IdOf(base, es[i].key))
    && (forall k | 0 <= k < |pending| :: pending[k] < |es| && ids[pending[k]].None?)
    && (forall i | 0 <= i < |es| && ids[i].None? :: i in pending)
    && (forall j, k | 0 <= j < k < |pending| :: pending[j] < pending[k])
  }

  /** The rows a transaction shows once the batch has been applied to what it found. */
  ghost predicate Staged(snapshot: Table, flushes: seq<Flush>, failed: nat, es: seq<Entry>, t: Table, freshFrom: Id)
    requires ValidFlushes(snapshot, flushes, freshFrom) && failed <= MAX_RETRIES
  {
    var base := Base(snapshot, flushes, failed);
    && t.Keys == base.Keys
    && forall id | id in base ::
         t[id] == match EntryFor(es, base[id].key)
                  case Some(e) => Written(snapshot, flushes, failed, id, e)
                  case None => base[id]
  }

  function Pick(es: seq<Entry>, slots: seq<nat>): (r: seq<Entry>)
    requires forall k | 0 <= k < |slots| :: slots[k] < |es|
    ensures |r| == |slots| && forall k | 0 <= k < |slots| :: r[k] == es[slots[k]]
  {
    seq(|slots|, k requires 0 <= k < |slots| => es[slots[k]])
  }

  lemma PickedEntry(base: Table, es: seq<Entry>, ids: seq<Option<Id>>, pending: seq<nat>, key: Key)
    requires UniqueKeys(base) && DistinctKeys(es) && Partition(base, es, ids, pending)
    ensures DistinctKeys(Pick(es, pending))
    ensures EntryFor(Pick(es, pending), key) == if IdOf(base, key).None? then EntryFor(es, key) else None
  {
    var picked := Pick(es, pending);
    if EntryFor(es, key).Some? && IdOf(base, key).None? {
      var i :| 0 <= i < |es| && es[i] == EntryFor(es, key).value;
      var k :| 0 <= k < |pending| && pending[k] == i;
      EntryForDistinct(picked, k);
    } else {
      forall e | e in picked ensures e.key != key {
        var k :| 0 <= k < |picked| && picked[k] == e;
        assert es[pending[k]] in es;
      }
    }
  }

  lemma GrowthKeepsIds(t: Table, u: Table, key: Key)
    requires UniqueKeys(t) && UniqueKeys(u) && Grows(t, u) && IdOf(t, key).Some?
    ensures IdOf(u, key) == IdOf(t, key)
  {
  }

  lemma IdsAreInjective(base: Table, es: seq<Entry>, ids: seq<Option<Id>>)
    requires UniqueKeys(base) && DistinctKeys(es) && |ids| == |es|
    requires forall i | 0 <= i < |es| :: ids[i] == IdOf(base, es[i].key)
    ensures Injective(ids)
  {
  }

  /** Give each re-checked slot the id found for it, and keep the others pending. */
  method SortFound(ids: seq<Option<Id>>, pending: seq<nat>, found: seq<Option<Id>>)
    returns (ids': seq<Option<Id>>, pending': seq<nat>)
    requires |found| == |pending| && forall k | 0 <= k < |pending| :: pending[k] < |ids|
    requires forall j, k | 0 <= j < k < |pending| :: pending[j] < pending[k]
    requires forall k | 0 <= k < |pending| :: ids[pending[k]].None?
    ensures |ids'| == |ids|
    ensures forall i | 0 <= i < |ids| && i !in pending :: ids'[i] == ids[i]
    ensures forall k | 0 <= k < |pending| :: ids'[pending[k]] == found[k]
    ensures forall k | 0 <= k < |pending'| :: pending'[k] in pending && ids'[pending'[k]].None?
    ensures forall k | 0 <= k < |pending| && found[k].None? :: pending[k] in pending'
    ensures forall j, k | 0 <= j < k < |pending'| :: pending'[j] < pending'[k]
  {
    ids', pending' := ids, [];
    for k := 0 to |pending|
      invariant |ids'| == |ids|
      invariant forall i | 0 <= i < |ids| && i !in pending :: ids'[i] == ids[i]
      invariant forall j | 0 <= j < |pending| :: ids'[pending[j]] == if j < k then found[j] else None
      invariant forall j | 0 <= j < |pending'| :: pending'[j] in pending && ids'[pending'[j]].None?
      invariant forall j | 0 <= j < |pending'| && k < |pending| :: pending'[j] < pending[k]
      invariant forall j | 0 <= j < k && found[j].None? :: pending[j] in pending'
      invariant forall i, j | 0 <= i < j < |pending'| :: pending'[i] < pending'[j]
    {
      if found[k].Some? {
        ids' := ids'[pending[k] := found[k]];
      } else {
        pending' := pending' + [pending[k]];
      }
    }
  }

  /** After a rollback: query the pending keys again, overwrite the rows found, keep the rest pending. */
  method Recheck(base: Table, seen: Table, es: seq<Entry>, ids: seq<Option<Id>>, pending: seq<nat>,
                 locations: seq<(Id, Point)>)
    returns (staged: Table, ids': seq<Option<Id>>, pending': seq<nat>, locations': seq<(Id, Point)>)
    requires UniqueKeys(base) && UniqueKeys(seen) && Grows(base, seen) && DistinctKeys(es)
    requires Partition(base, es, ids, pending) && LocationsOk(es, ids, locations)
    ensures Partition(seen, es, ids', pending') && LocationsOk(es, ids', locations')
    ensures DistinctKeys(Pick(es, pending)) && staged == Applied(seen, Pick(es, pending), Overwrite)
  {
    PickedEntry(base, es, ids, pending, ("", ""));
    var found;
    staged, found := ApplyKnown(seen, Pick(es, pending), Overwrite);
    ids', pending' := SortFound(ids, pending, found);
    SortedPartition(base, seen, es, ids, pending, found, ids', pending');
    IdsAreInjective(seen, es, ids');
    locations' := locations + LocationsOf(Pick(es, pending), found);
    MoreLocations(es, ids, ids', pending, found, locations);
  }

  lemma SortedPartition(base: Table, seen: Table, es: seq<Entry>, ids: seq<Option<Id>>, pending: seq<nat>,
                        found: seq<Option<Id>>, ids': seq<Option<Id>>, pending': seq<nat>)
    requires UniqueKeys(base) && UniqueKeys(seen) && Grows(base, seen) && Partition(base, es, ids, pending)
    requires |found| == |pending| && forall k | 0 <= k < |pending| :: found[k] == IdOf(seen, es[pending[k]].key)
    requires |ids'| == |ids| && forall i | 0 <= i < |ids| && i !in pending :: ids'[i] == ids[i]
    requires forall k | 0 <= k < |pending| :: ids'[pending[k]] == found[k]
    requires forall k | 0 <= k < |pending'| :: pending'[k] in pending && ids'[pending'[k]].None?
    requires forall k | 0 <= k < |pending| && found[k].None? :: pending[k] in pending'
    requires forall j, k | 0 <= j < k < |pending'| :: pending'[j] < pending'[k]
    ensures Partition(seen, es, ids', pending')
  {
    forall i | 0 <= i < |es|
      ensures ids'[i] == IdOf(seen, es[i].key) && (ids'[i].None? ==> i in pending')
    {
      if i in pending {
        var k :| 0 <= k < |pending| && pending[k] == i;
        assert ids'[pending[k]] == found[k];
      } else {
        GrowthKeepsIds(base, seen, es[i].key);
      }
    }
  }

  /** Adding the locations of newly resolved slots keeps the collection exact. */
  lemma {:induction false} MoreLocations(es: seq<Entry>, ids: seq<Option<Id>>, ids': seq<Option<Id>>, pending: seq<nat>,
                      found: seq<Option<Id>>, locations: seq<(Id, Point)>)
    requires |ids| == |es| == |ids'| && LocationsOk(es, ids, locations) && Injective(ids')
    requires |found| == |pending| && forall k | 0 <= k < |pending| ::
               pending[k] < |es| && ids[pending[k]].None? && ids'[pending[k]] == found[k]
    requires forall i | 0 <= i < |es| && i !in pending :: ids'[i] == ids[i] && ids[i].Some?
    requires forall j, k | 0 <= j < k < |pending| :: pending[j] < pending[k]
    ensures LocationsOk(es, ids', locations + LocationsOf(Pick(es, pending), found))
  {
    var picked := Pick(es, pending);
    var more := LocationsOf(picked, found);
    forall j, k | 0 <= j < k < |found| && found[j].Some? ensures found[j] != found[k] {
      assert ids'[pending[j]] != ids'[pending[k]];
    }
    LocationsOfOk(picked, found);
    forall i | 0 <= i < |es| && ids'[i].Some?
      ensures PointFor(locations + more, ids'[i].value) == PointOf(es[i])
    {
      var id := ids'[i].value;
      PointForMore(locations, more, id);
      if i in pending {
        var k :| 0 <= k < |pending| && pending[k] == i;
        assert PointFor(more, id) == PointOf(picked[k]);
        forall j | 0 <= j < |es| ensures ids[j] != Some(id) {
          assert j in pending || ids'[j] == ids[j];
        }
      } else {
        forall k | 0 <= k < |found| ensures found[k] != Some(id) {
          assert found[k] == ids'[pending[k]] && pending[k] != i;
        }
      }
    }
    forall id: Id | PointFor(locations + more, id).Some? ensures Some(id) in ids' {
      PointForMore(locations, more, id);
      if PointFor(more, id).Some? {
        var k :| 0 <= k < |found| && found[k] == Some(id);
        assert ids'[pending[k]] == Some(id);
      } else {
        var j :| 0 <= j < |es| && ids[j] == Some(id);
        assert ids'[j] == Some(id);
      }
    }
  }

  /** Some key of the batch has no row yet. */
  ghost predicate Missing(base: Table, es: seq<Entry>)
    requires UniqueKeys(base)
  {
    exists i | 0 <= i < |es| :: IdOf(base, es[i].key).None?
  }

  /**
   How many flushes fail: each one is a conflict over a batch with some key that had no row, and
   the loop stops when a flush succeeds, when nothing is left to insert, or after three failures.
   */
  ghost predicate Rounds(snapshot: Table, flushes: seq<Flush>, failed: nat, es: seq<Entry>, freshFrom: Id)
    requires ValidFlushes(snapshot, flushes, freshFrom)
  {
    && failed <= MAX_RETRIES
    && (forall k | 0 <= k < failed :: flushes[k].Conflict? && Missing(Base(snapshot, flushes, k), es))
    && (failed < MAX_RETRIES ==> flushes[failed].Flushed? || !Missing(Base(snapshot, flushes, failed), es))
  }

  lemma FirstPassStages(snapshot: Table, flushes: seq<Flush>, es: seq<Entry>, freshFrom: Id)
    requires ValidFlushes(snapshot, flushes, freshFrom)
    ensures Staged(snapshot, flushes, 0, es, Applied(snapshot, es, UpdateExisting), freshFrom)
  {
  }

  lemma RecheckStages(snapshot: Table, flushes: seq<Flush>, failed: nat, es: seq<Entry>,
                      ids: seq<Option<Id>>, pending: seq<nat>, freshFrom: Id)
    requires ValidFlushes(snapshot, flushes, freshFrom) && failed < MAX_RETRIES && flushes[failed].Conflict?
    requires DistinctKeys(es) && Partition(Base(snapshot, flushes, failed), es, ids, pending)
    ensures var staged := Applied(flushes[failed].seen, Pick(es, pending), Overwrite);
            Staged(snapshot, flushes, failed + 1, es, staged, freshFrom)
  {
    var base, seen := Base(snapshot, flushes, failed), flushes[failed].seen;
    assert Base(snapshot, flushes, failed + 1) == seen;
    forall id | id in seen {
      PickedEntry(base, es, ids, pending, seen[id].key);
    }
  }

  // ---------- inserting, locating, returning ----------

  function NewIds(firstId: Id, count: nat): (r: seq<Option<Id>>)
    ensures |r| == count && forall k | 0 <= k < count :: r[k] == Some(firstId + k)
  {
    seq(count, k requires 0 <= k => Some(firstId + k))
  }

  /** Each pending slot has become a row of its own, under the next new ids; nothing else changed. */
  ghost predicate InsertedAs(t: Table, es: seq<Entry>, ids: seq<Option<Id>>, pending: seq<nat>, firstId: Id,
                             t': Table, ids': seq<Option<Id>>)
  {
    && |ids'| == |ids| == |es| && (forall k | 0 <= k < |pending| :: pending[k] < |es|)
    && (forall id | id in t :: id in t' && t'[id] == t[id])
    && (forall id: Id | id in t' && id !in t :: firstId <= id < firstId + |pending|)
    && (forall k | 0 <= k < |pending| ::
          ids'[pending[k]] == Some(firstId + k) && firstId + k in t' && t'[firstId + k] == NewRow(es[pending[k]]))
    && (forall i | 0 <= i < |ids| && i !in pending :: ids'[i] == ids[i])
  }

  /** A successful flush. */
  method InsertPending(t: Table, es: seq<Entry>, ids: seq<Option<Id>>, pending: seq<nat>, firstId: Id)
    returns (t': Table, ids': seq<Option<Id>>)
    requires |ids| == |es| && forall id | id in t :: id < firstId
    requires forall k | 0 <= k < |pending| :: pending[k] < |es|
    requires forall j, k | 0 <= j < k < |pending| :: pending[j] < pending[k]
    ensures InsertedAs(t, es, ids, pending, firstId, t', ids')
  {
    t', ids' := t, ids;
    for n := 0 to |pending|
      invariant |ids'| == |ids|
      invariant forall id | id in t :: id in t' && t'[id] == t[id]
      invariant forall id: Id | id in t' && id !in t :: firstId <= id < firstId + n
      invariant forall k | 0 <= k < n ::
                  ids'[pending[k]] == Some(firstId + k) && firstId + k in t' &&
                      t'[firstId + k] == NewRow(es[pending[k]])
      invariant forall i | 0 <= i < |ids| && i !in pending :: ids'[i] == ids[i]
    {
      t' := t'[firstId + n := NewRow(es[pending[n]])];
      ids' := ids'[pending[n] := Some(firstId + n)];
    }
  }

  /** What InsertPending and SetLocations leave is an outcome of the call. */
  ghost predicate Settled(base: Table, es: seq<Entry>, ids: seq<Option<Id>>, staged: Table, t: Table, freshFrom: Id)
    requires UniqueKeys(base)
  {
    && |ids| == |es|
    && (forall i | 0 <= i < |es| :: ids[i].Some? && ids[i].value in t)
    && (forall i | 0 <= i < |es| ::
          if ids[i].value in base then ids[i].value in staged && base[ids[i].value].key == es[i].key &&
              t[ids[i].value] == staged[ids[i].value]
          else ids[i].value >= freshFrom && IdOf(base, es[i].key).None? && t[ids[i].value] == NewRow(es[i]))
    && (forall id | id in staged :: id in t && t[id] == staged[id])
    && (forall id | id in t :: id in staged || Some(id) in ids)
  }

  lemma InsertSettles(base: Table, es: seq<Entry>, ids: seq<Option<Id>>, pending: seq<nat>, staged: Table,
                      ids': seq<Option<Id>>, t: Table, firstId: Id)
    requires UniqueKeys(base) && Partition(base, es, ids, pending) && staged.Keys == base.Keys
    requires forall id | id in base :: id < firstId
    requires InsertedAs(staged, es, ids, pending, firstId, t, ids')
    ensures Settled(base, es, ids', staged, t, firstId) && (DistinctKeys(es) ==> Injective(ids'))
  {
    forall i | 0 <= i < |es|
      ensures ids'[i].Some? && ids'[i].value in t
      ensures if ids'[i].value in base then ids'[i] == IdOf(base, es[i].key)
              else exists k | 0 <= k < |pending| :: pending[k] == i && ids'[i] == Some(firstId + k)
    {
      if i in pending {
        var k :| 0 <= k < |pending| && pending[k] == i;
        assert ids'[pending[k]] == Some(firstId + k);
      }
    }
    forall i | 0 <= i < |es| && ids'[i].value !in base
      ensures ids'[i].value >= firstId && t[ids'[i].value] == NewRow(es[i])
    {
      var k :| 0 <= k < |pending| && pending[k] == i && ids'[i] == Some(firstId + k);
    }
    forall id | id in t ensures id in staged || Some(id) in ids' {
      if id !in staged {
        assert ids'[pending[id - firstId]] == Some(id);
      }
    }
    if DistinctKeys(es) {
      forall i, j | 0 <= i < j < |es| ensures ids'[i] != ids'[j] {
        assert ids'[i].value in base || ids'[i].value >= firstId;
      }
    }
  }

  /** Each key of the batch, and of the table before, keeps a single row. */
  lemma SettledIsUnique(snapshot: Table, flushes: seq<Flush>, failed: nat, es: seq<Entry>, ids: seq<Option<Id>>,
                        staged: Table, t: Table, freshFrom: Id)
    requires ValidFlushes(snapshot, flushes, freshFrom) && failed <= MAX_RETRIES && DistinctKeys(es)
    requires Staged(snapshot, flushes, failed, es, staged, freshFrom)
    requires Settled(Base(snapshot, flushes, failed), es, ids, staged, t, freshFrom)
    ensures UniqueKeys(t)
  {
    var base := Base(snapshot, flushes, failed);
    forall id | id in t
      ensures if id in base then t[id].key == base[id].key
              else exists i | 0 <= i < |es| ::
                     ids[i] == Some(id) && IdOf(base, es[i].key).None? && t[id].key == es[i].key
    {
      StagedKey(snapshot, flushes, failed, es, staged, id, freshFrom);
      if id !in base {
        var i :| 0 <= i < |ids| && ids[i] == Some(id);
        assert ids[i].value == id;
      }
    }
  }

  lemma StagedKey(snapshot: Table, flushes: seq<Flush>, failed: nat, es: seq<Entry>, staged: Table, id: Id,
                  freshFrom: Id)
    requires ValidFlushes(snapshot, flushes, freshFrom) && failed <= MAX_RETRIES
    requires Staged(snapshot, flushes, failed, es, staged, freshFrom)
    ensures id in Base(snapshot, flushes, failed) ==>
        id in staged && staged[id].key == Base(snapshot, flushes, failed)[id].key
  {
  }

  lemma LocatedRow(snapshot: Table, flushes: seq<Flush>, failed: nat, es: seq<Entry>, ids: seq<Option<Id>>,
                   staged: Table, t: Table, locations: seq<(Id, Point)>, freshFrom: Id, i: nat)
    requires ValidFlushes(snapshot, flushes, freshFrom) && failed <= MAX_RETRIES && DistinctKeys(es) && i < |es|
    requires Staged(snapshot, flushes, failed, es, staged, freshFrom)
    requires Settled(Base(snapshot, flushes, failed), es, ids, staged, t, freshFrom)
    requires PointFor(locations, ids[i].value) == PointOf(es[i])
    ensures var id := ids[i].value;
            SetLocations(t, locations)[id] ==
              Placed(if id in Base(snapshot, flushes, failed) then Written(snapshot, flushes, failed, id, es[i])
                     else NewRow(es[i]), es[i])
  {
    EntryForDistinct(es, i);
  }

  function Values(ids: seq<Option<Id>>): (r: seq<Id>)
    requires forall i | 0 <= i < |ids| :: ids[i].Some?
    ensures |r| == |ids| && forall i | 0 <= i < |ids| :: ids[i] == Some(r[i])
  {
    seq(|ids|, i requires 0 <= i < |ids| => ids[i].value)
  }

  lemma SettledGrows(snapshot: Table, flushes: seq<Flush>, failed: nat, es: seq<Entry>, ids: seq<Option<Id>>,
                     staged: Table, t: Table, locations: seq<(Id, Point)>, freshFrom: Id)
    requires ValidFlushes(snapshot, flushes, freshFrom) && failed <= MAX_RETRIES
    requires Staged(snapshot, flushes, failed, es, staged, freshFrom)
    requires Settled(Base(snapshot, flushes, failed), es, ids, staged, t, freshFrom)
    ensures Grows(Base(snapshot, flushes, failed), SetLocations(t, locations))
  {
    forall id | id in Base(snapshot, flushes, failed)
      ensures id in t && t[id].key == Base(snapshot, flushes, failed)[id].key
    {
      StagedKey(snapshot, flushes, failed, es, staged, id, freshFrom);
    }
  }

  lemma LocatedOutcome(snapshot: Table, flushes: seq<Flush>, failed: nat, es: seq<Entry>, ids: seq<Option<Id>>,
                       staged: Table, t: Table, locations: seq<(Id, Point)>, freshFrom: Id)
    requires ValidFlushes(snapshot, flushes, freshFrom) && failed <= MAX_RETRIES && DistinctKeys(es)
    requires Staged(snapshot, flushes, failed, es, staged, freshFrom)
    requires Settled(Base(snapshot, flushes, failed), es, ids, staged, t, freshFrom)
    requires LocationsOk(es, ids, locations)
    ensures Outcome(snapshot, flushes, failed, es, Values(ids), SetLocations(t, locations), freshFrom)
  {
    SettledIsUnique(snapshot, flushes, failed, es, ids, staged, t, freshFrom);
    var base := Base(snapshot, flushes, failed);
    var u := SetLocations(t, locations);
    var slots := Values(ids);
    forall i | 0 <= i < |es|
      ensures slots[i] in u && u[slots[i]].key == es[i].key
      ensures slots[i] in base || slots[i] >= freshFrom
      ensures u[slots[i]] == Placed(if slots[i] in base then Written(snapshot, flushes, failed, slots[i], es[i])
                                    else NewRow(es[i]), es[i])
    {
      LocatedRow(snapshot, flushes, failed, es, ids, staged, t, locations, freshFrom, i);
      StagedKey(snapshot, flushes, failed, es, staged, slots[i], freshFrom);
    }
    SettledGrows(snapshot, flushes, failed, es, ids, staged, t, locations, freshFrom);
    forall id | id in base && EntryFor(es, base[id].key).None? ensures id in u && u[id] == base[id] {
      UntouchedRow(snapshot, flushes, failed, es, ids, staged, t, locations, freshFrom, id);
    }
  }

  lemma UntouchedRow(snapshot: Table, flushes: seq<Flush>, failed: nat, es: seq<Entry>, ids: seq<Option<Id>>,
                     staged: Table, t: Table, locations: seq<(Id, Point)>, freshFrom: Id, id: Id)
    requires ValidFlushes(snapshot, flushes, freshFrom) && failed <= MAX_RETRIES
    requires Staged(snapshot, flushes, failed, es, staged, freshFrom)
    requires Settled(Base(snapshot, flushes, failed), es, ids, staged, t, freshFrom)
    requires LocationsOk(es, ids, locations)
    requires id in Base(snapshot, flushes, failed) && EntryFor(es, Base(snapshot, flushes, failed)[id].key).None?
    ensures id in t && SetLocations(t, locations)[id] == Base(snapshot, flushes, failed)[id]
  {
    var base := Base(snapshot, flushes, failed);
    forall i | 0 <= i < |es| ensures ids[i] != Some(id) {
      assert es[i] in es;
    }
  }

  lemma PendingMeansMissing(base: Table, es: seq<Entry>, ids: seq<Option<Id>>, pending: seq<nat>)
    requires UniqueKeys(base) && Partition(base, es, ids, pending)
    ensures pending != [] <==> Missing(base, es)
  {
    if pending != [] {
      assert IdOf(base, es[pending[0]].key).None?;
    }
  }

  /** What every round of the retry loop keeps. */
  ghost predicate RoundInv(snapshot: Table, flushes: seq<Flush>, failed: nat, es: seq<Entry>, ids: seq<Option<Id>>,
                           pending: seq<nat>, staged: Table, locations: seq<(Id, Point)>, freshFrom: Id)
  {
    && ValidFlushes(snapshot, flushes, freshFrom) && failed <= MAX_RETRIES && DistinctKeys(es)
    && Partition(Base(snapshot, flushes, failed), es, ids, pending)
    && Staged(snapshot, flushes, failed, es, staged, freshFrom)
    && LocationsOk(es, ids, locations)
    && (forall k | 0 <= k < failed :: flushes[k].Conflict? && Missing(Base(snapshot, flushes, k), es))
  }

  lemma FinishedOutcome(snapshot: Table, flushes: seq<Flush>, failed: nat, es: seq<Entry>, ids: seq<Option<Id>>,
                        pending: seq<nat>, staged: Table, locations: seq<(Id, Point)>, freshFrom: Id,
                        t: Table, ids': seq<Option<Id>>)
    requires RoundInv(snapshot, flushes, failed, es, ids, pending, staged, locations, freshFrom)
    requires InsertedAs(staged, es, ids, pending, freshFrom, t, ids')
    ensures forall i | 0 <= i < |ids'| :: ids'[i].Some?
    ensures var locations' := locations + LocationsOf(Pick(es, pending), NewIds(freshFrom, |pending|));
            Outcome(snapshot, flushes, failed, es, Values(ids'), SetLocations(t, locations'), freshFrom)
  {
    InsertSettles(Base(snapshot, flushes, failed), es, ids, pending, staged, ids', t, freshFrom);
    var locations' := locations + LocationsOf(Pick(es, pending), NewIds(freshFrom, |pending|));
    MoreLocations(es, ids, ids', pending, NewIds(freshFrom, |pending|), locations);
    LocatedOutcome(snapshot, flushes, failed, es, ids', staged, t, locations', freshFrom);
  }

  /** A session of bulk_upsert: the rows its transaction shows, and the next unused id. */
  class Session {
    var rows: Table
    var nextId: Id

    /** The split into existing and new rows. */
    method Split(batch: seq<Entry>, ghost flushes: seq<Flush>)
      returns (staged: Table, ids: seq<Option<Id>>, pending: seq<nat>, locations: seq<(Id, Point)>)
      requires ValidFlushes(rows, flushes, nextId) && DistinctKeys(batch)
      ensures RoundInv(rows, flushes, 0, batch, ids, pending, staged, locations, nextId)
    {
      assert UniqueKeys(Base(rows, flushes, 0));
      var found;
      staged, found := ApplyKnown(rows, batch, UpdateExisting);
      FirstPassStages(rows, flushes, batch, nextId);
      var slots := seq(|batch|, i requires 0 <= i => i);
      ids, pending := SortFound(seq(|batch|, _ => None), slots, found);
      forall i | 0 <= i < |batch| ensures ids[i] == found[i] && (ids[i].None? ==> i in pending) {
        assert slots[i] == i && ids[slots[i]] == found[i];
      }
      IdsAreInjective(rows, batch, ids);
      locations := LocationsOf(batch, ids);
      LocationsOfOk(batch, ids);
    }

    /** One round whose flush failed. */
    method Retry(base: Table, seen: Table, batch: seq<Entry>, ids: seq<Option<Id>>, pending: seq<nat>,
                 locations: seq<(Id, Point)>, ghost flushes: seq<Flush>, ghost failed: nat, ghost staged: Table)
      returns (staged': Table, ids': seq<Option<Id>>, pending': seq<nat>, locations': seq<(Id, Point)>)
      requires RoundInv(rows, flushes, failed, batch, ids, pending, staged, locations, nextId)
      requires failed < MAX_RETRIES && pending != [] && flushes[failed] == Conflict(seen)
      requires base == Base(rows, flushes, failed)
      ensures RoundInv(rows, flushes, failed + 1, batch, ids', pending', staged', locations', nextId)
    {
      RecheckStages(rows, flushes, failed, batch, ids, pending, nextId);
      PendingMeansMissing(base, batch, ids, pending);
      assert Base(rows, flushes, failed + 1) == seen;
      staged', ids', pending', locations' := Recheck(base, seen, batch, ids, pending, locations);
    }

    /** The flush that succeeds, and the statements after the loop. */
    method Finish(base: Table, batch: seq<Entry>, ids: seq<Option<Id>>, pending: seq<nat>, staged: Table,
                  locations: seq<(Id, Point)>, ghost flushes: seq<Flush>, ghost failed: nat)
      returns (slots: seq<Id>)
      requires RoundInv(rows, flushes, failed, batch, ids, pending, staged, locations, nextId)
      requires base == Base(rows, flushes, failed)
      modifies this
      ensures Outcome(old(rows), flushes, failed, batch, slots, rows, old(nextId))
      ensures nextId >= old(nextId) && forall id | id in rows :: id < nextId
    {
      var firstId := nextId;
      var t, ids' := InsertPending(staged, batch, ids, pending, firstId);
      var locations' := locations + LocationsOf(Pick(batch, pending), NewIds(firstId, |pending|));
      FinishedOutcome(rows, flushes, failed, batch, ids, pending, staged, locations, firstId, t, ids');
      rows := SetLocations(t, locations');
      nextId := firstId + |pending|;
      slots := Values(ids');
    }

    /** The split, and the rounds of the retry loop up to a flush that succeeds or the last failure. */
    method FlushRounds(batch: seq<Entry>, flushes: seq<Flush>)
      returns (failed: nat, base: Table, staged: Table, ids: seq<Option<Id>>, pending: seq<nat>,
               locations: seq<(Id, Point)>)
      requires ValidFlushes(rows, flushes, nextId) && DistinctKeys(batch)
      ensures RoundInv(rows, flushes, failed, batch, ids, pending, staged, locations, nextId)
      ensures base == Base(rows, flushes, failed)
      ensures failed < MAX_RETRIES ==> pending == [] || flushes[failed].Flushed?
    {
      base := rows;
      staged, ids, pending, locations := Split(batch, flushes);
      failed := 0;
      while failed < MAX_RETRIES && pending != [] && flushes[failed].Conflict?
        invariant RoundInv(rows, flushes, failed, batch, ids, pending, staged, locations, nextId)
        invariant base == Base(rows, flushes, failed)
        decreases MAX_RETRIES - failed
      {
        var seen := flushes[failed].seen;
        staged, ids, pending, locations := Retry(base, seen, batch, ids, pending, locations, flushes, failed, staged);
        base := seen;
        failed := failed + 1;
      }
    }

    method BulkUpsert(entities: seq<Entry>, flushes: seq<Flush>)
      returns (r: Result, batch: seq<Entry>, failed: nat)
      requires ValidFlushes(rows, flushes, nextId)
      modifies this
      ensures IsDedup(entities, batch)
      ensures entities == [] ==> r == Ok([]) && failed == 0 && rows == old(rows)
      ensures Rounds(old(rows), flushes, failed, batch, old(nextId))
      ensures r.EntityError? <==> failed == MAX_RETRIES && Missing(Base(old(rows), flushes, failed), batch)
      ensures r.EntityError? ==> rows == Base(old(rows), flushes, failed)
      ensures r.Ok? ==> Outcome(old(rows), flushes, failed, batch, r.ids, rows, old(nextId))
    {
      batch := Deduplicate(entities);
      if entities == [] {
        EmptyBatch(batch);
        assert UniqueKeys(Base(rows, flushes, 0));
        return Ok([]), batch, 0;
      }
      ghost var snapshot := rows;
      var base, staged, ids, pending, locations;
      failed, base, staged, ids, pending, locations := FlushRounds(batch, flushes);
      PendingMeansMissing(base, batch, ids, pending);
      if failed == MAX_RETRIES && pending != [] {
        rows := base;
        return EntityError, batch, failed;
      }
      var slots := Finish(base, batch, ids, pending, staged, locations, flushes, failed);
      r := Ok(slots);
    }
  }

  lemma EmptyBatch(batch: seq<Entry>)
    requires IsDedup([], batch)
    ensures batch == []
  {
    if batch != [] {
      EntryForDistinct(batch, 0);
    }
  }

  // ---------- what the outcome means ----------

  lemma RowOf(snapshot: Table, flushes: seq<Flush>, failed: nat, es: seq<Entry>, ids: seq<Id>, t: Table, freshFrom: Id,
              i: nat)
    requires ValidFlushes(snapshot, flushes, freshFrom) && failed <= MAX_RETRIES && i < |es|
    requires Outcome(snapshot, flushes, failed, es, ids, t, freshFrom)
    ensures IdOf(t, es[i].key) == Some(ids[i])
    ensures t[ids[i]] == Placed(if ids[i] in Base(snapshot, flushes, failed)
                                then Written(snapshot, flushes, failed, ids[i], es[i])
                                else NewRow(es[i]), es[i])
  {
  }

  /** A re-check found the key's row, which the flush before it had to insert: every column is overwritten. */
  predicate Overwritten(snapshot: Table, flushes: seq<Flush>, failed: nat, key: Key)
    requires failed <= |flushes| && (failed > 0 ==> UniqueKeys(Base(snapshot, flushes, failed - 1)))
  {
    failed > 0 && IdOf(Base(snapshot, flushes, failed - 1), key).None?
  }

  /** What a full pair of coordinates puts into a row's location. */
  predicate LocatedAt(row: Row, e: Entry) {
    && e.lat.Some? && e.lon.Some? && row.location.Some?
    && row.location.value.lon == e.lon.value && row.location.value.lat == e.lat.value
  }

  /**
   However many flushes failed: a full pair of coordinates lands in location, longitude first.  With a
   coordinate missing a row that existed keeps its location, unless a re-check has overwritten it, and
   a new row has none.
   */
  lemma LocationsLand(snapshot: Table, flushes: seq<Flush>, failed: nat, es: seq<Entry>, ids: seq<Id>, t: Table,
                      freshFrom: Id, i: nat)
    requires ValidFlushes(snapshot, flushes, freshFrom) && failed <= MAX_RETRIES && i < |es|
    requires Outcome(snapshot, flushes, failed, es, ids, t, freshFrom)
    ensures var base, full := Base(snapshot, flushes, failed), es[i].lat.Some? && es[i].lon.Some?;
            && (full ==> LocatedAt(t[ids[i]], es[i]))
            && (!full && ids[i] !in base ==> t[ids[i]].location == None)
            && (!full && ids[i] in base ==>
                  t[ids[i]].location ==
                    if Overwritten(snapshot, flushes, failed, es[i].key) then None else base[ids[i]].location)
  {
    RowOf(snapshot, flushes, failed, es, ids, t, freshFrom, i);
  }

  /** The columns of a request, as it has them. */
  predicate HasColumns(row: Row, e: Entry) {
    row.key == e.key && row.fields == e.fields && row.lat == e.lat && row.lon == e.lon && row.derived == map[]
  }

  /**
   After at least one failed flush, by what the table showed before the last of them and after: a row
   that is new, or that only the re-check found, has exactly the entry's columns and nothing else; a
   row that was there all the time is as committed, but for a full pair of coordinates.
   */
  lemma RetriedRow(snapshot: Table, flushes: seq<Flush>, failed: nat, es: seq<Entry>, ids: seq<Id>, t: Table,
                   freshFrom: Id, i: nat)
    requires ValidFlushes(snapshot, flushes, freshFrom) && 0 < failed <= MAX_RETRIES && i < |es|
    requires Outcome(snapshot, flushes, failed, es, ids, t, freshFrom)
    ensures var before, base := Base(snapshot, flushes, failed - 1), Base(snapshot, flushes, failed);
            var there := exists id :: id in before && before[id].key == es[i].key;
            if ids[i] in base && there
            then t[ids[i]] == base[ids[i]].(location := t[ids[i]].location)
            else HasColumns(t[ids[i]], es[i])
  {
    RowOf(snapshot, flushes, failed, es, ids, t, freshFrom, i);
    var before := Base(snapshot, flushes, failed - 1);
    assert IdOf(before, es[i].key).Some? <==> exists id :: id in before && before[id].key == es[i].key;
  }

  /**
   The other fields land exactly when no rollback discarded them: no flush failed, or the key had
   no row when the last failing flush was attempted, or the row already had those values.
   */
  lemma FieldsLandIff(snapshot: Table, flushes: seq<Flush>, failed: nat, es: seq<Entry>, ids: seq<Id>, t: Table,
                      freshFrom: Id, i: nat)
    requires ValidFlushes(snapshot, flushes, freshFrom) && failed <= MAX_RETRIES && i < |es|
    requires Outcome(snapshot, flushes, failed, es, ids, t, freshFrom)
    requires Rounds(snapshot, flushes, failed, es, freshFrom)
    ensures var base := Base(snapshot, flushes, failed);
            t[ids[i]].fields == es[i].fields <==>
              || failed == 0
              || IdOf(Base(snapshot, flushes, failed - 1), es[i].key).None?
              || (ids[i] in base && base[ids[i]].fields == es[i].fields)
  {
    RowOf(snapshot, flushes, failed, es, ids, t, freshFrom, i);
    if failed > 0 && ids[i] !in Base(snapshot, flushes, failed) {
      NewRowWasMissing(Base(snapshot, flushes, failed - 1), Base(snapshot, flushes, failed), t, ids[i], es[i].key);
    }
  }

  /** A row inserted at the end had no row for its key at the last failing flush either. */
  lemma NewRowWasMissing(before: Table, base: Table, t: Table, id: Id, key: Key)
    requires UniqueKeys(before) && UniqueKeys(t) && Grows(before, base) && Grows(base, t)
    requires id in t && t[id].key == key && id !in base
    ensures IdOf(before, key).None?
  {
    forall x | x in before ensures before[x].key != key {
      assert x in base && x in t && t[x].key == before[x].key;
    }
  }

  /** What a first flush makes of an entry, given the row its key had before, if any. */
  ghost predicate Upserted(e: Entry, before: Option<Row>, row: Row) {
    match before
    case None =>
      && HasColumns(row, e)
      && (if e.lat.Some? && e.lon.Some? then LocatedAt(row, e) else row.location == None)
    case Some(was) =>
      && row.key == e.key && row.fields == e.fields && row.derived == was.derived
      && (if e.lat.Some? && e.lon.Some? then LocatedAt(row, e) && row.lat == was.lat && row.lon == was.lon
          else row.location == was.location && row.lat == e.lat && row.lon == e.lon)
  }

  lemma FirstFlushRow(snapshot: Table, flushes: seq<Flush>, es: seq<Entry>, ids: seq<Id>, t: Table, freshFrom: Id,
                      i: nat)
    requires ValidFlushes(snapshot, flushes, freshFrom) && i < |es|
    requires Outcome(snapshot, flushes, 0, es, ids, t, freshFrom)
    ensures ids[i] in t && IdOf(t, es[i].key) == Some(ids[i])
    ensures Upserted(es[i], if ids[i] in snapshot then Some(snapshot[ids[i]]) else None, t[ids[i]])
    ensures ids[i] in snapshot ==> snapshot[ids[i]].key == es[i].key
  {
    RowOf(snapshot, flushes, 0, es, ids, t, freshFrom, i);
    assert Base(snapshot, flushes, 0) == snapshot;
  }

  /**
   When the first flush succeeds: every key the batch names has a row with all the fields of its
   last entry, that entry's point if it has both coordinates, and otherwise its (partial)
   coordinates; the coordinate columns of a row that existed survive a full pair.
   */
  lemma FirstFlushWritesBatch(snapshot: Table, flushes: seq<Flush>, entities: seq<Entry>, es: seq<Entry>, ids: seq<Id>,
                              t: Table, freshFrom: Id, key: Key)
    requires ValidFlushes(snapshot, flushes, freshFrom) && IsDedup(entities, es)
    requires Outcome(snapshot, flushes, 0, es, ids, t, freshFrom)
    ensures UniqueKeys(snapshot)
    ensures match (EntryFor(entities, key), IdOf(snapshot, key), IdOf(t, key))
            case (None, None, now) => now.None?
            case (None, Some(id), now) => now == Some(id) && t[id] == snapshot[id]
            case (Some(e), None, now) => now.Some? && Upserted(e, None, t[now.value])
            case (Some(e), Some(id), now) => now == Some(id) && Upserted(e, Some(snapshot[id]), t[id])
  {
    assert UniqueKeys(snapshot) by {
      assert UniqueKeys(Base(snapshot, flushes, 0));
    }
    assert EntryFor(es, key) == EntryFor(entities, key);
    if EntryFor(es, key).Some? {
      var i :| 0 <= i < |es| && es[i] == EntryFor(es, key).value;
      FirstFlushRow(snapshot, flushes, es, ids, t, freshFrom, i);
      if IdOf(snapshot, key).Some? {
        GrowthKeepsIds(snapshot, t, key);
      }
    } else {
      UnnamedKey(snapshot, flushes, 0, es, ids, t, freshFrom, key);
    }
  }

  /** A key the batch does not name keeps its row, or its absence. */
  lemma UnnamedKey(snapshot: Table, flushes: seq<Flush>, failed: nat, es: seq<Entry>, ids: seq<Id>, t: Table,
                   freshFrom: Id, key: Key)
    requires ValidFlushes(snapshot, flushes, freshFrom) && failed <= MAX_RETRIES && EntryFor(es, key).None?
    requires Outcome(snapshot, flushes, failed, es, ids, t, freshFrom)
    ensures IdOf(t, key) == IdOf(Base(snapshot, flushes, failed), key)
    ensures IdOf(t, key).Some? ==> t[IdOf(t, key).value] == Base(snapshot, flushes, failed)[IdOf(t, key).value]
  {
    var base := Base(snapshot, flushes, failed);
    if IdOf(base, key).Some? {
      GrowthKeepsIds(base, t, key);
    } else {
      forall id | id in t ensures t[id].key != key {
        if id !in base {
          var i :| 0 <= i < |ids| && ids[i] == id;
          assert es[i] in es;
        }
      }
    }
  }

  lemma SecondRunSlot(snapshot: Table, flushes: seq<Flush>, flushes': seq<Flush>, es: seq<Entry>,
                      ids: seq<Id>, ids': seq<Id>, t: Table, u: Table, freshFrom: Id, freshFrom': Id, i: nat)
    requires ValidFlushes(snapshot, flushes, freshFrom) && Outcome(snapshot, flushes, 0, es, ids, t, freshFrom)
    requires ValidFlushes(t, flushes', freshFrom') && Outcome(t, flushes', 0, es, ids', u, freshFrom') && i < |es|
    ensures ids'[i] == ids[i] && u[ids[i]] == t[ids[i]]
  {
    RowOf(snapshot, flushes, 0, es, ids, t, freshFrom, i);
    RowOf(t, flushes', 0, es, ids', u, freshFrom', i);
    GrowthKeepsIds(t, u, es[i].key);
  }

  /** Running the same batch again, with both first flushes successful, changes nothing. */
  lemma SecondRunChangesNothing(snapshot: Table, flushes: seq<Flush>, flushes': seq<Flush>, es: seq<Entry>,
                                ids: seq<Id>, ids': seq<Id>, t: Table, u: Table, freshFrom: Id, freshFrom': Id)
    requires ValidFlushes(snapshot, flushes, freshFrom) && Outcome(snapshot, flushes, 0, es, ids, t, freshFrom)
    requires ValidFlushes(t, flushes', freshFrom') && Outcome(t, flushes', 0, es, ids', u, freshFrom')
    ensures u == t && ids' == ids
  {
    forall i | 0 <= i < |es| ensures ids'[i] == ids[i] && u[ids[i]] == t[ids[i]] {
      SecondRunSlot(snapshot, flushes, flushes', es, ids, ids', t, u, freshFrom, freshFrom', i);
    }
    assert ids' == ids;
    forall id | id in t ensures id in u && u[id] == t[id] {
      SecondRunKeepsRow(t, flushes', es, ids, u, freshFrom', id);
    }
  }

  lemma SecondRunKeepsRow(t: Table, flushes: seq<Flush>, es: seq<Entry>, ids: seq<Id>, u: Table, freshFrom: Id, id: Id)
    requires ValidFlushes(t, flushes, freshFrom) && Outcome(t, flushes, 0, es, ids, u, freshFrom) && id in t
    requires forall i | 0 <= i < |es| :: ids[i] in t && u[ids[i]] == t[ids[i]]
    ensures id in u && u[id] == t[id]
  {
    if EntryFor(es, t[id].key).Some? {
      var i :| 0 <= i < |es| && es[i] == EntryFor(es, t[id].key).value;
      assert u[ids[i]].key == es[i].key == t[id].key;
    }
  }

  function LossyFlushes(lost: Row, other: Entry): seq<Flush> {
    [Conflict(map[0 := lost, 1 := NewRow(other)]), Flushed, Flushed]
  }

  lemma LossyFlushesAreValid(lost: Row, other: Entry)
    requires lost.key == ("s", "1") && other.key == ("s", "2")
    ensures ValidFlushes(map[0 := lost], LossyFlushes(lost, other), 2)
    ensures Base(map[0 := lost], LossyFlushes(lost, other), 1) == map[0 := lost, 1 := NewRow(other)]
  {
    var snapshot: Table := map[0 := lost];
    var seen: Table := map[0 := lost, 1 := NewRow(other)];
    var flushes := LossyFlushes(lost, other);
    assert UniqueKeys(snapshot) && UniqueKeys(seen) && Grows(snapshot, seen);
    forall k: nat | k <= MAX_RETRIES ensures Base(snapshot, flushes, k) == if k == 1 then seen else snapshot {
      assert k == 0 || k == 1 || k == 2 || k == 3;
    }
    assert forall k | 0 <= k < MAX_RETRIES && flushes[k].Conflict? :: k == 0;
  }

  lemma LossyRounds(lost: Row, updated: Entry, other: Entry)
    requires lost.key == updated.key == ("s", "1") && other.key == ("s", "2")
    requires ValidFlushes(map[0 := lost], LossyFlushes(lost, other), 2)
    ensures Rounds(map[0 := lost], LossyFlushes(lost, other), 1, [updated, other], 2)
  {
    var es := [updated, other];
    var snapshot: Table := map[0 := lost];
    var seen: Table := map[0 := lost, 1 := NewRow(other)];
    assert Base(snapshot, LossyFlushes(lost, other), 0) == snapshot;
    assert UniqueKeys(snapshot) && UniqueKeys(seen) && 0 in seen && 1 in seen;
    assert IdOf(seen, es[0].key).Some? && IdOf(seen, es[1].key).Some?;
    assert IdOf(snapshot, es[1].key).None?;
  }

  /**
   A rollback can lose the update of a row that existed: the first flush conflicts over the other
   key of the batch, and the retry never looks at the updated row again.
   */
  lemma RollbackLosesUpdates(lost: Row, updated: Entry, other: Entry, ids: seq<Id>, t: Table)
    requires lost.key == updated.key == ("s", "1") && other.key == ("s", "2") && PointOf(updated).None?
    ensures ValidFlushes(map[0 := lost], LossyFlushes(lost, other), 2)
    ensures Rounds(map[0 := lost], LossyFlushes(lost, other), 1, [updated, other], 2)
    ensures Outcome(map[0 := lost], LossyFlushes(lost, other), 1, [updated, other], ids, t, 2) ==>
              IdOf(t, updated.key) == Some(0) && t[0] == lost
  {
    var es := [updated, other];
    var snapshot: Table := map[0 := lost];
    LossyFlushesAreValid(lost, other);
    LossyRounds(lost, updated, other);
    if Outcome(snapshot, LossyFlushes(lost, other), 1, es, ids, t, 2) {
      assert 0 in snapshot && Base(snapshot, LossyFlushes(lost, other), 0) == snapshot;
      assert IdOf(snapshot, updated.key) == Some(0);
      assert Grows(map[0 := lost, 1 := NewRow(other)], t);
      GrowthKeepsIds(snapshot, t, updated.key);
      RowOf(snapshot, LossyFlushes(lost, other), 1, es, ids, t, 2, 0);
    }
  }

  /**
   What others committed in columns that the request does not carry stays, unless there is something
   to lose and the row was found by a re-check; the location too, if the entry has no point.
   */
  lemma OthersColumnsStayIff(snapshot: Table, flushes: seq<Flush>, failed: nat, es: seq<Entry>, ids: seq<Id>, t: Table,
                             freshFrom: Id, i: nat)
    requires ValidFlushes(snapshot, flushes, freshFrom) && failed <= MAX_RETRIES && i < |es|
    requires Outcome(snapshot, flushes, failed, es, ids, t, freshFrom)
    requires ids[i] in Base(snapshot, flushes, failed)
    ensures var before, lost := Base(snapshot, flushes, failed)[ids[i]],
                                Overwritten(snapshot, flushes, failed, es[i].key);
            && (t[ids[i]].derived == before.derived <==> !lost || before.derived == map[])
            && (PointOf(es[i]).None? ==>
                  (t[ids[i]].location == before.location <==> !lost || before.location == None))
  {
    RowOf(snapshot, flushes, failed, es, ids, t, freshFrom, i);
  }

  function ErasingFlushes(others: Row): seq<Flush> {
    [Conflict(map[0 := others]), Flushed, Flushed]
  }

  lemma ErasingRound(others: Row, e: Entry)
    requires others.key == e.key
    ensures ValidFlushes(map[], ErasingFlushes(others), 1)
    ensures Base(map[], ErasingFlushes(others), 0) == map[]
    ensures Base(map[], ErasingFlushes(others), 1) == map[0 := others]
    ensures Rounds(map[], ErasingFlushes(others), 1, [e], 1)
  {
    var empty: Table, seen: Table := map[], map[0 := others];
    var flushes := ErasingFlushes(others);
    assert UniqueKeys(empty) && UniqueKeys(seen) && Grows(empty, seen);
    forall k: nat | k <= MAX_RETRIES ensures Base(empty, flushes, k) == if k == 1 then seen else empty {
      assert k == 0 || k == 1 || k == 2 || k == 3;
    }
    assert IdOf(empty, [e][0].key).None?;
  }

  /** Two clients insert one key: the retry of the second erases the derived columns the first committed. */
  lemma RetryErasesColumns(others: Row, e: Entry, ids: seq<Id>, t: Table)
    requires others.key == e.key
    ensures ValidFlushes(map[], ErasingFlushes(others), 1) && Rounds(map[], ErasingFlushes(others), 1, [e], 1)
    ensures Outcome(map[], ErasingFlushes(others), 1, [e], ids, t, 1) ==>
              IdOf(t, e.key) == Some(0) && t[0].derived == map[]
  {
    var empty: Table, seen: Table := map[], map[0 := others];
    ErasingRound(others, e);
    if Outcome(empty, ErasingFlushes(others), 1, [e], ids, t, 1) {
      assert IdOf(seen, e.key) == Some(0) by {
        assert 0 in seen;
      }
      GrowthKeepsIds(seen, t, e.key);
      RowOf(empty, ErasingFlushes(others), 1, [e], ids, t, 1, 0);
      assert ids[0] == 0;
      assert IdOf(empty, e.key).None?;
    }
  }
}
