/**
 Normalisation of entities.country, in batches that a time limit may cut short: the distinct
 values that are not ISO codes are resolved once, and the rows holding them are rewritten.
 */
module NormalizeJob {
  import opened BatchScan
  import opened Country
  import opened Options

  datatype Place = Place(source: string, active: bool, country: Option<string>)

  type Table = map<Id, Place>

  type CountryMap = map<string, Option<string>>

  predicate InScope(source: string, p: Place) { p.active && (source == "*" || p.source == source) }

  /** An active row in scope whose country is neither NULL, nor empty, nor an ISO code. */
  predicate Wrong(source: string, p: Place) {
    InScope(source, p) && p.country.Some? && p.country.value != "" && !IsIso2(p.country.value)
  }

  function Targets(t: Table, source: string): set<Id> { set id | id in t && Wrong(source, t[id]) }

  function Values(t: Table, source: string): set<string> {
    set id | id in Targets(t, source) :: t[id].country.value
  }

  function Normal(d: Data, p: Place): Place {
    if p.country.Some? then p.(country := Resolve(d, p.country.value)) else p
  }

  function NormalRows(d: Data, t: Table, ids: set<Id>): Table {
    map id | id in t :: if id in ids then Normal(d, t[id]) else t[id]
  }

  /** The rows a run that got as far as `lastId` leaves. */
  function Partial(d: Data, t: Table, source: string, lastId: Id): Table {
    NormalRows(d, t, UpTo(Targets(t, source), lastId))
  }

  /** The rows a complete run leaves. */
  function Complete(d: Data, t: Table, source: string): Table {
    NormalRows(d, t, Targets(t, source) - {NIL_ID})
  }

  /** The temporary mapping: every wrong value, and nothing else, with its resolution. */
  ghost predicate MapFor(d: Data, m: CountryMap, values: set<string>) {
    m.Keys == values && forall raw | raw in m :: m[raw] == Resolve(d, raw)
  }

  // ---------- one row ----------

  lemma NormalIsRight(d: Data, source: string, p: Place)
    requires ValidData(d)
    ensures !Wrong(source, Normal(d, p))
  {
    if p.country.Some? && Resolve(d, p.country.value).Some? {
      ResolvedIsIso(d, p.country.value);
    }
  }

  /** What is left to do is what has not been done. */
  lemma TargetsLeft(d: Data, t: Table, source: string, ids: set<Id>)
    requires ValidData(d)
    ensures Targets(NormalRows(d, t, ids), source) == Targets(t, source) - ids
  {
    forall id | id in t && id in ids {
      NormalIsRight(d, source, t[id]);
    }
  }

  lemma NormalInTwoParts(d: Data, t: Table, a: set<Id>, b: set<Id>)
    requires a !! b
    ensures NormalRows(d, NormalRows(d, t, a), b) == NormalRows(d, t, a + b)
  {
    var u := NormalRows(d, t, a);
    var v := NormalRows(d, u, b);
    assert forall id | id in t && id in b :: u[id] == t[id] && id !in a;
    assert forall id | id in t && id !in b :: v[id] == u[id];
  }

  // ---------- the statements of the job ----------

  /** Rows the mapping joins with. */
  function Joined(t: Table, m: CountryMap): set<Id> {
    set id | id in t && t[id].country.Some? && t[id].country.value in m
  }

  /** The rows the batch query selects from. */
  function Batchable(t: Table, m: CountryMap, source: string): set<Id> {
    set id | id in Joined(t, m) && InScope(source, t[id])
  }

  function Mapped(t: Table, m: CountryMap, ids: set<Id>): Table {
    map id | id in t :: if id in ids && id in Joined(t, m) then t[id].(country := m[t[id].country.value]) else t[id]
  }

  /** A mapped value is gone from the listed rows, and nothing else changes. */
  lemma MappedRows(t: Table, m: CountryMap, ids: set<Id>)
    ensures var u := Mapped(t, m, ids);
            && u.Keys == t.Keys
            && (forall id | id in u :: u[id] == t[id].(country := u[id].country))
            && (forall id | id in u && id !in ids :: u[id] == t[id])
            && ((forall raw, to | raw in m && m[raw] == Some(to) :: to !in m) ==>
                  forall id | id in ids && id in u && u[id].country.Some? :: u[id].country.value !in m)
  {
  }

  function Holding(t: Table, source: string, raws: set<string>): set<Id> {
    set id | id in Targets(t, source) && t[id].country.value in raws
  }

  function Unresolved(d: Data, t: Table, source: string, raws: set<string>): set<Id> {
    set id | id in Holding(t, source, raws) && Resolve(d, t[id].country.value).None?
  }

  lemma MoreHolding(d: Data, t: Table, source: string, raws: set<string>, raw: string)
    requires raw !in raws
    ensures |Holding(t, source, raws + {raw})| == |Holding(t, source, raws)| + |Holding(t, source, {raw})|
    ensures |Unresolved(d, t, source, raws + {raw})| == |Unresolved(d, t, source, raws)|
              + if Resolve(d, raw).None? then |Holding(t, source, {raw})| else 0
  {
    var one := Holding(t, source, {raw});
    assert Holding(t, source, raws + {raw}) == Holding(t, source, raws) + one && Holding(t, source, raws) !! one;
    MoreUnresolved(d, t, source, raws, raw);
    assert Unresolved(d, t, source, raws) <= Holding(t, source, raws);
  }

  lemma MoreUnresolved(d: Data, t: Table, source: string, raws: set<string>, raw: string)
    ensures Unresolved(d, t, source, raws + {raw})
         == Unresolved(d, t, source, raws) + if Resolve(d, raw).None? then Holding(t, source, {raw}) else {}
  {
  }

  /** The groups counted so far add up to the rows that hold their values. */
  ghost predicate Counted(d: Data, t: Table, source: string, raws: set<string>, resolvedRows: nat, nulledRows: nat) {
    && resolvedRows + nulledRows == |Holding(t, source, raws)|
    && nulledRows == |Unresolved(d, t, source, raws)|
  }

  lemma OneMoreCounted(d: Data, t: Table, source: string, raws: set<string>, raw: string, resolvedRows: nat,
                       nulledRows: nat)
    requires Counted(d, t, source, raws, resolvedRows, nulledRows) && raw !in raws
    ensures var cnt := |Holding(t, source, {raw})|;
            if Resolve(d, raw).None? then Counted(d, t, source, raws + {raw}, resolvedRows, nulledRows + cnt)
            else Counted(d, t, source, raws + {raw}, resolvedRows + cnt, nulledRows)
  {
    MoreHolding(d, t, source, raws, raw);
  }

  lemma NothingCounted(d: Data, t: Table, source: string)
    ensures Counted(d, t, source, {}, 0, 0)
  {
    assert Holding(t, source, {}) == {} && Unresolved(d, t, source, {}) == {};
  }

  lemma MapExtended(d: Data, m: CountryMap, values: set<string>, raw: string)
    requires MapFor(d, m, values)
    ensures MapFor(d, m[raw := Resolve(d, raw)], values + {raw})
  {
  }

  /** All groups together are all the rows to change. */
  lemma AllCounted(t: Table, source: string)
    ensures Holding(t, source, Values(t, source)) == Targets(t, source)
  {
    forall id | id in Targets(t, source) ensures id in Holding(t, source, Values(t, source)) {
      assert t[id].country.value in Values(t, source);
    }
  }

  /** The rows still to be selected are the targets that lie above. */
  lemma BatchableLeft(d: Data, t: Table, source: string, m: CountryMap, lastId: Id)
    requires ValidData(d) && MapFor(d, m, Values(t, source))
    ensures Above(Batchable(Partial(d, t, source, lastId), m, source), lastId) == Above(Targets(t, source), lastId)
  {
    var u := Partial(d, t, source, lastId);
    forall id | id in t && id > lastId ensures id in Batchable(u, m, source) <==> id in Targets(t, source) {
      assert u[id] == t[id];
      MappedIsWrong(d, t, source, m, id);
    }
  }

  lemma MappedIsWrong(d: Data, t: Table, source: string, m: CountryMap, id: Id)
    requires MapFor(d, m, Values(t, source)) && id in t
    ensures id in Batchable(t, m, source) <==> id in Targets(t, source)
  {
    if id in Batchable(t, m, source) {
      var other :| other in Targets(t, source) && t[other].country.value == t[id].country.value;
    }
    if id in Targets(t, source) {
      assert t[id].country.value in Values(t, source);
    }
  }

  /** Updating a batch of targets that have not been reached yet normalises exactly those. */
  lemma BatchStep(d: Data, t: Table, source: string, m: CountryMap, done: set<Id>, ids: set<Id>)
    requires MapFor(d, m, Values(t, source)) && ids <= Targets(t, source) && done !! ids
    ensures Mapped(NormalRows(d, t, done), m, ids) == NormalRows(d, t, done + ids)
    ensures ids <= Joined(NormalRows(d, t, done), m)
  {
    var u := NormalRows(d, t, done);
    forall id | id in ids
      ensures u[id] == t[id] && id in Joined(u, m) && m[t[id].country.value] == Resolve(d, t[id].country.value) {
      assert t[id].country.value in Values(t, source);
    }
    assert forall id | id in ids :: id !in done;
  }

  class Job {
    var entities: Table

    /** The mapping and the two counters, one distinct value at a time. */
    method BuildMap(d: Data, source: string) returns (m: CountryMap, resolvedRows: nat, nulledRows: nat)
      ensures MapFor(d, m, Values(entities, source))
      ensures Counted(d, entities, source, Values(entities, source), resolvedRows, nulledRows)
    {
      m, resolvedRows, nulledRows := map[], 0, 0;
      var rest := Values(entities, source);
      NothingCounted(d, entities, source);
      while rest != {}
        invariant rest <= Values(entities, source)
        invariant MapFor(d, m, Values(entities, source) - rest)
        invariant Counted(d, entities, source, m.Keys, resolvedRows, nulledRows)
        decreases |rest|
      {
        var raw :| raw in rest;
        var cnt := |Holding(entities, source, {raw})|;
        var iso2 := Resolve(d, raw);
        OneMoreCounted(d, entities, source, m.Keys, raw, resolvedRows, nulledRows);
        MapExtended(d, m, Values(entities, source) - rest, raw);
        if iso2.None? {
          nulledRows := nulledRows + cnt;
        } else {
          resolvedRows := resolvedRows + cnt;
        }
        rest := rest - {raw};
        m := m[raw := iso2];
        assert Values(entities, source) - rest == m.Keys;
      }
      assert m.Keys == Values(entities, source);
    }

    /** The UPDATE over one batch: every listed row that still holds a mapped value. */
    method UpdateBatch(m: CountryMap, ids: seq<Id>) returns (rowcount: nat)
      modifies this
      ensures entities == Mapped(old(entities), m, AsSet(ids))
      ensures rowcount == |Joined(old(entities), m) * AsSet(ids)|
      // a mapped value is gone from the listed rows, and nothing else has changed
      ensures entities.Keys == old(entities).Keys
      ensures forall id | id in entities :: entities[id] == old(entities[id]).(country := entities[id].country)
      ensures forall id | id in entities && id !in ids :: entities[id] == old(entities[id])
      ensures (forall raw, to | raw in m && m[raw] == Some(to) :: to !in m) ==>
                forall id | id in ids && id in entities && entities[id].country.Some? ::
                    entities[id].country.value !in m
    {
      rowcount := |Joined(entities, m) * AsSet(ids)|;
      MappedRows(entities, m, AsSet(ids));
      entities := Mapped(entities, m, AsSet(ids));
    }

    /** One turn of the loop with a batch that is not empty. */
    method Turn(d: Data, ghost t: Table, source: string, m: CountryMap, lastId: Id, ids: seq<Id>)
      returns (rowcount: nat)
      requires ValidData(d) && MapFor(d, m, Values(t, source)) && entities == Partial(d, t, source, lastId)
      requires IsBatch(Targets(t, source), lastId, ids) && ids != []
      modifies this
      ensures entities == Partial(d, t, source, ids[|ids| - 1])
      ensures |UpTo(Targets(t, source), ids[|ids| - 1])| == |UpTo(Targets(t, source), lastId)| + rowcount
    {
      BatchGrows(Targets(t, source), lastId, ids);
      BatchStep(d, t, source, m, UpTo(Targets(t, source), lastId), AsSet(ids));
      assert Joined(entities, m) * AsSet(ids) == AsSet(ids);
      AscendingCount(ids);
      rowcount := UpdateBatch(m, ids);
    }

    /**
     `turns` is the number of batches the time limit leaves room for, None for no limit.
     `remaining` is what the report calls remaining in this run's scope.
     */
    method Run(d: Data, source: string, batchSize: nat, turns: Option<nat>)
      returns (updated: nat, remaining: int, lastId: Id)
      requires ValidData(d) && batchSize > 0
      modifies this
      ensures entities == Partial(d, old(entities), source, lastId)
      ensures updated == |UpTo(Targets(old(entities), source), lastId)|
      ensures remaining == |Targets(entities, source)|
      ensures turns.None? ==> entities == Complete(d, old(entities), source)
    {
      ghost var t, targets := entities, Targets(entities, source);
      updated, lastId := 0, NIL_ID;
      assert UpTo(targets, NIL_ID) == {} && Partial(d, t, source, NIL_ID) == t;
      var m, resolvedRows, nulledRows := BuildMap(d, source);
      AllCounted(t, source);
      var batch: nat := 0;
      var done := false;
      while !done && (turns.None? || batch < turns.value)
        invariant entities == Partial(d, t, source, lastId) && updated == |UpTo(targets, lastId)|
        invariant done ==> Above(targets, lastId) == {}
        decreases |Above(targets, lastId)|, !done
      {
        var ids := Select(Batchable(entities, m, source), lastId, batchSize);
        SelectIsBatch(Batchable(entities, m, source), lastId, batchSize);
        BatchableLeft(d, t, source, m, lastId);
        if ids == [] {
          done := true;
        } else {
          BatchOfSameRest(Batchable(entities, m, source), targets, lastId, ids);
          AboveShrinks(targets, lastId, ids[|ids| - 1]);
          var rowcount := Turn(d, t, source, m, lastId, ids);
          updated := updated + rowcount;
          lastId := ids[|ids| - 1];
          batch := batch + 1;
        }
      }
      remaining := nulledRows + resolvedRows - updated;
      RunReports(d, t, source, lastId);
      if done {
        NothingAbove(targets, lastId);
      }
    }
  }

  lemma RunReports(d: Data, t: Table, source: string, lastId: Id)
    requires ValidData(d)
    ensures |Targets(Partial(d, t, source, lastId), source)|
         == |Targets(t, source)| - |UpTo(Targets(t, source), lastId)|
  {
    var done := UpTo(Targets(t, source), lastId);
    TargetsLeft(d, t, source, done);
    assert Targets(t, source) == done + (Targets(t, source) - done);
  }

  // ---------- runs ----------

  /** A complete run after a cut one is a complete run. */
  lemma CutThenComplete(d: Data, t: Table, source: string, lastId: Id)
    requires ValidData(d)
    ensures Complete(d, Partial(d, t, source, lastId), source) == Complete(d, t, source)
  {
    var done := UpTo(Targets(t, source), lastId);
    TargetsLeft(d, t, source, done);
    var left := Targets(t, source) - done - {NIL_ID};
    NormalInTwoParts(d, t, done, left);
    assert done + left == Targets(t, source) - {NIL_ID};
  }

  /** The tables that runs cut at these points leave, one after the other. */
  function CutRuns(d: Data, t: Table, source: string, cuts: seq<Id>): Table {
    if cuts == [] then t else CutRuns(d, Partial(d, t, source, cuts[0]), source, cuts[1..])
  }

  /** However often a run is cut, the first complete one gets to the same table. */
  lemma {:induction false} Resumable(d: Data, t: Table, source: string, cuts: seq<Id>)
    requires ValidData(d)
    ensures Complete(d, CutRuns(d, t, source, cuts), source) == Complete(d, t, source)
    decreases |cuts|
  {
    if cuts != [] {
      Resumable(d, Partial(d, t, source, cuts[0]), source, cuts[1..]);
      CutThenComplete(d, t, source, cuts[0]);
    }
  }

  /** After a complete run only the nil row can still be wrong, so a further run finds nothing else. */
  lemma NothingLeft(d: Data, t: Table, source: string)
    requires ValidData(d)
    ensures Targets(Complete(d, t, source), source) == Targets(t, source) * {NIL_ID}
    ensures Complete(d, Complete(d, t, source), source) == Complete(d, t, source)
  {
    TargetsLeft(d, t, source, Targets(t, source) - {NIL_ID});
    var u := Complete(d, t, source);
    assert Targets(u, source) - {NIL_ID} == {};
  }

  /** What the job is for: an active row of the source (or of any, for "*") whose country is not a code yet. */
  predicate NeedsCode(source: string, p: Place) {
    && p.active && (source == "*" || p.source == source)
    && p.country.Some? && p.country.value != ""
    && !(|p.country.value| == 2 && forall c | c in p.country.value :: 'A' <= c <= 'Z')
  }

  lemma WrongNeedsCode(source: string, p: Place)
    ensures Wrong(source, p) <==> NeedsCode(source, p)
  {
    if p.country.Some? {
      var s := p.country.value;
      assert forall i | 0 <= i < |s| :: s[i] in s;
      assert |s| == 2 ==> forall c | c in s :: c == s[0] || c == s[1];
    }
  }

  /** What a complete run makes of each row: only those it is for change, and they get their resolution. */
  lemma CompleteRow(d: Data, t: Table, source: string, id: Id)
    requires ValidData(d) && id in t
    ensures var was, now := t[id], Complete(d, t, source)[id];
            && now == was.(country := now.country)
            && (InScope(source, was) && id != NIL_ID && was.country.Some? && was.country.value != "" ==>
                  now.country.None? || IsIso2(now.country.value))
            && (!NeedsCode(source, was) || id == 0 ==> now == was)
            && (NeedsCode(source, was) && id != 0 ==> now.country == Resolve(d, was.country.value))
  {
    WrongNeedsCode(source, t[id]);
    if Wrong(source, t[id]) && Resolve(d, t[id].country.value).Some? {
      ResolvedIsIso(d, t[id].country.value);
    }
  }
}
