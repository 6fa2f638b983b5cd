/**
 Unification of entity categories: a loop of small committed batches over the active entities of
 one source, each row getting the category triple of its best kind mapping.
 */
module UnifyJob {
  import opened BatchScan
  import opened Options

  type CategoryId = nat

  datatype Mapping = Mapping(source: string, kind: string, category: CategoryId, priority: int)

  datatype Category = Category(slug: string, parent: Option<CategoryId>)

  datatype Triple = Triple(category: Option<CategoryId>, top: Option<string>, leaf: Option<string>)

  datatype Entity = Entity(
    source: string, active: bool, secondaryTypes: Option<seq<string>>, placeType: Option<string>, unified: Triple)

  type Table = map<Id, Entity>

  /** The mapping and category tables, and the database's order of text. */
  datatype Taxonomy = Taxonomy(mappings: seq<Mapping>, categories: map<CategoryId, Category>, collate: string -> real)

  /** UNIQUE (source, kind), and text that collates equally is equal. */
  ghost predicate ValidTaxonomy(x: Taxonomy) {
    && (forall a, b | a in x.mappings && b in x.mappings && a.source == b.source && a.kind == b.kind :: a == b)
    && (forall s, t :: x.collate(s) == x.collate(t) ==> s == t)
  }

  // ---------- resolving one entity ----------

  predicate Matches(m: Mapping, e: Entity) {
    && m.source == e.source
    && ((e.secondaryTypes.Some? && m.kind in e.secondaryTypes.value) || e.placeType == Some(m.kind))
  }

  /** ORDER BY priority DESC, kind ASC. */
  predicate Before(x: Taxonomy, a: Mapping, b: Mapping) {
    a.priority > b.priority || (a.priority == b.priority && x.collate(a.kind) < x.collate(b.kind))
  }

  function Best(x: Taxonomy, mappings: seq<Mapping>, e: Entity): (r: Option<Mapping>)
    ensures r.Some? ==> r.value in mappings && Matches(r.value, e)
    ensures forall m | m in mappings && Matches(m, e) :: r.Some? && !Before(x, m, r.value)
  {
    if mappings == [] then None
    else
      var rest := Best(x, mappings[1..], e);
      var m := mappings[0];
      assert forall other | other in mappings :: other == m || other in mappings[1..];
      if Matches(m, e) && (rest.None? || Before(x, m, rest.value)) then Some(m) else rest
  }

  /** The choice does not depend on the order in which the mappings are stored. */
  lemma BestIsDetermined(x: Taxonomy, mappings: seq<Mapping>, e: Entity)
    requires ValidTaxonomy(x) && (forall m :: m in mappings <==> m in x.mappings)
    ensures Best(x, mappings, e) == Best(x, x.mappings, e)
  {
    var a, b := Best(x, mappings, e), Best(x, x.mappings, e);
    if a.Some? {
      assert b.Some? && !Before(x, a.value, b.value) && !Before(x, b.value, a.value);
      assert x.collate(a.value.kind) == x.collate(b.value.kind);
    }
  }

  /** The triple an entity should have; none when its best mapping's category is not under a parent. */
  function Resolve(x: Taxonomy, e: Entity): Option<Triple> {
    match Best(x, x.mappings, e)
    case None => None
    case Some(m) =>
      if m.category in x.categories && x.categories[m.category].parent.Some?
         && x.categories[m.category].parent.value in x.categories
      then
        var leaf := x.categories[m.category];
        Some(Triple(Some(m.category), Some(x.categories[leaf.parent.value].slug), Some(leaf.slug)))
      else None
  }

  /** The row differs from its resolved triple (IS DISTINCT FROM, so NULLs count). */
  predicate Stale(x: Taxonomy, e: Entity) {
    Resolve(x, e).Some? && e.unified != Resolve(x, e).value
  }

  function Unified(x: Taxonomy, e: Entity): Entity {
    if Resolve(x, e).Some? then e.(unified := Resolve(x, e).value) else e
  }

  lemma UnifiedIsSettled(x: Taxonomy, e: Entity)
    ensures Resolve(x, Unified(x, e)) == Resolve(x, e) && !Stale(x, Unified(x, e))
  {
    SameTypesSameBest(x, x.mappings, e, Unified(x, e));
  }

  lemma {:induction false} SameTypesSameBest(x: Taxonomy, mappings: seq<Mapping>, e: Entity, f: Entity)
    requires f == e.(unified := f.unified)
    ensures Best(x, mappings, f) == Best(x, mappings, e)
  {
    if mappings != [] {
      SameTypesSameBest(x, mappings[1..], e, f);
    }
  }

  // ---------- the whole table ----------

  function Scope(t: Table, source: string): set<Id> {
    set id | id in t && InScope(source, t[id].source, t[id].active)
  }

  function Pending(x: Taxonomy, t: Table, source: string): set<Id> {
    set id | id in t && InScope(source, t[id].source, t[id].active) && Stale(x, t[id])
  }

  /** The rows of `ids` resolved, all others untouched. */
  function UnifiedRows(x: Taxonomy, t: Table, ids: set<Id>): Table {
    map id | id in t :: if id in ids then Unified(x, t[id]) else t[id]
  }

  lemma UnifiedStaysInScope(x: Taxonomy, t: Table, source: string, ids: set<Id>)
    ensures Scope(UnifiedRows(x, t, ids), source) == Scope(t, source)
  {
  }

  lemma OtherRowsStayPending(x: Taxonomy, t: Table, source: string, a: set<Id>, b: set<Id>)
    requires a !! b
    ensures Pending(x, UnifiedRows(x, t, a), source) * b == Pending(x, t, source) * b
  {
    var u := UnifiedRows(x, t, a);
    assert forall id | id in b && id in t :: u[id] == t[id];
  }

  lemma RowsInTwoParts(x: Taxonomy, t: Table, a: set<Id>, b: set<Id>)
    requires a !! b
    ensures UnifiedRows(x, UnifiedRows(x, t, a), b) == UnifiedRows(x, t, a + b)
  {
    var u := UnifiedRows(x, t, a);
    var v := UnifiedRows(x, u, b);
    assert forall id | id in t && id in b :: u[id] == t[id] && id !in a;
    assert forall id | id in t && id !in b :: v[id] == u[id];
  }

  lemma RowsCompose(x: Taxonomy, t: Table, source: string, a: set<Id>, b: set<Id>)
    requires a !! b
    ensures UnifiedRows(x, UnifiedRows(x, t, a), b) == UnifiedRows(x, t, a + b)
    ensures Scope(UnifiedRows(x, t, a), source) == Scope(t, source)
    ensures Pending(x, UnifiedRows(x, t, a), source) * b == Pending(x, t, source) * b
    ensures |Pending(x, t, source) * (a + b)| == |Pending(x, t, source) * a| + |Pending(x, t, source) * b|
  {
    RowsInTwoParts(x, t, a, b);
    UnifiedStaysInScope(x, t, source, a);
    OtherRowsStayPending(x, t, source, a, b);
    SplitCount(Pending(x, t, source), a, b);
  }

  lemma SplitCount(p: set<Id>, a: set<Id>, b: set<Id>)
    requires a !! b
    ensures |p * (a + b)| == |p * a| + |p * b|
  {
    assert p * (a + b) == p * a + p * b && p * a !! p * b;
  }

  /** UPDATE ... WHERE the row differs from its triple. */
  function UpdatedRows(x: Taxonomy, t: Table, batch: seq<Id>): Table {
    map id | id in t ::
      if id in batch && Stale(x, t[id]) then t[id].(unified := Resolve(x, t[id]).value) else t[id]
  }

  /** Leaving out the rows that are right already makes no difference. */
  lemma UpdatedAreUnified(x: Taxonomy, t: Table, batch: seq<Id>)
    ensures UpdatedRows(x, t, batch) == UnifiedRows(x, t, AsSet(batch))
  {
    forall id | id in t ensures Stale(x, t[id]) || Unified(x, t[id]) == t[id] {}
  }

  /** One more batch: table, counts and what is left. */
  lemma BatchComposes(x: Taxonomy, t: Table, source: string, lastId: Id, batchSize: nat)
    requires Select(Scope(t, source), lastId, batchSize) != []
    ensures var scope, batch := Scope(t, source), Select(Scope(t, source), lastId, batchSize);
            var next := batch[|batch| - 1];
            var reached, u := UpTo(scope, lastId), UnifiedRows(x, t, UpTo(scope, lastId));
            && UnifiedRows(x, u, AsSet(batch)) == UnifiedRows(x, t, UpTo(scope, next))
            && Scope(UnifiedRows(x, t, UpTo(scope, next)), source) == scope && AsSet(batch) <= scope
            && |Pending(x, t, source) * UpTo(scope, next)| ==
                 |Pending(x, t, source) * reached| + |Pending(x, u, source) * AsSet(batch)|
            && |UpTo(scope, next)| == |reached| + |batch|
            && |Above(scope, next)| < |Above(scope, lastId)|
  {
    var scope, batch := Scope(t, source), Select(Scope(t, source), lastId, batchSize);
    SelectIsBatch(scope, lastId, batchSize);
    BatchGrows(scope, lastId, batch);
    RowsCompose(x, t, source, UpTo(scope, lastId), AsSet(batch));
    UnifiedStaysInScope(x, t, source, UpTo(scope, batch[|batch| - 1]));
    assert batch[|batch| - 1] in AsSet(batch);
    AboveShrinks(scope, lastId, batch[|batch| - 1]);
  }

  class Job {
    var entities: Table

    /** The UPDATE over one batch, and its row count. */
    method UpdateBatch(x: Taxonomy, source: string, batch: seq<Id>) returns (rowcount: nat)
      requires forall id | id in batch :: id in Scope(entities, source)
      modifies this
      ensures entities == UnifiedRows(x, old(entities), AsSet(batch))
      ensures rowcount == |Pending(x, old(entities), source) * AsSet(batch)|
    {
      rowcount := |Pending(x, entities, source) * AsSet(batch)|;
      UpdatedAreUnified(x, entities, batch);
      entities := UpdatedRows(x, entities, batch);
    }

    /** The dry run promises what a run would update, and one more if the nil row is due. */
    method DryRun(x: Taxonomy, source: string) returns (wouldUpdate: nat)
      ensures var pending := Pending(x, entities, source);
              wouldUpdate == |pending - {NIL_ID}| + if NIL_ID in pending then 1 else 0
      ensures wouldUpdate == 0 <==> forall id | id in Scope(entities, source) :: !Stale(x, entities[id])
    {
      var pending := Pending(x, entities, source);
      CountsAgreeIff(x, entities, source);
      assert NIL_ID in pending ==> pending == (pending - {NIL_ID}) + {NIL_ID};
      wouldUpdate := |pending|;
      assert pending == {} <==> forall id | id in entities :: id !in pending;
    }

    /** Whatever the batch size, the loop is one pass over every row in scope but the nil one. */
    method Run(x: Taxonomy, source: string, batchSize: nat) returns (updated: nat, scanned: nat)
      requires batchSize > 0
      modifies this
      ensures entities == UnifiedRows(x, old(entities), Scope(old(entities), source) - {NIL_ID})
      ensures updated == |Pending(x, old(entities), source) - {NIL_ID}|
      ensures scanned == |Scope(old(entities), source) - {NIL_ID}|
    {
      ghost var t, scope := entities, Scope(entities, source);
      updated, scanned := 0, 0;
      var lastId := NIL_ID;
      assert UnifiedRows(x, t, UpTo(scope, NIL_ID)) == t;
      assert Pending(x, t, source) * UpTo(scope, NIL_ID) == {} && UpTo(scope, NIL_ID) == {};
      var batch := Select(Scope(entities, source), lastId, batchSize);
      while batch != []
        invariant Scope(entities, source) == scope && batch == Select(scope, lastId, batchSize)
        invariant entities == UnifiedRows(x, t, UpTo(scope, lastId))
        invariant updated == |Pending(x, t, source) * UpTo(scope, lastId)| && scanned == |UpTo(scope, lastId)|
        decreases |Above(scope, lastId)|
      {
        BatchComposes(x, t, source, lastId, batchSize);
        var rowcount := UpdateBatch(x, source, batch);
        updated := updated + rowcount;
        scanned := scanned + |batch|;
        lastId := batch[|batch| - 1];
        batch := Select(Scope(entities, source), lastId, batchSize);
      }
      NothingAbove(scope, lastId);
      assert Pending(x, t, source) * (scope - {NIL_ID}) == Pending(x, t, source) - {NIL_ID};
    }
  }

  // ---------- what a run means ----------

  /** The mapping is for the row's source and for one of its secondary types or its place type. */
  predicate AppliesTo(m: Mapping, e: Entity) {
    m.source == e.source &&
    (e.placeType == Some(m.kind) || (e.secondaryTypes.Some? && m.kind in e.secondaryTypes.value))
  }

  /** It applies, and every other one that does has a lower priority, or the same and a later kind. */
  ghost predicate Wins(x: Taxonomy, m: Mapping, e: Entity) {
    && m in x.mappings && AppliesTo(m, e)
    && forall other | other in x.mappings && other != m && AppliesTo(other, e) ::
         other.priority < m.priority ||
         (other.priority == m.priority && x.collate(m.kind) < x.collate(other.kind))
  }

  /** The category of a mapping hangs under one that exists. */
  predicate HasParent(x: Taxonomy, category: CategoryId) {
    category in x.categories &&
    match x.categories[category].parent
    case Some(top) => top in x.categories
    case None => false
  }

  lemma WinnerIsBest(x: Taxonomy, m: Mapping, e: Entity)
    requires Wins(x, m, e)
    ensures Best(x, x.mappings, e) == Some(m)
  {
    assert Matches(m, e);
    var best := Best(x, x.mappings, e).value;
    assert AppliesTo(best, e) && !Before(x, m, best);
  }

  lemma NoneApplies(x: Taxonomy, e: Entity)
    requires forall m | m in x.mappings :: !AppliesTo(m, e)
    ensures Best(x, x.mappings, e).None?
  {
    assert forall m | m in x.mappings :: !Matches(m, e);
  }

  /**
   What a run leaves of one row: a row that is inactive, of another source or the nil one is not
   touched, nor is one without a winning mapping or whose category has no parent; any other gets the
   winner's category, the slug of that category's parent as top and its own slug as leaf.
   */
  lemma RunSettlesRow(x: Taxonomy, t: Table, source: string, id: Id)
    requires id in t
    ensures var was, now := t[id], UnifiedRows(x, t, Scope(t, source) - {NIL_ID})[id];
            && now == was.(unified := now.unified)
            && (!was.active || was.source != source || id == 0 ==> now == was)
            && ((forall m | m in x.mappings :: !AppliesTo(m, was)) ==> now == was)
            && (forall m | Wins(x, m, was) && !HasParent(x, m.category) :: now == was)
            && (was.active && was.source == source && id != 0 ==> !Stale(x, now))
            && (was.active && was.source == source && id != 0 ==>
                  forall m | Wins(x, m, was) && HasParent(x, m.category) ::
                    && now.unified.category == Some(m.category)
                    && now.unified.leaf == Some(x.categories[m.category].slug)
                    && now.unified.top == Some(x.categories[x.categories[m.category].parent.value].slug))
  {
    UnifiedIsSettled(x, t[id]);
    if forall m | m in x.mappings :: !AppliesTo(m, t[id]) {
      NoneApplies(x, t[id]);
    }
    forall m | Wins(x, m, t[id]) ensures Best(x, x.mappings, t[id]) == Some(m) {
      WinnerIsBest(x, m, t[id]);
    }
  }

  /** Text that collates equally being equal and (source, kind) unique, some mapping wins if any applies. */
  lemma SomeMappingWins(x: Taxonomy, e: Entity) returns (m: Mapping)
    requires ValidTaxonomy(x) && exists other :: other in x.mappings && AppliesTo(other, e)
    ensures Wins(x, m, e)
  {
    var some :| some in x.mappings && AppliesTo(some, e);
    assert Matches(some, e);
    m := Best(x, x.mappings, e).value;
    forall other | other in x.mappings && other != m && AppliesTo(other, e)
      ensures other.priority < m.priority ||
              (other.priority == m.priority && x.collate(m.kind) < x.collate(other.kind))
    {
      assert Matches(other, e) && !Before(x, other, m);
    }
  }

  /** A second run scans the same rows and updates none of them. */
  lemma SecondRunUpdatesNothing(x: Taxonomy, t: Table, source: string)
    ensures var u := UnifiedRows(x, t, Scope(t, source) - {NIL_ID});
            && Pending(x, u, source) - {NIL_ID} == {}
            && UnifiedRows(x, u, Scope(u, source) - {NIL_ID}) == u
  {
    var u := UnifiedRows(x, t, Scope(t, source) - {NIL_ID});
    UnifiedStaysInScope(x, t, source, Scope(t, source) - {NIL_ID});
    forall id | id in t ensures id in Pending(x, u, source) ==> id == NIL_ID {
      UnifiedIsSettled(x, t[id]);
    }
    forall id | id in t && id in Scope(u, source) - {NIL_ID} ensures Unified(x, u[id]) == u[id] {
      UnifiedIsSettled(x, t[id]);
    }
  }

  /** The live count is the dry-run count exactly when the nil row is not due for an update. */
  lemma CountsAgreeIff(x: Taxonomy, t: Table, source: string)
    ensures |Pending(x, t, source) - {NIL_ID}| == |Pending(x, t, source)| <==> NIL_ID !in Pending(x, t, source)
  {
    var p := Pending(x, t, source);
    if NIL_ID in p {
      assert p == (p - {NIL_ID}) + {NIL_ID};
    } else {
      assert p - {NIL_ID} == p;
    }
  }
}
