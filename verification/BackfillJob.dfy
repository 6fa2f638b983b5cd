/**
 Backfill of 'kind' classifications from entities.secondary_types: each batch inserts one row per
 token, and the unique constraint turns a repeated insert into nothing.
 */
module BackfillJob {
  import opened BatchScan
  import opened Options

  const SKIP_KINDS: set<string> := {"interesting_places", "other"}

  datatype Entity = Entity(source: string, active: bool, secondaryTypes: Option<seq<string>>)

  type Entities = map<Id, Entity>

  /** A classification row of category 'kind'; the title is a function of the code. */
  datatype Kind = Kind(entity: Id, code: string)

  /** UNIQUE (entity_id, category, value_code). */
  ghost predicate NoDuplicates(rows: seq<Kind>) {
    forall i, j | 0 <= i < j < |rows| :: rows[i] != rows[j]
  }

  function AsRows(rows: seq<Kind>): set<Kind> { set k | k in rows }

  function Tokens(e: Entity): seq<string> { if e.secondaryTypes.Some? then e.secondaryTypes.value else [] }

  /** The rows one entity's tokens ask for. */
  function Wanted(t: Entities, id: Id): set<Kind>
    requires id in t
  {
    WantedTokens(id, Tokens(t[id]))
  }

  function WantedTokens(id: Id, tokens: seq<string>): set<Kind> {
    set code | code in tokens && code !in SKIP_KINDS :: Kind(id, code)
  }

  function WantedBy(t: Entities, ids: set<Id>): set<Kind> {
    set id, code | id in ids && id in t && code in Tokens(t[id]) && code !in SKIP_KINDS :: Kind(id, code)
  }

  function Scope(t: Entities, source: string): set<Id> {
    set id | id in t && InScope(source, t[id].source, t[id].active)
  }

  /** The rows in scope that do not exist yet. */
  function Missing(t: Entities, source: string, rows: set<Kind>): set<Kind> {
    WantedBy(t, Scope(t, source)) - rows
  }

  /** Entities the batch query selects from: those with some wanted row missing. */
  function Candidates(t: Entities, source: string, rows: set<Kind>): set<Id> {
    set id | id in Scope(t, source) && exists code | code in Tokens(t[id]) ::
        code !in SKIP_KINDS && Kind(id, code) !in rows
  }

  // ---------- the dry-run count ----------

  /** The count over one entity's tokens, occurrence by occurrence. */
  function Occurrences(id: Id, tokens: seq<string>, rows: set<Kind>): nat {
    if tokens == [] then 0
    else
      (if tokens[0] !in SKIP_KINDS && Kind(id, tokens[0]) !in rows then 1 else 0)
      + Occurrences(id, tokens[1..], rows)
  }

  /** No missing token occurs twice. */
  ghost predicate NoRepeats(id: Id, tokens: seq<string>, rows: set<Kind>) {
    forall i, j | 0 <= i < j < |tokens| && tokens[i] == tokens[j] ::
        tokens[i] in SKIP_KINDS || Kind(id, tokens[i]) in rows
  }

  function MissingTokens(id: Id, tokens: seq<string>, rows: set<Kind>): set<Kind> {
    set code | code in tokens && code !in SKIP_KINDS && Kind(id, code) !in rows :: Kind(id, code)
  }

  lemma {:induction false} OccurrencesBound(id: Id, tokens: seq<string>, rows: set<Kind>)
    ensures Occurrences(id, tokens, rows) >= |MissingTokens(id, tokens, rows)|
    ensures Occurrences(id, tokens, rows) == |MissingTokens(id, tokens, rows)| <==> NoRepeats(id, tokens, rows)
  {
    if tokens == [] {
      assert MissingTokens(id, tokens, rows) == {};
    } else {
      var first, rest := tokens[0], tokens[1..];
      OccurrencesBound(id, rest, rows);
      RepeatsOfRest(id, tokens, rows);
      var one := if first !in SKIP_KINDS && Kind(id, first) !in rows then {Kind(id, first)} else {};
      assert MissingTokens(id, tokens, rows) == MissingTokens(id, rest, rows) + one by {
        assert forall code :: code in tokens <==> code == first || code in rest;
      }
      if one != {} && first !in rest {
        assert Kind(id, first) !in MissingTokens(id, rest, rows);
      }
    }
  }

  lemma RepeatsOfRest(id: Id, tokens: seq<string>, rows: set<Kind>)
    requires tokens != []
    ensures NoRepeats(id, tokens, rows) <==>
              NoRepeats(id, tokens[1..], rows) && (tokens[0] in tokens[1..] ==>
                  tokens[0] in SKIP_KINDS || Kind(id, tokens[0]) in rows)
  {
    var rest := tokens[1..];
    if NoRepeats(id, tokens, rows) {
      forall i, j | 0 <= i < j < |rest| && rest[i] == rest[j]
        ensures rest[i] in SKIP_KINDS || Kind(id, rest[i]) in rows {
        assert tokens[i + 1] == tokens[j + 1];
      }
      if tokens[0] in rest {
        var j :| 0 <= j < |rest| && rest[j] == tokens[0];
        assert tokens[j + 1] == tokens[0];
      }
    } else {
      var i, j :|
        0 <= i < j < |tokens| && tokens[i] == tokens[j] && !(tokens[i] in SKIP_KINDS || Kind(id, tokens[i]) in rows);
      assert tokens[j] == rest[j - 1];
      if i > 0 {
        assert tokens[i] == rest[i - 1];
      }
    }
  }

  function MissingOf(t: Entities, ids: set<Id>, rows: set<Kind>): set<Kind> { WantedBy(t, ids) - rows }

  /** SELECT count(*) over the tokens of every entity of `ids`. */
  function DryCount(t: Entities, ids: set<Id>, rows: set<Kind>): nat
    requires ids <= t.Keys
    decreases |ids|
  {
    if ids == {} then 0
    else
      var id := Least(ids);
      Occurrences(id, Tokens(t[id]), rows) + DryCount(t, ids - {id}, rows)
  }

  lemma MissingOfOneMore(t: Entities, ids: set<Id>, rows: set<Kind>, id: Id)
    requires id in ids && id in t
    ensures |MissingOf(t, ids, rows)| == |MissingOf(t, ids - {id}, rows)| + |MissingTokens(id, Tokens(t[id]), rows)|
  {
    var one, others := MissingTokens(id, Tokens(t[id]), rows), MissingOf(t, ids - {id}, rows);
    forall k ensures k in MissingOf(t, ids, rows) <==> k in others + one {
      if k in one { assert k.code in Tokens(t[id]); }
    }
    assert MissingOf(t, ids, rows) == others + one;
    assert others !! one;
  }

  /** The dry-run count is never too small, and exact unless a missing token occurs twice in an entity. */
  lemma {:induction false} DryCountBound(t: Entities, ids: set<Id>, rows: set<Kind>)
    requires ids <= t.Keys
    ensures DryCount(t, ids, rows) >= |MissingOf(t, ids, rows)|
    ensures DryCount(t, ids, rows) == |MissingOf(t, ids, rows)| <==>
              forall id | id in ids :: NoRepeats(id, Tokens(t[id]), rows)
    decreases |ids|
  {
    if ids == {} {
      assert MissingOf(t, ids, rows) == {};
    } else {
      var id := Least(ids);
      DryCountBound(t, ids - {id}, rows);
      OccurrencesBound(id, Tokens(t[id]), rows);
      MissingOfOneMore(t, ids, rows, id);
      assert forall other | other in ids :: other == id || other in ids - {id};
    }
  }

  lemma {:induction false} RowsAreCounted(rows: seq<Kind>)
    requires NoDuplicates(rows)
    ensures |AsRows(rows)| == |rows|
  {
    if rows != [] {
      RowsAreCounted(rows[1..]);
      assert rows[0] !in rows[1..] && AsRows(rows) == AsRows(rows[1..]) + {rows[0]};
    }
  }

  // ---------- the loop ----------

  /** The rows a batch adds are those everything up to its end was missing. */
  lemma BatchCovers(t: Entities, source: string, rows: set<Kind>, lastId: Id, batch: seq<Id>)
    requires IsBatch(Candidates(t, source, rows), lastId, batch) && batch != []
    requires WantedBy(t, UpTo(Scope(t, source), lastId)) <= rows
    ensures var next := UpTo(Scope(t, source), batch[|batch| - 1]);
            WantedBy(t, AsSet(batch)) <= WantedBy(t, next) <= rows + WantedBy(t, AsSet(batch))
  {
    var next := UpTo(Scope(t, source), batch[|batch| - 1]);
    forall k | k in WantedBy(t, next) ensures k in rows || k in WantedBy(t, AsSet(batch)) {
      if k !in rows {
        assert k.entity !in UpTo(Scope(t, source), lastId);
        assert k.entity in Candidates(t, source, rows);
      }
    }
    assert AsSet(batch) <= next;
  }

  lemma NothingMissing(t: Entities, source: string, rows: set<Kind>, lastId: Id)
    requires Above(Candidates(t, source, rows), lastId) == {}
    requires WantedBy(t, UpTo(Scope(t, source), lastId)) <= rows
    ensures WantedBy(t, Scope(t, source) - {NIL_ID}) <= rows
  {
    forall k | k in WantedBy(t, Scope(t, source) - {NIL_ID}) ensures k in rows {
      if k.entity > lastId {
        assert k.entity !in Above(Candidates(t, source, rows), lastId);
      } else {
        assert k in WantedBy(t, UpTo(Scope(t, source), lastId));
      }
    }
  }

  /** Where a loop that stands at `lastId` has got to. */
  ghost predicate Progress(t: Entities, source: string, before: seq<Kind>, rows: seq<Kind>, lastId: Id) {
    && NoDuplicates(rows) && before <= rows
    && AsRows(rows) == AsRows(before) + WantedBy(t, UpTo(Scope(t, source), lastId))
  }

  lemma NothingYet(t: Entities, source: string, rows: seq<Kind>)
    requires NoDuplicates(rows)
    ensures Progress(t, source, rows, rows, NIL_ID)
  {
    assert UpTo(Scope(t, source), NIL_ID) == {};
    assert WantedBy(t, {}) == {};
  }

  lemma BatchProgress(t: Entities, source: string, before: seq<Kind>, rows: seq<Kind>, lastId: Id, batch: seq<Id>)
    requires Progress(t, source, before, rows, lastId) && batch != []
    requires IsBatch(Candidates(t, source, AsRows(rows)), lastId, batch)
    ensures AsSet(batch) <= Scope(t, source) && batch[|batch| - 1] in Scope(t, source)
    ensures forall after: seq<Kind> ::
              NoDuplicates(after) && rows <= after && AsRows(after) == AsRows(rows) + WantedBy(t, AsSet(batch)) ==>
                Progress(t, source, before, after, batch[|batch| - 1])
  {
    BatchCovers(t, source, AsRows(rows), lastId, batch);
    var reached, next := UpTo(Scope(t, source), lastId), UpTo(Scope(t, source), batch[|batch| - 1]);
    assert batch[|batch| - 1] > lastId && reached <= next;
    WantedByMore(t, reached, next);
    forall id | id in AsSet(batch) ensures id in Scope(t, source) {
      assert id in Candidates(t, source, AsRows(rows));
    }
  }

  lemma WantedByMore(t: Entities, a: set<Id>, b: set<Id>)
    requires a <= b
    ensures WantedBy(t, a) <= WantedBy(t, b)
  {
  }

  lemma RunAdds(t: Entities, source: string, before: seq<Kind>, rows: seq<Kind>, lastId: Id)
    requires Progress(t, source, before, rows, lastId)
    ensures AsRows(rows) <= AsRows(before) + WantedBy(t, Scope(t, source) - {NIL_ID})
    ensures Above(Candidates(t, source, AsRows(rows)), lastId) == {} ==>
              AsRows(rows) == AsRows(before) + MissingOf(t, Scope(t, source) - {NIL_ID}, AsRows(before))
  {
    WantedByMore(t, UpTo(Scope(t, source), lastId), Scope(t, source) - {NIL_ID});
    if Above(Candidates(t, source, AsRows(rows)), lastId) == {} {
      NothingMissing(t, source, AsRows(rows), lastId);
    }
  }

  class Job {
    var entities: Entities
    var rows: seq<Kind>

    /** INSERT ... ON CONFLICT DO NOTHING for the tokens of one entity. */
    method InsertTokens(id: Id)
      requires id in entities && NoDuplicates(rows)
      modifies this`rows
      ensures NoDuplicates(rows) && old(rows) <= rows
      ensures AsRows(rows) == AsRows(old(rows)) + Wanted(entities, id)
    {
      var tokens := Tokens(entities[id]);
      ghost var before := rows;
      for i := 0 to |tokens|
        invariant NoDuplicates(rows) && before <= rows
        invariant AsRows(rows) == AsRows(before) + WantedTokens(id, tokens[..i])
      {
        var k := Kind(id, tokens[i]);
        WantedTokensOneMore(id, tokens[..i], tokens[i]);
        assert tokens[..i + 1] == tokens[..i] + [tokens[i]];
        if tokens[i] !in SKIP_KINDS && k !in rows {
          AsRowsMore(rows, k);
          rows := rows + [k];
        }
      }
      assert tokens[..|tokens|] == tokens;
    }

    method InsertBatch(ids: seq<Id>) returns (rowcount: nat)
      requires AsSet(ids) <= entities.Keys && NoDuplicates(rows)
      modifies this`rows
      ensures NoDuplicates(rows) && old(rows) <= rows && rowcount == |rows| - |old(rows)|
      ensures AsRows(rows) == AsRows(old(rows)) + WantedBy(entities, AsSet(ids))
    {
      ghost var before := rows;
      var size := |rows|;
      for i := 0 to |ids|
        invariant NoDuplicates(rows) && before <= rows
        invariant AsRows(rows) == AsRows(before) + WantedBy(entities, AsSet(ids[..i]))
      {
        assert ids[i] in AsSet(ids);
        WantedByOneMore(entities, ids[..i], ids[i]);
        assert ids[..i + 1] == ids[..i] + [ids[i]];
        InsertTokens(ids[i]);
      }
      assert ids[..|ids|] == ids;
      rowcount := |rows| - size;
    }

    /** `turns` is the number of batches the time limit leaves room for, None for no limit. */
    method Run(source: string, batchSize: nat, turns: Option<nat>) returns (inserted: nat)
      requires batchSize > 0 && NoDuplicates(rows)
      modifies this`rows
      // rows are only added, each once, and only wanted ones
      ensures NoDuplicates(rows) && old(rows) <= rows
      ensures AsRows(rows) <= AsRows(old(rows)) + WantedBy(entities, Scope(entities, source) - {NIL_ID})
      ensures inserted == |rows| - |old(rows)| == |AsRows(rows) - AsRows(old(rows))|
      // a complete run adds every one that is missing, but those of the nil entity
      ensures turns.None? ==>
                AsRows(rows) == AsRows(old(rows))
                                + MissingOf(entities, Scope(entities, source) - {NIL_ID}, AsRows(old(rows)))
    {
      ghost var before, scope := rows, Scope(entities, source);
      inserted := 0;
      var lastId := NIL_ID;
      var batch: nat := 0;
      var done := false;
      NothingYet(entities, source, rows);
      while !done && (turns.None? || batch < turns.value)
        invariant Progress(entities, source, before, rows, lastId) && inserted == |rows| - |before|
        invariant done ==> Above(Candidates(entities, source, AsRows(rows)), lastId) == {}
        decreases |Above(scope, lastId)|, !done
      {
        var ids := Select(Candidates(entities, source, AsRows(rows)), lastId, batchSize);
        SelectIsBatch(Candidates(entities, source, AsRows(rows)), lastId, batchSize);
        if ids == [] {
          done := true;
        } else {
          BatchProgress(entities, source, before, rows, lastId, ids);
          AboveShrinks(scope, lastId, ids[|ids| - 1]);
          var rowcount := InsertBatch(ids);
          inserted := inserted + rowcount;
          lastId := ids[|ids| - 1];
          batch := batch + 1;
        }
      }
      InsertedAreNew(before, rows);
      RunAdds(entities, source, before, rows, lastId);
    }

    /** The dry run promises at least what a complete run inserts. */
    method DryRun(source: string) returns (wouldInsert: nat)
      ensures wouldInsert >= |MissingOf(entities, Scope(entities, source) - {NIL_ID}, AsRows(rows))|
      ensures wouldInsert == |MissingOf(entities, Scope(entities, source) - {NIL_ID}, AsRows(rows))| <==>
                && (forall id | id in Scope(entities, source) :: NoRepeats(id, Tokens(entities[id]), AsRows(rows)))
                && (NIL_ID in Scope(entities, source) ==>
                    MissingTokens(NIL_ID, Tokens(entities[NIL_ID]), AsRows(rows)) == {})
    {
      DryRunAgainstRun(entities, source, AsRows(rows));
      wouldInsert := DryCount(entities, Scope(entities, source), AsRows(rows));
    }
  }

  lemma AsRowsMore(rows: seq<Kind>, k: Kind)
    ensures AsRows(rows + [k]) == AsRows(rows) + {k}
  {
  }

  lemma WantedTokensOneMore(id: Id, tokens: seq<string>, code: string)
    ensures WantedTokens(id, tokens + [code]) == WantedTokens(id, tokens) +
        if code in SKIP_KINDS then {} else {Kind(id, code)}
  {
    assert forall other :: other in tokens + [code] <==> other in tokens || other == code;
  }

  lemma WantedByOneMore(t: Entities, ids: seq<Id>, id: Id)
    requires id in t
    ensures WantedBy(t, AsSet(ids + [id])) == WantedBy(t, AsSet(ids)) + Wanted(t, id)
  {
    assert AsSet(ids + [id]) == AsSet(ids) + {id};
  }

  lemma InsertedAreNew(before: seq<Kind>, after: seq<Kind>)
    requires NoDuplicates(after) && before <= after
    ensures |after| - |before| == |AsRows(after) - AsRows(before)|
  {
    var added := after[|before|..];
    assert after == before + added;
    RowsAreCounted(added);
    assert AsRows(after) - AsRows(before) == AsRows(added);
  }

  /**
   The dry-run count against what a complete run inserts: at least as much, and the same exactly
   when no entity repeats a missing token and the nil entity misses nothing.
   */
  lemma DryRunAgainstRun(t: Entities, source: string, rows: set<Kind>)
    ensures var scope := Scope(t, source);
            var inserted := |MissingOf(t, scope - {NIL_ID}, rows)|;
            && DryCount(t, scope, rows) >= inserted
            && (DryCount(t, scope, rows) == inserted <==>
                  && (forall id | id in scope :: NoRepeats(id, Tokens(t[id]), rows))
                  && (NIL_ID in scope ==> MissingTokens(NIL_ID, Tokens(t[NIL_ID]), rows) == {}))
  {
    var scope := Scope(t, source);
    DryCountBound(t, scope, rows);
    if NIL_ID in scope {
      MissingOfOneMore(t, scope, rows, NIL_ID);
    } else {
      assert scope - {NIL_ID} == scope;
    }
  }

  /**
   The rows after a complete run, outright: those there were, and one per listed type of an active
   entity of the source, except the two catch-all types and the entity with the nil id.
   */
  lemma RowsAfterRun(t: Entities, source: string, rows: set<Kind>, k: Kind)
    ensures k in rows + MissingOf(t, Scope(t, source) - {NIL_ID}, rows) <==>
              k in rows ||
              (k.entity in t && k.entity != 0 &&
               var e := t[k.entity];
               && e.active && e.source == source
               && e.secondaryTypes.Some? && k.code in e.secondaryTypes.value
               && k.code != "interesting_places" && k.code != "other")
  {
  }
}
