/**
 What the listings list, and in which order, said without the code's own conditions: rows that match
 the request and no others, each once, and how any two of them follow each other.
 */
module ListingOrder {
  import opened Cursor
  import opened CursorFormat
  import opened Json
  import opened Text
  import opened Keyset
  import opened Options
  import opened EntityPages
  import C = ClassificationPages

  // ---------- ids ----------

  /** UUIDs in the order of their text. */
  ghost predicate TextBefore(a: string, b: string) {
    exists k | 0 <= k < |a| && k < |b| :: a[..k] == b[..k] && a[k] < b[k]
  }

  lemma HexDigitOrder(c: char, d: char)
    requires IsLowerHex(c) && IsLowerHex(d)
    ensures HexValue(c).value < HexValue(d).value <==> c < d
    ensures HexValue(c).value < 16
  {
  }

  lemma LastHex(h: string)
    requires h != "" && forall c | c in h :: IsLowerHex(c)
    ensures IsLowerHex(h[|h| - 1]) && forall c | c in h[..|h| - 1] :: IsLowerHex(c)
    ensures HexNumber(h) == 16 * HexNumber(h[..|h| - 1]) + HexValue(h[|h| - 1]).value
  {
    assert h[|h| - 1] in h;
  }

  lemma ShorterBefore(a: string, b: string)
    requires |a| == |b| > 0
    ensures TextBefore(a, b) <==>
              TextBefore(a[..|a| - 1], b[..|b| - 1]) || (a[..|a| - 1] == b[..|b| - 1] && a[|a| - 1] < b[|b| - 1])
  {
    var n := |a| - 1;
    var x, y := a[..n], b[..n];
    if TextBefore(x, y) {
      var k :| 0 <= k < |x| && k < |y| && x[..k] == y[..k] && x[k] < y[k];
      assert a[..k] == x[..k] && b[..k] == y[..k];
    }
    if x == y && a[n] < b[n] {
      assert a[..n] == b[..n];
    }
    if TextBefore(a, b) {
      var k :| 0 <= k < |a| && k < |b| && a[..k] == b[..k] && a[k] < b[k];
      if k < n {
        assert x[..k] == a[..k] && y[..k] == b[..k] && x[k] == a[k] && y[k] == b[k];
      }
    }
  }

  /** The numeric order of UUIDs is the order of their text. */
  lemma {:induction false} HexNumberOrder(a: string, b: string)
    requires |a| == |b| && (forall c | c in a :: IsLowerHex(c)) && (forall c | c in b :: IsLowerHex(c))
    ensures HexNumber(a) < HexNumber(b) <==> TextBefore(a, b)
    decreases |a|
  {
    if a != "" {
      LastHex(a);
      LastHex(b);
      var x, y := a[..|a| - 1], b[..|b| - 1];
      HexNumberOrder(x, y);
      HexNumberOrder(y, x);
      ShorterBefore(a, b);
      HexDigitOrder(a[|a| - 1], b[|b| - 1]);
      if HexNumber(x) == HexNumber(y) {
        HexNumberInjective(x, y);
      }
      assert TextBefore(x, y) ==> x != y;
    }
  }

  // ---------- entities ----------

  /** The row is active, of an enabled source if any is, and has what the request asks for. */
  ghost predicate Asked(db: Db, f: Filters, e: Entity) {
    && e.isActive
    && (db.enabled == {} || e.source in db.enabled)
    && (f.source == "" || e.source == f.source)
    && (f.placeType == "" || e.placeType == f.placeType)
    && (f.country == "" || e.country == f.country)
    && (f.category == "" || match db.level(f.category)
                            case Top => e.category == f.category
                            case Leaf => e.subcategory == f.category
                            case Unknown => true)
  }

  ghost predicate IdBefore(a: Id, b: Id) { a.Uuid? && b.Uuid? && TextBefore(a.hex, b.hex) }

  /** First the one with the smaller key, or, with the same key, the smaller id. */
  ghost predicate KeyBefore(x: real, a: Id, y: real, b: Id) { x < y || (x == y && IdBefore(a, b)) }

  /** How a search row and one further down relate. */
  ghost predicate SearchBefore(db: Db, s: Search, a: Entity, b: Entity) {
    if s.q == "" then KeyBefore(db.collate(a.name), a.id, db.collate(b.name), b.id)
    else if s.lat.Some? && s.lon.Some? && s.biasRadiusKm.Some? then
      // nothing inside the radius comes after something outside it
      && (db.near(s, b) ==> db.near(s, a))
      && (db.near(s, a) == db.near(s, b) ==>
            KeyBefore(-db.value(db.rank(s, a)), a.id, -db.value(db.rank(s, b)), b.id))
    else KeyBefore(-db.value(db.rank(s, a)), a.id, -db.value(db.rank(s, b)), b.id)
  }

  lemma IdOrder(db: Db, a: Entity, b: Entity)
    requires ValidDb(db) && a in db.entities && b in db.entities
    ensures IdNumber(a.id) < IdNumber(b.id) <==> IdBefore(a.id, b.id)
  {
    HexNumberOrder(a.id.hex, b.id.hex);
  }

  /** The listing is exactly the rows asked for, any one before a later one. */
  ghost predicate Lists<R(!new)>(listing: seq<R>, table: seq<R>, asked: R -> bool, before: (R, R) -> bool) {
    && (forall x :: x in listing <==> x in table && asked(x))
    && (forall i, j | 0 <= i < j < |listing| :: before(listing[i], listing[j]))
  }

  lemma WalkLists<R(!new)>(p: Pager<R>, size: nat, table: seq<R>, keep: R -> bool, asked: R -> bool,
                           before: (R, R) -> bool)
    requires Lawful(p) && size > 0 && p.rows == Where(table, keep)
    requires forall x | x in table :: keep(x) == asked(x)
    requires forall a, b | a in table && b in table && p.lt(a, b) :: before(a, b)
    ensures Lists(Flatten(Walk(p, size, |p.rows| + 1)), table, asked, before)
  {
    var rows := Flatten(Walk(p, size, |p.rows| + 1));
    LawfulWalks(p, size);
    WalkedRows(p, size, table, keep);
    SortedGoesOn(p.lt, rows, table, before);
    forall x ensures x in rows <==> x in table && asked(x) {}
  }

  lemma SortedGoesOn<R(!new)>(lt: (R, R) -> bool, rows: seq<R>, table: seq<R>, before: (R, R) -> bool)
    requires Sorted(lt, rows) && (forall x | x in rows :: x in table)
    requires forall a, b | a in table && b in table && lt(a, b) :: before(a, b)
    ensures forall i, j | 0 <= i < j < |rows| :: before(rows[i], rows[j])
  {
    forall i, j | 0 <= i < j < |rows| ensures before(rows[i], rows[j]) {
      assert rows[i] in table && rows[j] in table && lt(rows[i], rows[j]);
    }
  }

  lemma AskedIsListed(db: Db, f: Filters, e: Entity)
    ensures Asked(db, f, e) ==> Listed(db, f, e)
    ensures Listed(db, f, e) ==> Asked(db, f, e)
  {
  }

  lemma SearchAsks(db: Db, s: Search, e: Entity)
    ensures SearchMatches(db, s)(e) == (Asked(db, s.filters, e) && (s.q == "" || db.similar(s, e)))
  {
    AskedIsListed(db, s.filters, e);
  }

  lemma NearbyAsks(db: Db, c: Circle, f: Filters, e: Entity)
    ensures NearbyMatches(db, c, f)(e) == (Asked(db, f, e) && db.within(c, e))
  {
    AskedIsListed(db, f, e);
  }

  lemma MapAsks(db: Db, box: Box, f: Filters, e: Entity)
    ensures MapMatches(db, box, f)(e) == (Asked(db, f, e) && db.inside(box, e))
  {
    AskedIsListed(db, f, e);
  }

  lemma SearchOrders(db: Db, s: Search, a: Entity, b: Entity)
    requires ValidDb(db) && a in db.entities && b in db.entities && SearchLess(db, s, a, b)
    ensures SearchBefore(db, s, a, b)
  {
    IdOrder(db, a, b);
  }

  /** Search lists what matches, and in this order: by name, or by rank with what is near first. */
  lemma SearchWalkOrder(db: Db, s: Search, size: nat)
    requires ValidDb(db) && size > 0
    ensures var p := SearchPager(db, s);
            Lists(Flatten(Walk(p, size, |p.rows| + 1)), db.entities,
                  e => Asked(db, s.filters, e) && (s.q == "" || db.similar(s, e)),
                  (a, b) => SearchBefore(db, s, a, b))
  {
    SearchIsLawful(db, s);
    forall e | e in db.entities {
      SearchAsks(db, s, e);
    }
    forall a, b | a in db.entities && b in db.entities && SearchLess(db, s, a, b) {
      SearchOrders(db, s, a, b);
    }
    WalkLists(SearchPager(db, s), size, db.entities, SearchMatches(db, s),
              e => Asked(db, s.filters, e) && (s.q == "" || db.similar(s, e)), (a, b) => SearchBefore(db, s, a, b));
  }

  /** Nearby lists what matches within the circle, from near to far. */
  lemma NearbyWalkOrder(db: Db, c: Circle, f: Filters, size: nat)
    requires ValidDb(db) && size > 0
    ensures var p := NearbyPager(db, c, f);
            Lists(Flatten(Walk(p, size, |p.rows| + 1)), db.entities,
                  e => Asked(db, f, e) && db.within(c, e),
                  (a, b) => KeyBefore(db.value(db.distance(c, a)), a.id, db.value(db.distance(c, b)), b.id))
  {
    NearbyIsLawful(db, c, f);
    forall e | e in db.entities {
      NearbyAsks(db, c, f, e);
    }
    forall a, b | a in db.entities && b in db.entities {
      IdOrder(db, a, b);
    }
    WalkLists(NearbyPager(db, c, f), size, db.entities, NearbyMatches(db, c, f),
              e => Asked(db, f, e) && db.within(c, e),
              (a, b) => KeyBefore(db.value(db.distance(c, a)), a.id, db.value(db.distance(c, b)), b.id));
  }

  /** Map lists what matches inside the box, by id. */
  lemma MapWalkOrder(db: Db, box: Box, f: Filters, size: nat)
    requires ValidDb(db) && size > 0
    ensures var p := MapPager(db, box, f);
            Lists(Flatten(Walk(p, size, |p.rows| + 1)), db.entities,
                  e => Asked(db, f, e) && db.inside(box, e), (a: Entity, b: Entity) => IdBefore(a.id, b.id))
  {
    MapIsLawful(db, box, f);
    forall e | e in db.entities {
      MapAsks(db, box, f, e);
    }
    forall a, b | a in db.entities && b in db.entities {
      IdOrder(db, a, b);
    }
    WalkLists(MapPager(db, box, f), size, db.entities, MapMatches(db, box, f),
              e => Asked(db, f, e) && db.inside(box, e), (a: Entity, b: Entity) => IdBefore(a.id, b.id));
  }

  // ---------- classifications ----------

  ghost predicate ClassAsked(f: C.Filters, c: C.Classification) {
    && c.isActive
    && (f.entityId == "" || c.entityId == f.entityId)
    && (f.category == "" || c.category == f.category)
    && (f.valueCode == "" || c.valueCode == f.valueCode)
  }

  /** By category, then value code, then id. */
  ghost predicate ClassBefore(collate: string -> real, a: C.Classification, b: C.Classification) {
    || collate(a.category) < collate(b.category)
    || (a.category == b.category && collate(a.valueCode) < collate(b.valueCode))
    || (a.category == b.category && a.valueCode == b.valueCode && a.id.Int? && b.id.Int? && a.id.n < b.id.n)
  }

  /** The classification listing: active rows that match, in that order. */
  lemma ClassificationWalkOrder(table: seq<C.Classification>, collate: string -> real, f: C.Filters, size: nat)
    requires C.ValidRows(table, collate) && size > 0
    ensures var p := C.ClassificationPager(table, collate, f);
            Lists(Flatten(Walk(p, size, |p.rows| + 1)), table,
                  c => ClassAsked(f, c), (a, b) => ClassBefore(collate, a, b))
  {
    C.ClassificationsAreLawful(table, collate, f);
    WalkLists(C.ClassificationPager(table, collate, f), size, table, C.Matches(f),
              c => ClassAsked(f, c), (a, b) => ClassBefore(collate, a, b));
  }

  // ---------- totals ----------

  /** The total of every page of a walk, from the number of rows it lists in the end. */
  ghost predicate TotalsAre<R>(answers: seq<Result<Page<R>>>, size: nat, repeated: bool) {
    forall i | 0 <= i < |answers| ::
      answers[i].Ok? && answers[i].value.total == |Flatten(answers)| - (if repeated then 0 else i * size)
  }

  lemma WalkSize<R(!new)>(p: Pager<R>, size: nat)
    requires WalksListing(p, size)
    ensures |Flatten(Walk(p, size, |p.rows| + 1))| == |p.rows|
  {
    var rows := Flatten(Walk(p, size, |p.rows| + 1));
    assert |rows| == |multiset(rows)| == |multiset(p.rows)| == |p.rows|;
  }

  lemma TotalAt<R(!new)>(p: Pager<R>, size: nat, i: nat)
    requires WalksListing(p, size) && i < |Walk(p, size, |p.rows| + 1)|
    ensures var answer := Walk(p, size, |p.rows| + 1)[i];
            answer.Ok? && answer.value.total == |p.rows| - (if p.totalFirst then 0 else i * size)
  {
    if p.rows != [] {
      assert TotalIs(p, size, Walk(p, size, |p.rows| + 1), i);
    } else {
      assert i == 0;
    }
  }

  lemma TotalsOutright<R(!new)>(p: Pager<R>, size: nat)
    requires WalksListing(p, size)
    ensures TotalsAre(Walk(p, size, |p.rows| + 1), size, p.totalFirst)
  {
    var answers := Walk(p, size, |p.rows| + 1);
    WalkSize(p, size);
    forall i | 0 <= i < |answers|
      ensures answers[i].Ok? && answers[i].value.total == |p.rows| - (if p.totalFirst then 0 else i * size)
    {
      TotalAt(p, size, i);
    }
  }

  /** With a search text every page repeats the number of all rows; without one pages count down. */
  lemma SearchTotals(db: Db, s: Search, size: nat)
    requires ValidDb(db) && size > 0
    ensures TotalsAre(Walk(SearchPager(db, s), size, |SearchPager(db, s).rows| + 1), size, s.q != "")
  {
    SearchIsLawful(db, s);
    LawfulWalks(SearchPager(db, s), size);
    TotalsOutright(SearchPager(db, s), size);
  }

  /** On the other endpoints a page counts its own rows and those after it. */
  lemma NearbyTotals(db: Db, c: Circle, f: Filters, size: nat)
    requires ValidDb(db) && size > 0
    ensures TotalsAre(Walk(NearbyPager(db, c, f), size, |NearbyPager(db, c, f).rows| + 1), size, false)
  {
    NearbyIsLawful(db, c, f);
    LawfulWalks(NearbyPager(db, c, f), size);
    TotalsOutright(NearbyPager(db, c, f), size);
  }

  lemma MapTotals(db: Db, b: Box, f: Filters, size: nat)
    requires ValidDb(db) && size > 0
    ensures TotalsAre(Walk(MapPager(db, b, f), size, |MapPager(db, b, f).rows| + 1), size, false)
  {
    MapIsLawful(db, b, f);
    LawfulWalks(MapPager(db, b, f), size);
    TotalsOutright(MapPager(db, b, f), size);
  }

  lemma ClassificationTotals(table: seq<C.Classification>, collate: string -> real, f: C.Filters, size: nat)
    requires C.ValidRows(table, collate) && size > 0
    ensures var p := C.ClassificationPager(table, collate, f);
            TotalsAre(Walk(p, size, |p.rows| + 1), size, false)
  {
    C.ClassificationWalk(table, collate, f, size);
    TotalsOutright(C.ClassificationPager(table, collate, f), size);
  }

  // ---------- refused cursors ----------

  /** A text that is no cursor is refused on every endpoint, and never treated as the first page. */
  lemma InvalidEverywhere(db: Db, s: Search, c: Circle, b: Box, f: Filters, table: seq<C.Classification>,
                          collate: string -> real, g: C.Filters, cursor: string, size: nat)
    requires cursor != "" && DecodeCursor(cursor) == InvalidCursor
    ensures PageAt(SearchPager(db, s), cursor, size) == InvalidCursor
    ensures PageAt(NearbyPager(db, c, f), cursor, size) == InvalidCursor
    ensures PageAt(MapPager(db, b, f), cursor, size) == InvalidCursor
    ensures PageAt(C.ClassificationPager(table, collate, g), cursor, size) == InvalidCursor
  {
  }

  /** A ranked cursor is a plain number, or a tier and a rank with a colon between them. */
  lemma RankedSortKey(s: Search, sort: Json)
    ensures var r, near := RankedPosition(s, sort), s.lat.Some? && s.lon.Some? && s.biasRadiusKm.Some?;
            && (!sort.Str? && !sort.Num? ==> r == InvalidCursor)
            && (sort.Num? ==> r == if near then InvalidCursor else Ok((None, sort.text)))
            && (sort.Str? && ':' !in sort.s ==> r == InvalidCursor)
  {
    if sort.Str? && ':' !in sort.s {
      assert Find(sort.s, ':') == |sort.s|;
    }
  }

  lemma ColonSplits(a: string, b: string)
    requires ':' !in a
    ensures var text := a + ":" + b;
            Find(text, ':') == |a| < |text| && text[..|a|] == a && text[|a| + 1..] == b
  {
    var text := a + ":" + b;
    FindFirst(a, ':', ":" + b);
    assert text == a + (":" + b);
  }

  lemma TieredSortKey(s: Search, a: string, b: string)
    requires ':' !in a
    ensures RankedPosition(s, Str(a + ":" + b)) ==
              if ParseInt(a).None? || !IsFloat(b) then Uncaught
              else if !(s.lat.Some? && s.lon.Some? && s.biasRadiusKm.Some?) then InvalidCursor
              else Ok((Some(ParseInt(a).value), b))
  {
    ColonSplits(a, b);
  }

  /** A rank is a JSON number, with nothing after it. */
  lemma FloatIsNumber(text: string)
    ensures IsFloat(text) <==> IsNumber(text) && NumberSpan(text) == |text|
  {
  }

  /** What becomes of it: refused, an error nobody catches, also for an integer id, or rows. */
  lemma RankedCursor(db: Db, s: Search, cursor: string, id: Id, sort: Json, size: nat)
    requires cursor != "" && DecodeCursor(cursor) == Ok((id, sort)) && s.q != ""
    ensures var r := PageAt(SearchPager(db, s), cursor, size);
            match RankedPosition(s, sort)
            case InvalidCursor => r == InvalidCursor
            case Uncaught => r == Uncaught
            case Ok(_) => if id.Int? then r == Uncaught else r.Ok?
  {
  }

  /** On the other endpoints a sort key or an id of the wrong kind is an error nobody catches. */
  lemma OtherCursors(db: Db, s: Search, c: Circle, b: Box, f: Filters, cursor: string, id: Id, sort: Json, size: nat)
    requires cursor != "" && DecodeCursor(cursor) == Ok((id, sort)) && s.q == ""
    ensures if sort.Str? && id.Uuid? then PageAt(SearchPager(db, s), cursor, size).Ok?
            else PageAt(SearchPager(db, s), cursor, size) == Uncaught
    ensures if sort.Num? && id.Uuid? then PageAt(NearbyPager(db, c, f), cursor, size).Ok?
            else PageAt(NearbyPager(db, c, f), cursor, size) == Uncaught
    ensures if id.Uuid? then PageAt(MapPager(db, b, f), cursor, size).Ok?
            else PageAt(MapPager(db, b, f), cursor, size) == Uncaught
  {
  }

  lemma MemberPair(fields: seq<Field>, x: Json, y: Json)
    requires Has(fields, "c", x) && Has(fields, "v", y)
    ensures C.Lookups(fields) == (Some(x), Some(y))
  {
    LastMember(fields, "c");
    LastMember(fields, "v");
  }

  lemma NoPair(fields: seq<Field>)
    requires (forall x | x in fields :: x.name != "c") || (forall x | x in fields :: x.name != "v")
    ensures C.Lookups(fields).0.None? || C.Lookups(fields).1.None?
  {
    LastMember(fields, "c");
    LastMember(fields, "v");
  }

  /** The sort key of a classification cursor must be the text of an object with both members as strings. */
  lemma PositionOutcome(text: string, fields: seq<Field>, x: Json, y: Json)
    requires Loads(text, false) == Some(Obj(fields))
    ensures (forall f | f in fields :: f.name != "c") || (forall f | f in fields :: f.name != "v") ==>
              C.Position(Str(text)) == InvalidCursor
    ensures Has(fields, "c", x) && Has(fields, "v", y) ==>
              C.Position(Str(text)) == if x.Str? && y.Str? then Ok((x.s, y.s)) else Uncaught
  {
    if (forall f | f in fields :: f.name != "c") || (forall f | f in fields :: f.name != "v") {
      NoPair(fields);
    }
    if Has(fields, "c", x) && Has(fields, "v", y) {
      MemberPair(fields, x, y);
    }
  }

  lemma NoPosition(sort: Json)
    requires sort.Str? ==> Loads(sort.s, false).None? || !Loads(sort.s, false).value.Obj?
    ensures C.Position(sort) == InvalidCursor
  {
  }

  lemma ClassificationCursor(table: seq<C.Classification>, collate: string -> real, g: C.Filters, cursor: string,
                             id: Id, sort: Json, size: nat)
    requires cursor != "" && DecodeCursor(cursor) == Ok((id, sort))
    ensures var r := PageAt(C.ClassificationPager(table, collate, g), cursor, size);
            match C.Position(sort)
            case InvalidCursor => r == InvalidCursor
            case Uncaught => r == Uncaught
            case Ok(_) => if id.Int? then r.Ok? else r == Uncaught
  {
  }

  // ---------- the cursors that are handed out ----------

  /** What stands in the cursor of a search row: its name; or its rank, with its tier before a colon. */
  function SearchKey(db: Db, s: Search, e: Entity): Json {
    if s.q == "" then Str(e.name)
    else
      var rank := if db.value(db.rank(s, e)) == 0.0 then "0.0" else db.rank(s, e);
      if s.lat.Some? && s.lon.Some? && s.biasRadiusKm.Some?
      then Str((if db.near(s, e) then "1:" else "0:") + rank) else Num(rank)
  }

  lemma SearchCursors(db: Db, s: Search, e: Entity)
    requires ValidDb(db) && e in db.entities
    ensures IsSortKey(SearchKey(db, s, e))
    ensures SearchPager(db, s).cursorOf(e) == EncodeCursor(e.id, SearchKey(db, s, e))
  {
    ZeroIsFloat();
    assert IntText(1) == "1" && IntText(0) == "0";
    assert "1" + ":" == "1:" && "0" + ":" == "0:";
    assert SearchSort(db, s, e) == SearchKey(db, s, e);
  }

  lemma NearbyCursors(db: Db, c: Circle, f: Filters, e: Entity)
    requires ValidDb(db) && e in db.entities
    ensures var distance := if db.value(db.distance(c, e)) == 0.0 then "0" else db.distance(c, e);
            && IsSortKey(Num(distance))
            && NearbyPager(db, c, f).cursorOf(e) == EncodeCursor(e.id, Num(distance))
  {
    assert IsFloat("0") by {
      assert "0"[0..] == "0" && "0"[1..] == "";
    }
  }

  lemma MapCursors(db: Db, b: Box, f: Filters, e: Entity)
    requires ValidDb(db) && e in db.entities
    ensures MapPager(db, b, f).cursorOf(e) == EncodeCursor(e.id, Str(IdText(e.id)))
  {
  }
}
