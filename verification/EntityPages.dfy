/** The entity listings: ranked or by-name search, nearby and map. */
module EntityPages {
  import opened Cursor
  import opened Json
  import opened Options
  import opened Text
  import opened Keyset

  datatype Entity = Entity(
    id: Id, source: string, name: string, placeType: string, country: string,
    category: string, subcategory: string, isActive: bool)

  datatype Level = Top | Leaf | Unknown

  /** The request filters; an empty string stands for an absent one. */
  datatype Filters = Filters(source: string, placeType: string, category: string, country: string)

  datatype Search = Search(
    q: string, filters: Filters, fulltext: bool,
    lat: Option<real>, lon: Option<real>, biasRadiusKm: Option<real>)

  datatype Circle = Circle(lat: real, lon: real, radiusKm: real)
  datatype Box = Box(minLon: real, minLat: real, maxLon: real, maxLat: real)

  /**
   The table, with what PostgreSQL computes about its rows left open.  A float is kept as its
   shortest text, which is how Python writes it into a cursor, and compared by `value`.
   */
  datatype Db = Db(
    entities: seq<Entity>,
    enabled: set<string>,
    level: string -> Level,
    similar: (Search, Entity) -> bool,
    collate: string -> real,
    value: string -> real,
    rank: (Search, Entity) -> string,
    near: (Search, Entity) -> bool,
    distance: (Circle, Entity) -> string,
    within: (Circle, Entity) -> bool,
    inside: (Box, Entity) -> bool)

  predicate IsFloat(text: string) {
    IsNumber(text) && NumberSpan(text) == |text|
  }

  /** Distinct UUID keys, floats that are numbers, names compared by a total collation. */
  ghost predicate ValidDb(db: Db) {
    && (forall e | e in db.entities :: e.id.Uuid? && ValidId(e.id))
    && (forall i, j | 0 <= i < j < |db.entities| :: db.entities[i].id != db.entities[j].id)
    && (forall a, b :: db.collate(a) == db.collate(b) ==> a == b)
    && (forall s, e :: IsFloat(db.rank(s, e)))
    && (forall c, e :: IsFloat(db.distance(c, e)))
    && db.value("0") == 0.0 && db.value("0.0") == 0.0
  }

  // ---------- base filters ----------

  datatype Clause =
    | IsActive
    | SourceIn(sources: set<string>)
    | SourceIs(source: string)
    | PlaceTypeIs(placeType: string)
    | CountryIs(country: string)
    | CategoryIs(category: string)
    | SubcategoryIs(category: string)
    | TextMatches(search: Search)

  predicate Holds(db: Db, c: Clause, e: Entity) {
    match c
    case IsActive => e.isActive
    case SourceIn(sources) => e.source in sources
    case SourceIs(source) => e.source == source
    case PlaceTypeIs(placeType) => e.placeType == placeType
    case CountryIs(country) => e.country == country
    case CategoryIs(category) => e.category == category
    case SubcategoryIs(category) => e.subcategory == category
    case TextMatches(s) => db.similar(s, e)
  }

  predicate AllHold(db: Db, where: seq<Clause>, e: Entity) {
    forall c | c in where :: Holds(db, c, e)
  }

  /**
   An active row that matches the request, of an enabled source unless no source is enabled at
   all; unknown categories match all.
   */
  predicate Listed(db: Db, f: Filters, e: Entity) {
    && e.isActive
    && (db.enabled != {} ==> e.source in db.enabled)
    && (f.source != "" ==> e.source == f.source)
    && (f.placeType != "" ==> e.placeType == f.placeType)
    && (f.country != "" ==> e.country == f.country)
    && (f.category != "" && db.level(f.category).Top? ==> e.category == f.category)
    && (f.category != "" && db.level(f.category).Leaf? ==> e.subcategory == f.category)
  }

  lemma OneMoreClause(db: Db, where: seq<Clause>, c: Clause)
    ensures forall e :: AllHold(db, where + [c], e) == (AllHold(db, where, e) && Holds(db, c, e))
  {
    assert forall x :: x in where + [c] <==> x in where || x == c;
  }

  method AddClause(db: Db, where: seq<Clause>, wanted: bool, c: Clause) returns (more: seq<Clause>)
    ensures more == if wanted then where + [c] else where
    ensures forall e :: AllHold(db, more, e) == (AllHold(db, where, e) && (wanted ==> Holds(db, c, e)))
  {
    OneMoreClause(db, where, c);
    more := if wanted then where + [c] else where;
  }

  method BaseClauses(db: Db, f: Filters) returns (where: seq<Clause>)
    ensures forall e :: AllHold(db, where, e) == Listed(db, f, e)
  {
    where := [IsActive];
    assert forall e :: AllHold(db, where, e) == e.isActive by {
      forall e ensures AllHold(db, where, e) == e.isActive {
        assert where[0] in where;
        assert Holds(db, IsActive, e) == e.isActive;
      }
    }
    where := AddClause(db, where, db.enabled != {}, SourceIn(db.enabled));
    where := AddClause(db, where, f.source != "", SourceIs(f.source));
    where := AddClause(db, where, f.placeType != "", PlaceTypeIs(f.placeType));
    where := AddClause(db, where, f.country != "", CountryIs(f.country));
    if f.category != "" {
      var level := db.level(f.category);
      where := AddClause(db, where, level == Top, CategoryIs(f.category));
      where := AddClause(db, where, level == Leaf, SubcategoryIs(f.category));
    }
  }

  /** An encoded cursor for a row of a valid table. */
  function CursorText(id: Id, sort: Json): string {
    if ValidId(id) && IsSortKey(sort) then EncodeCursor(id, sort) else ""
  }

  lemma CursorTextDecodes(id: Id, sort: Json)
    requires ValidId(id) && IsSortKey(sort)
    ensures CursorText(id, sort) != "" && DecodeCursor(CursorText(id, sort)) == Ok((id, sort))
  {
    CursorRoundTrip(id, sort);
  }

  lemma DistinctNumbers(db: Db, keep: Entity -> bool)
    requires ValidDb(db)
    ensures var rows := Where(db.entities, keep);
            && (forall i, j | 0 <= i < j < |rows| :: IdNumber(rows[i].id) != IdNumber(rows[j].id))
            && (forall e | e in rows :: e in db.entities && ValidId(e.id) && e.id.Uuid?)
  {
    var rows := Where(db.entities, keep);
    WhereKeepsApart(db.entities, keep, (e: Entity) => e.id);
    WhereKeeps(db.entities, keep);
    forall i, j | 0 <= i < j < |rows| ensures IdNumber(rows[i].id) != IdNumber(rows[j].id) {
      assert rows[i] in rows && rows[j] in rows;
      if IdNumber(rows[i].id) == IdNumber(rows[j].id) {
        IdNumberInjective(rows[i].id, rows[j].id);
      }
    }
  }

  // ---------- search ----------

  predicate Ranked(s: Search) { s.q != "" }

  predicate Tiered(s: Search) { s.lat.Some? && s.lon.Some? && s.biasRadiusKm.Some? }

  function Tier(db: Db, s: Search, e: Entity): int {
    if Tiered(s) && db.near(s, e) then 1 else 0
  }

  function Rank(db: Db, s: Search, e: Entity): real { db.value(db.rank(s, e)) }

  /** ORDER BY within_radius DESC, rank_score DESC, id ASC; or name ASC, id ASC. */
  predicate SearchLess(db: Db, s: Search, a: Entity, b: Entity) {
    if !Ranked(s) then
      db.collate(a.name) < db.collate(b.name) || (a.name == b.name && IdNumber(a.id) < IdNumber(b.id))
    else
      Tier(db, s, a) > Tier(db, s, b) ||
      (Tier(db, s, a) == Tier(db, s, b) &&
       (Rank(db, s, a) > Rank(db, s, b) ||
        (Rank(db, s, a) == Rank(db, s, b) && IdNumber(a.id) < IdNumber(b.id))))
  }

  /** `x or 0.0` for a float. */
  function OrZero(db: Db, text: string, zero: string): string {
    if db.value(text) == 0.0 then zero else text
  }

  function SearchSort(db: Db, s: Search, e: Entity): Json {
    if !Ranked(s) then Str(e.name)
    else
      var rankValue := OrZero(db, db.rank(s, e), "0.0");
      if Tiered(s) then Str(IntText(Tier(db, s, e)) + ":" + rankValue) else Num(rankValue)
  }

  /** Where a ranked cursor points: its tier, if it names one, and its rank. */
  function RankedPosition(s: Search, sort: Json): Result<(Option<int>, string)> {
    match sort
    case Str(text) =>
      var colon := Find(text, ':');
      if colon == |text| then InvalidCursor
      else
        (match ParseInt(text[..colon])
         case None => Uncaught
         case Some(tier) =>
           if !IsFloat(text[colon + 1..]) then Uncaught
           else if !Tiered(s) then InvalidCursor
           else Ok((Some(tier), text[colon + 1..])))
    case Num(text) => if Tiered(s) then InvalidCursor else Ok((None, text))
    case _ => InvalidCursor
  }

  function SearchFilter(db: Db, s: Search, cursor: string): Result<Entity -> bool> {
    match DecodeCursor(cursor)
    case InvalidCursor => InvalidCursor
    case Uncaught => Uncaught
    case Ok((id, sort)) =>
      if Ranked(s) then
        match RankedPosition(s, sort)
        case InvalidCursor => InvalidCursor
        case Uncaught => Uncaught
        case Ok((tier, rank)) =>
          if !id.Uuid? then Uncaught  // uuid > integer is a database error
          else if tier.Some? then
            Ok((e: Entity) => Tier(db, s, e) < tier.value ||
                    (Tier(db, s, e) == tier.value &&
                     (Rank(db, s, e) < db.value(rank) ||
                      (Rank(db, s, e) == db.value(rank) && IdNumber(e.id) > IdNumber(id)))))
          else
            Ok((e: Entity) => Rank(db, s, e) < db.value(rank) ||
                    (Rank(db, s, e) == db.value(rank) && IdNumber(e.id) > IdNumber(id)))
      else if !sort.Str? || !id.Uuid? then Uncaught
      else
        Ok((e: Entity) => db.collate(e.name) > db.collate(sort.s) ||
                (e.name == sort.s && IdNumber(e.id) > IdNumber(id)))
  }

  /** The rows of a search, before its cursor condition. */
  function SearchMatches(db: Db, s: Search): Entity -> bool {
    e => Listed(db, s.filters, e) && (s.q != "" ==> db.similar(s, e))
  }

  function SearchPager(db: Db, s: Search): Pager<Entity> {
    Pager(
      Where(db.entities, SearchMatches(db, s)),
      (a: Entity, b: Entity) => SearchLess(db, s, a, b),
      (e: Entity) => CursorText(e.id, SearchSort(db, s, e)),
      cursor => SearchFilter(db, s, cursor),
      Ranked(s))
  }

  /** WHERE, ORDER BY and LIMIT of one request, after its cursor has been accepted. */
  method Select(p: Pager<Entity>, keep: Entity -> bool, size: nat) returns (page: Page<Entity>)
    ensures page == PageFor(p, keep, size)
  {
    var matching := Where(p.rows, keep);
    page := CutPage(OrderBy(p.lt, matching), if p.totalFirst then |p.rows| else |matching|, size, p.cursorOf);
  }

  method Answer(p: Pager<Entity>, cursor: string, size: nat) returns (r: Result<Page<Entity>>)
    ensures r == PageAt(p, cursor, size)
  {
    if cursor == "" {
      var page := Select(p, AnyRow(), size);
      return Ok(page);
    }
    match p.filter(cursor)
    case InvalidCursor => return InvalidCursor;
    case Uncaught => return Uncaught;
    case Ok(keep) =>
      var page := Select(p, keep, size);
      return Ok(page);
  }

  method SearchPage(db: Db, s: Search, cursor: string, size: nat) returns (r: Result<Page<Entity>>)
    ensures r == PageAt(SearchPager(db, s), cursor, size)
  {
    var where := BaseClauses(db, s.filters);
    where := AddClause(db, where, s.q != "", TextMatches(s));
    var p := SearchPager(db, s).(rows := Where(db.entities, e => AllHold(db, where, e)));
    WhereSame(db.entities, e => AllHold(db, where, e),
              SearchMatches(db, s));
    r := Answer(p, cursor, size);
  }

  lemma SearchOrderIsStrict(db: Db, s: Search)
    requires ValidDb(db)
    ensures StrictOrder(SearchPager(db, s).lt)
    ensures Distinguishes(SearchPager(db, s).lt, SearchPager(db, s).rows)
  {
    var p := SearchPager(db, s);
    DistinctNumbers(db, SearchMatches(db, s));
    forall i, j | 0 <= i < j < |p.rows| ensures Comparable(p.lt, p.rows[i], p.rows[j]) {
      assert IdNumber(p.rows[i].id) != IdNumber(p.rows[j].id);
    }
  }

  lemma TierTextSplits(tier: int, rank: string)
    ensures var text := IntText(tier) + ":" + rank;
            var colon := Find(text, ':');
            colon < |text| && ParseInt(text[..colon]) == Some(tier) && text[colon + 1..] == rank
  {
    var tierText := IntText(tier);
    assert ':' !in NatText(if tier < 0 then -tier else tier);
    FindFirst(tierText, ':', ":" + rank);
    var text := tierText + ":" + rank;
    assert text == tierText + (":" + rank);
    assert text[..|tierText|] == tierText;
    IntReadsBack(tier);
  }

  lemma ZeroIsFloat()
    ensures IsFloat("0.0")
  {
    assert "0.0"[1..] == ".0" && "0.0"[0..] == "0.0";
    assert DigitSpan("0.0") == 1 && DigitSpan(".0"[1..]) == 1;
    assert NumberSpan("0.0"[1..]) == 2;
  }

  /** A row's own cursor is read back as its tier and its rank. */
  lemma RankedRoundTrip(db: Db, s: Search, e: Entity)
    requires ValidDb(db) && Ranked(s)
    ensures IsSortKey(SearchSort(db, s, e))
    ensures RankedPosition(s, SearchSort(db, s, e)).Ok?
    ensures var (tier, rank) := RankedPosition(s, SearchSort(db, s, e)).value;
            && tier == (if Tiered(s) then Some(Tier(db, s, e)) else None)
            && db.value(rank) == Rank(db, s, e)
  {
    ZeroIsFloat();
    if Tiered(s) {
      TierTextSplits(Tier(db, s, e), OrZero(db, db.rank(s, e), "0.0"));
    }
  }

  lemma IntReadsBack(n: int)
    ensures ParseInt(IntText(n)) == Some(n)
  {
    ParseNatText(if n < 0 then -n else n);
    if n < 0 {
      assert IntText(n)[1..] == NatText(-n);
    } else {
      assert IntText(n)[0] in NatText(n);
    }
  }

  /** The hand-written cursor conditions of search are its orderings, in all three modes. */
  lemma SearchIsLawful(db: Db, s: Search)
    requires ValidDb(db)
    ensures Lawful(SearchPager(db, s))
  {
    var p := SearchPager(db, s);
    SearchOrderIsStrict(db, s);
    DistinctNumbers(db, SearchMatches(db, s));
    forall r | r in p.rows ensures ResumesAfter(p, r) {
      assert ValidId(r.id) && r.id.Uuid?;
      if Ranked(s) {
        RankedRoundTrip(db, s, r);
      }
      CursorTextDecodes(r.id, SearchSort(db, s, r));
    }
  }

  /** A cursor of the other tiering is refused, never reinterpreted. */
  lemma OtherTieringRefused(db: Db, s: Search, other: Search, e: Entity)
    requires ValidDb(db) && ValidId(e.id) && Ranked(s) && Ranked(other) && Tiered(s) != Tiered(other)
    ensures SearchFilter(db, s, CursorText(e.id, SearchSort(db, other, e))) == InvalidCursor
  {
    RankedRoundTrip(db, other, e);
    CursorTextDecodes(e.id, SearchSort(db, other, e));
  }

  // ---------- nearby ----------

  function NearbyFilter(db: Db, c: Circle, cursor: string): Result<Entity -> bool> {
    match DecodeCursor(cursor)
    case InvalidCursor => InvalidCursor
    case Uncaught => Uncaught
    case Ok((id, sort)) =>
      if !sort.Num? || !id.Uuid? then Uncaught
      else
        Ok((e: Entity) => db.value(db.distance(c, e)) > db.value(sort.text) ||
              (db.value(db.distance(c, e)) == db.value(sort.text) && IdNumber(e.id) > IdNumber(id)))
  }

  function NearbyMatches(db: Db, c: Circle, f: Filters): Entity -> bool {
    e => Listed(db, f, e) && db.within(c, e)
  }

  /** ORDER BY distance_km ASC, id ASC. */
  function NearbyPager(db: Db, c: Circle, f: Filters): Pager<Entity> {
    Pager(
      Where(db.entities, NearbyMatches(db, c, f)),
      (a: Entity, b: Entity) =>
        db.value(db.distance(c, a)) < db.value(db.distance(c, b)) ||
        (db.value(db.distance(c, a)) == db.value(db.distance(c, b)) && IdNumber(a.id) < IdNumber(b.id)),
      (e: Entity) => CursorText(e.id, Num(OrZero(db, db.distance(c, e), "0"))),
      cursor => NearbyFilter(db, c, cursor),
      false)
  }

  method NearbyPage(db: Db, c: Circle, f: Filters, cursor: string, size: nat) returns (r: Result<Page<Entity>>)
    ensures r == PageAt(NearbyPager(db, c, f), cursor, size)
  {
    var where := BaseClauses(db, f);
    var p := NearbyPager(db, c, f).(rows := Where(db.entities, e => AllHold(db, where, e) && db.within(c, e)));
    WhereSame(db.entities, e => AllHold(db, where, e) && db.within(c, e), NearbyMatches(db, c, f));
    r := Answer(p, cursor, size);
  }

  lemma NearbyIsLawful(db: Db, c: Circle, f: Filters)
    requires ValidDb(db)
    ensures Lawful(NearbyPager(db, c, f))
  {
    var p := NearbyPager(db, c, f);
    DistinctNumbers(db, NearbyMatches(db, c, f));
    forall i, j | 0 <= i < j < |p.rows| ensures Comparable(p.lt, p.rows[i], p.rows[j]) {
      assert IdNumber(p.rows[i].id) != IdNumber(p.rows[j].id);
    }
    assert IsFloat("0") by {
      assert "0"[0..] == "0" && "0"[1..] == "";
    }
    forall r | r in p.rows ensures ResumesAfter(p, r) {
      CursorTextDecodes(r.id, Num(OrZero(db, db.distance(c, r), "0")));
    }
  }

  // ---------- map ----------

  function MapFilter(cursor: string): Result<Entity -> bool> {
    match DecodeCursor(cursor)
    case InvalidCursor => InvalidCursor
    case Uncaught => Uncaught
    case Ok((id, _)) =>
      if !id.Uuid? then Uncaught else Ok((e: Entity) => IdNumber(e.id) > IdNumber(id))
  }

  function MapMatches(db: Db, b: Box, f: Filters): Entity -> bool {
    e => Listed(db, f, e) && db.inside(b, e)
  }

  /** ORDER BY id ASC. */
  function MapPager(db: Db, b: Box, f: Filters): Pager<Entity> {
    Pager(
      Where(db.entities, MapMatches(db, b, f)),
      (x: Entity, y: Entity) => IdNumber(x.id) < IdNumber(y.id),
      (e: Entity) => CursorText(e.id, Str(if ValidId(e.id) then IdText(e.id) else "")),
      cursor => MapFilter(cursor),
      false)
  }

  method MapPage(db: Db, b: Box, f: Filters, cursor: string, size: nat) returns (r: Result<Page<Entity>>)
    ensures r == PageAt(MapPager(db, b, f), cursor, size)
  {
    var where := BaseClauses(db, f);
    var p := MapPager(db, b, f).(rows := Where(db.entities, e => AllHold(db, where, e) && db.inside(b, e)));
    WhereSame(db.entities, e => AllHold(db, where, e) && db.inside(b, e), MapMatches(db, b, f));
    r := Answer(p, cursor, size);
  }

  lemma MapIsLawful(db: Db, b: Box, f: Filters)
    requires ValidDb(db)
    ensures Lawful(MapPager(db, b, f))
  {
    var p := MapPager(db, b, f);
    DistinctNumbers(db, MapMatches(db, b, f));
    forall i, j | 0 <= i < j < |p.rows| ensures Comparable(p.lt, p.rows[i], p.rows[j]) {
      assert IdNumber(p.rows[i].id) != IdNumber(p.rows[j].id);
    }
    forall r | r in p.rows ensures ResumesAfter(p, r) {
      CursorTextDecodes(r.id, Str(IdText(r.id)));
    }
  }

  // ---------- whole walks ----------

  /**
   Search in every mode, nearby and map.  Ranked search repeats one total on every page; the
   others count down.
   */
  lemma EntityWalks(db: Db, s: Search, c: Circle, b: Box, f: Filters, size: nat)
    requires ValidDb(db) && size > 0
    ensures WalksListing(SearchPager(db, s), size) && SearchPager(db, s).totalFirst == Ranked(s)
    ensures WalksListing(NearbyPager(db, c, f), size) && !NearbyPager(db, c, f).totalFirst
    ensures WalksListing(MapPager(db, b, f), size) && !MapPager(db, b, f).totalFirst
  {
    SearchIsLawful(db, s);
    NearbyIsLawful(db, c, f);
    MapIsLawful(db, b, f);
    LawfulWalks(SearchPager(db, s), size);
    LawfulWalks(NearbyPager(db, c, f), size);
    LawfulWalks(MapPager(db, b, f), size);
  }
}
