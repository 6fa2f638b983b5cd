/** The classification listing: three sort levels and a cursor with JSON inside JSON. */
module ClassificationPages {
  import opened Cursor
  import opened Json
  import opened Options
  import opened Text
  import opened Keyset

  datatype Classification = Classification(
    id: Id, entityId: string, category: string, valueCode: string, isActive: bool)

  /** An empty string stands for an absent filter. */
  datatype Filters = Filters(entityId: string, category: string, valueCode: string)

  ghost predicate ValidRows(rows: seq<Classification>, collate: string -> real) {
    && (forall c | c in rows :: c.id.Int?)
    && (forall i, j | 0 <= i < j < |rows| :: rows[i].id != rows[j].id)
    && (forall a, b :: collate(a) == collate(b) ==> a == b)
  }

  predicate Listed(f: Filters, c: Classification) {
    && c.isActive
    && (f.entityId != "" ==> c.entityId == f.entityId)
    && (f.category != "" ==> c.category == f.category)
    && (f.valueCode != "" ==> c.valueCode == f.valueCode)
  }

  function Matches(f: Filters): Classification -> bool { c => Listed(f, c) }

  /** ORDER BY category ASC, value_code ASC, id ASC. */
  predicate Less(collate: string -> real, a: Classification, b: Classification) {
    collate(a.category) < collate(b.category) ||
    (a.category == b.category &&
     (collate(a.valueCode) < collate(b.valueCode) ||
      (a.valueCode == b.valueCode && IdNumber(a.id) < IdNumber(b.id))))
  }

  /** The sort key is itself a JSON text, which the cursor then quotes. */
  function SortText(c: Classification): string {
    Dump(Obj([Field("c", Str(c.category)), Field("v", Str(c.valueCode))]), false)
  }

  function CursorOf(c: Classification): string {
    if ValidId(c.id) then EncodeCursor(c.id, Str(SortText(c))) else ""
  }

  function Lookups(fields: seq<Field>): (Option<Json>, Option<Json>) { (Lookup(fields, "c"), Lookup(fields, "v")) }

  /** The category and value a cursor's sort key names. */
  function Position(sort: Json): Result<(string, string)> {
    if !sort.Str? then InvalidCursor
    else
      match Loads(sort.s, false)
      case Some(Obj(fields)) =>
        (match Lookups(fields)
         case (Some(Str(category)), Some(Str(valueCode))) => Ok((category, valueCode))
         case (Some(_), Some(_)) => Uncaught
         case _ => InvalidCursor)
      case _ => InvalidCursor
  }

  function Filter(collate: string -> real, cursor: string): Result<Classification -> bool> {
    match DecodeCursor(cursor)
    case InvalidCursor => InvalidCursor
    case Uncaught => Uncaught
    case Ok((id, sort)) =>
      match Position(sort)
      case InvalidCursor => InvalidCursor
      case Uncaught => Uncaught
      case Ok((category, valueCode)) =>
        if !id.Int? then Uncaught
        else
          Ok((c: Classification) =>
            collate(c.category) > collate(category) ||
            (c.category == category && collate(c.valueCode) > collate(valueCode)) ||
            (c.category == category && c.valueCode == valueCode && IdNumber(c.id) > IdNumber(id)))
  }

  function ClassificationPager(rows: seq<Classification>, collate: string -> real, f: Filters): Pager<Classification> {
    Pager(
      Where(rows, Matches(f)),
      (a: Classification, b: Classification) => Less(collate, a, b),
      CursorOf,
      cursor => Filter(collate, cursor),
      false)
  }

  method ClassificationPage(rows: seq<Classification>, collate: string -> real, f: Filters, cursor: string, size: nat)
    returns (r: Result<Page<Classification>>)
    ensures r == PageAt(ClassificationPager(rows, collate, f), cursor, size)
  {
    var p := ClassificationPager(rows, collate, f);
    var keep: Classification -> bool := AnyRow();
    if cursor != "" {
      match Filter(collate, cursor)
      case InvalidCursor => return InvalidCursor;
      case Uncaught => return Uncaught;
      case Ok(after) => keep := after;
    }
    var matching := Where(p.rows, keep);
    var page := CutPage(OrderBy(p.lt, matching), |matching|, size, CursorOf);
    return Ok(page);
  }

  lemma PositionRoundTrip(c: Classification)
    ensures Position(Str(SortText(c))) == Ok((c.category, c.valueCode))
  {
    var fields := [Field("c", Str(c.category)), Field("v", Str(c.valueCode))];
    LoadsDumps(Obj(fields), false, false);
    assert fields[..1] == [Field("c", Str(c.category))];
    assert Lookup(fields, "c") == Lookup(fields[..1], "c");
  }

  /** The three-level cursor condition is the listing's order. */
  lemma ClassificationsAreLawful(rows: seq<Classification>, collate: string -> real, f: Filters)
    requires ValidRows(rows, collate)
    ensures Lawful(ClassificationPager(rows, collate, f))
  {
    var p := ClassificationPager(rows, collate, f);
    WhereKeepsApart(rows, Matches(f), (c: Classification) => c.id);
    WhereKeeps(rows, Matches(f));
    forall i, j | 0 <= i < j < |p.rows| ensures Comparable(p.lt, p.rows[i], p.rows[j]) {
      assert p.rows[i] in p.rows && p.rows[j] in p.rows;
      assert p.rows[i].id != p.rows[j].id;
    }
    forall r | r in p.rows ensures ResumesAfter(p, r) {
      CursorRoundTrip(r.id, Str(SortText(r)));
      PositionRoundTrip(r);
    }
  }

  /** The walk over all pages; the total counts down from page to page. */
  lemma ClassificationWalk(rows: seq<Classification>, collate: string -> real, f: Filters, size: nat)
    requires ValidRows(rows, collate) && size > 0
    ensures WalksListing(ClassificationPager(rows, collate, f), size)
    ensures !ClassificationPager(rows, collate, f).totalFirst
  {
    ClassificationsAreLawful(rows, collate, f);
    LawfulWalks(ClassificationPager(rows, collate, f), size);
  }
}
