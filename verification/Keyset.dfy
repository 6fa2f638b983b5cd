/**
 Keyset pagination over a fixed table: one page per request, the next request carrying the
 cursor of the last row served.

 SQL is read as: WHERE keeps rows, ORDER BY sorts them, LIMIT takes a prefix.  An endpoint is
 described by a `Pager`; `Lawful` is what its hand-written cursor predicate must satisfy.
 */
module Keyset {
  import opened Cursor
  import opened Options

  // ---------- WHERE and ORDER BY ----------

  function Where<R>(rows: seq<R>, keep: R -> bool): seq<R> {
    if rows == [] then []
    else if keep(rows[0]) then [rows[0]] + Where(rows[1..], keep)
    else Where(rows[1..], keep)
  }

  function Insert<R>(lt: (R, R) -> bool, x: R, rows: seq<R>): seq<R> {
    if rows == [] || lt(x, rows[0]) then [x] + rows
    else [rows[0]] + Insert(lt, x, rows[1..])
  }

  function OrderBy<R>(lt: (R, R) -> bool, rows: seq<R>): seq<R> {
    if rows == [] then [] else Insert(lt, rows[0], OrderBy(lt, rows[1..]))
  }

  ghost predicate StrictOrder<R(!new)>(lt: (R, R) -> bool) {
    && (forall a :: !lt(a, a))
    && (forall a, b, c :: lt(a, b) && lt(b, c) ==> lt(a, c))
  }

  ghost predicate Comparable<R>(lt: (R, R) -> bool, a: R, b: R) {
    lt(a, b) || lt(b, a)
  }

  /** Any two rows of the table are ordered one way or the other. */
  ghost predicate Distinguishes<R>(lt: (R, R) -> bool, rows: seq<R>) {
    forall i, j | 0 <= i < j < |rows| :: Comparable(lt, rows[i], rows[j])
  }

  ghost predicate Sorted<R>(lt: (R, R) -> bool, rows: seq<R>) {
    forall i, j | 0 <= i < j < |rows| :: lt(rows[i], rows[j])
  }

  lemma {:induction false} InsertIsPermutation<R>(lt: (R, R) -> bool, x: R, rows: seq<R>)
    ensures multiset(Insert(lt, x, rows)) == multiset{x} + multiset(rows)
  {
    if rows != [] && !lt(x, rows[0]) {
      InsertIsPermutation(lt, x, rows[1..]);
      assert rows == [rows[0]] + rows[1..];
    }
  }

  lemma {:induction false} InsertSorted<R(!new)>(lt: (R, R) -> bool, x: R, rows: seq<R>)
    requires StrictOrder(lt) && Sorted(lt, rows)
    requires forall y | y in rows :: Comparable(lt, x, y)
    ensures Sorted(lt, Insert(lt, x, rows))
  {
    if rows != [] {
      if lt(x, rows[0]) {
        forall j | 0 <= j < |rows| ensures lt(x, rows[j]) {
          assert j > 0 ==> lt(rows[0], rows[j]);
        }
      } else {
        var tail := Insert(lt, x, rows[1..]);
        InsertSorted(lt, x, rows[1..]);
        InsertIsPermutation(lt, x, rows[1..]);
        assert Comparable(lt, x, rows[0]);
        forall j | 0 <= j < |tail| ensures lt(rows[0], tail[j]) {
          assert tail[j] in multiset(tail);
          assert tail[j] == x || tail[j] in rows[1..];
        }
      }
    }
  }

  /** ORDER BY gives a strictly sorted rearrangement of the rows. */
  lemma {:induction false} OrderBySorts<R(!new)>(lt: (R, R) -> bool, rows: seq<R>)
    requires StrictOrder(lt) && Distinguishes(lt, rows)
    ensures Sorted(lt, OrderBy(lt, rows))
    ensures multiset(OrderBy(lt, rows)) == multiset(rows)
  {
    if rows != [] {
      OrderBySorts(lt, rows[1..]);
      var tail := OrderBy(lt, rows[1..]);
      forall y | y in tail ensures Comparable(lt, rows[0], y) {
        assert y in multiset(tail);
        assert y in rows[1..];
      }
      InsertSorted(lt, rows[0], tail);
      InsertIsPermutation(lt, rows[0], tail);
      assert rows == [rows[0]] + rows[1..];
    }
  }

  lemma LeastFirst<R>(lt: (R, R) -> bool, rows: seq<R>, x: R)
    requires Sorted(lt, rows) && x in rows
    ensures x == rows[0] || lt(rows[0], x)
  {
    var i :| 0 <= i < |rows| && rows[i] == x;
  }

  lemma SameFirst<R(!new)>(lt: (R, R) -> bool, a: seq<R>, b: seq<R>)
    requires StrictOrder(lt) && Sorted(lt, a) && Sorted(lt, b)
    requires a != [] && b != [] && multiset(a) == multiset(b)
    ensures a[0] == b[0] && multiset(a[1..]) == multiset(b[1..])
  {
    assert a[0] in multiset(b) && b[0] in multiset(a);
    LeastFirst(lt, a, b[0]);
    LeastFirst(lt, b, a[0]);
    assert a == [a[0]] + a[1..] && b == [b[0]] + b[1..];
    assert multiset(a[1..]) == multiset(a) - multiset{a[0]};
    assert multiset(b[1..]) == multiset(b) - multiset{b[0]};
  }

  /** Only one arrangement of the rows is strictly sorted, so `OrderBy` is what SQL must return. */
  lemma {:induction false} SortedIsUnique<R(!new)>(lt: (R, R) -> bool, a: seq<R>, b: seq<R>)
    requires StrictOrder(lt) && Sorted(lt, a) && Sorted(lt, b) && multiset(a) == multiset(b)
    ensures a == b
    decreases |a|
  {
    assert |a| == |multiset(a)| == |multiset(b)| == |b|;
    if a != [] {
      SameFirst(lt, a, b);
      SortedIsUnique(lt, a[1..], b[1..]);
      assert a == [a[0]] + a[1..] && b == [b[0]] + b[1..];
    }
  }

  lemma {:induction false} WhereKeeps<R>(rows: seq<R>, keep: R -> bool)
    ensures forall x | x in Where(rows, keep) :: x in rows && keep(x)
  {
    if rows != [] {
      WhereKeeps(rows[1..], keep);
    }
  }

  lemma {:induction false} WhereHas<R>(rows: seq<R>, keep: R -> bool, x: R)
    requires x in rows && keep(x)
    ensures x in Where(rows, keep)
  {
    if x != rows[0] {
      WhereHas(rows[1..], keep, x);
    }
  }

  /** Filtering keeps rows apart that a key tells apart. */
  lemma {:induction false} WhereKeepsApart<R, K>(rows: seq<R>, keep: R -> bool, key: R -> K)
    requires forall i, j | 0 <= i < j < |rows| :: key(rows[i]) != key(rows[j])
    ensures forall i, j | 0 <= i < j < |Where(rows, keep)| :: key(Where(rows, keep)[i]) != key(Where(rows, keep)[j])
  {
    if rows != [] {
      WhereKeepsApart(rows[1..], keep, key);
      WhereKeeps(rows[1..], keep);
      var tail := Where(rows[1..], keep);
      if keep(rows[0]) {
        assert Where(rows, keep) == [rows[0]] + tail;
        forall j | 0 <= j < |tail| ensures key(rows[0]) != key(tail[j]) {
          assert tail[j] in rows[1..];
        }
      }
    }
  }

  lemma {:induction false} WhereConcat<R>(a: seq<R>, b: seq<R>, keep: R -> bool)
    ensures Where(a + b, keep) == Where(a, keep) + Where(b, keep)
  {
    if a == [] {
      assert a + b == b;
    } else {
      WhereConcat(a[1..], b, keep);
      assert (a + b)[1..] == a[1..] + b;
    }
  }

  lemma {:induction false} WhereAll<R>(rows: seq<R>, keep: R -> bool)
    requires forall x | x in rows :: keep(x)
    ensures Where(rows, keep) == rows
  {
    if rows != [] {
      WhereAll(rows[1..], keep);
    }
  }

  lemma {:induction false} WhereNone<R>(rows: seq<R>, keep: R -> bool)
    requires forall x | x in rows :: !keep(x)
    ensures Where(rows, keep) == []
  {
    if rows != [] {
      WhereNone(rows[1..], keep);
    }
  }

  lemma {:induction false} InsertThenWhere<R(!new)>(lt: (R, R) -> bool, x: R, rows: seq<R>, keep: R -> bool)
    requires StrictOrder(lt) && Sorted(lt, rows)
    ensures Where(Insert(lt, x, rows), keep)
         == if keep(x) then Insert(lt, x, Where(rows, keep)) else Where(rows, keep)
  {
    if rows != [] {
      var tail := rows[1..];
      if lt(x, rows[0]) {
        if keep(x) {
          var kept := Where(rows, keep);
          WhereKeeps(rows, keep);
          assert kept != [] ==> lt(x, kept[0]) by {
            if kept != [] {
              assert kept[0] in kept;
              var j :| 0 <= j < |rows| && rows[j] == kept[0];
              assert j > 0 ==> lt(rows[0], rows[j]);
            }
          }
          assert ([x] + rows)[1..] == rows;
        } else {
          assert ([x] + rows)[1..] == rows;
        }
      } else {
        InsertThenWhere(lt, x, tail, keep);
        assert Insert(lt, x, rows)[1..] == Insert(lt, x, tail);
        if keep(rows[0]) {
          assert ([rows[0]] + Where(tail, keep))[1..] == Where(tail, keep);
        }
      }
    }
  }

  /** Filtering and sorting commute. */
  lemma {:induction false} WhereOrderBy<R(!new)>(lt: (R, R) -> bool, rows: seq<R>, keep: R -> bool)
    requires StrictOrder(lt) && Distinguishes(lt, rows)
    ensures OrderBy(lt, Where(rows, keep)) == Where(OrderBy(lt, rows), keep)
  {
    if rows != [] {
      WhereOrderBy(lt, rows[1..], keep);
      OrderBySorts(lt, rows[1..]);
      InsertThenWhere(lt, rows[0], OrderBy(lt, rows[1..]), keep);
      if keep(rows[0]) {
        assert Where(rows, keep)[0] == rows[0] && Where(rows, keep)[1..] == Where(rows[1..], keep);
      }
    }
  }

  // ---------- pages ----------

  /**
   `rows` are the rows that pass the base filters; `filter` turns a request's cursor into the
   extra WHERE condition; `totalFirst` tells whether COUNT(*) is taken before that condition.
   */
  datatype Pager<!R> = Pager(
    rows: seq<R>,
    lt: (R, R) -> bool,
    cursorOf: R -> string,
    filter: string -> Result<R -> bool>,
    totalFirst: bool)

  datatype Page<+R> = Page(rows: seq<R>, total: nat, next: Option<string>, hasMore: bool)

  /** The page cut from the sorted matching rows: LIMIT size + 1, then all but the last. */
  function Cut<R>(sorted: seq<R>, total: nat, size: nat, cursorOf: R -> string): Page<R> {
    if sorted == [] then Page([], 0, None, false)
    else if |sorted| <= size then Page(sorted, total, None, false)
    else Page(sorted[..size], total, if size > 0 then Some(cursorOf(sorted[size - 1])) else None, true)
  }

  /** How every endpoint turns the fetched rows (LIMIT size + 1) into its answer. */
  method CutPage<R>(sorted: seq<R>, total: nat, size: nat, cursorOf: R -> string) returns (page: Page<R>)
    ensures page == Cut(sorted, total, size, cursorOf)
  {
    var rows := if |sorted| > size + 1 then sorted[..size + 1] else sorted;
    if rows == [] {
      return Page([], 0, None, false);
    }
    var hasMore := |rows| > size;
    if hasMore {
      rows := rows[..size];
    }
    assert rows == if |sorted| > size then sorted[..size] else sorted;
    var items := [];
    for i := 0 to |rows|
      invariant items == rows[..i]
    {
      items := items + [rows[i]];
    }
    var next := None;
    if hasMore && items != [] {
      next := Some(cursorOf(items[|items| - 1]));
    }
    page := Page(items, total, next, hasMore);
  }

  function PageFor<R>(p: Pager<R>, keep: R -> bool, size: nat): Page<R> {
    var matching := Where(p.rows, keep);
    Cut(OrderBy(p.lt, matching), if p.totalFirst then |p.rows| else |matching|, size, p.cursorOf)
  }

  function AnyRow<R>(): R -> bool { _ => true }

  /** The answer to one request; an empty cursor counts as none. */
  function PageAt<R>(p: Pager<R>, cursor: string, size: nat): Result<Page<R>> {
    if cursor == "" then Ok(PageFor(p, AnyRow(), size))
    else
      match p.filter(cursor)
      case Ok(keep) => Ok(PageFor(p, keep, size))
      case InvalidCursor => InvalidCursor
      case Uncaught => Uncaught
  }

  /** The cursor condition of a row keeps exactly the rows that sort after it. */
  ghost predicate ResumesAfter<R>(p: Pager<R>, r: R) {
    && p.cursorOf(r) != ""
    && p.filter(p.cursorOf(r)).Ok?
    && forall x | x in p.rows :: p.filter(p.cursorOf(r)).value(x) == p.lt(r, x)
  }

  ghost predicate Lawful<R(!new)>(p: Pager<R>) {
    && StrictOrder(p.lt)
    && Distinguishes(p.lt, p.rows)
    && forall r | r in p.rows :: ResumesAfter(p, r)
  }

  function Listing<R>(p: Pager<R>): seq<R> { OrderBy(p.lt, p.rows) }

  lemma {:induction false} WhereSame<R>(rows: seq<R>, f: R -> bool, g: R -> bool)
    requires forall x | x in rows :: f(x) == g(x)
    ensures Where(rows, f) == Where(rows, g)
  {
    if rows != [] {
      WhereSame(rows[1..], f, g);
    }
  }

  lemma {:induction false} OrderBySize<R>(lt: (R, R) -> bool, rows: seq<R>)
    ensures |OrderBy(lt, rows)| == |rows|
  {
    if rows != [] {
      OrderBySize(lt, rows[1..]);
      InsertSize(lt, rows[0], OrderBy(lt, rows[1..]));
    }
  }

  lemma {:induction false} InsertSize<R>(lt: (R, R) -> bool, x: R, rows: seq<R>)
    ensures |Insert(lt, x, rows)| == |rows| + 1
  {
    if rows != [] {
      InsertSize(lt, x, rows[1..]);
    }
  }

  /** In a sorted list, keeping what comes after the k-th row leaves the rows after it. */
  lemma {:induction false} KeepAfter<R(!new)>(lt: (R, R) -> bool, all: seq<R>, k: nat, keep: R -> bool)
    requires StrictOrder(lt) && Sorted(lt, all) && k < |all|
    requires forall i | 0 <= i < |all| :: keep(all[i]) == lt(all[k], all[i])
    ensures Where(all, keep) == all[k + 1..]
    decreases k
  {
    var rest := all[1..];
    assert forall i | 0 <= i < |rest| :: rest[i] == all[i + 1];
    assert !keep(all[0]);
    if k == 0 {
      forall x | x in rest ensures keep(x) {
        var i :| 0 <= i < |rest| && rest[i] == x;
        assert lt(all[0], all[i + 1]);
      }
      WhereAll(rest, keep);
    } else {
      KeepAfter(lt, rest, k - 1, keep);
      assert rest[k..] == all[k + 1..];
    }
  }

  /** The cursor of the k-th row of the listing leaves the rows after it, in listing order. */
  lemma RowsAfter<R(!new)>(p: Pager<R>, k: nat)
    requires Lawful(p) && k < |Listing(p)|
    ensures var r := Listing(p)[k];
            && ResumesAfter(p, r)
            && OrderBy(p.lt, Where(p.rows, p.filter(p.cursorOf(r)).value)) == Listing(p)[k + 1..]
  {
    var all := Listing(p);
    var r := all[k];
    OrderBySorts(p.lt, p.rows);
    assert r in multiset(all);
    assert r in p.rows;
    var keep := p.filter(p.cursorOf(r)).value;
    WhereOrderBy(p.lt, p.rows, keep);
    forall x | x in all ensures keep(x) == p.lt(r, x) {
      assert x in multiset(all);
    }
    KeepAfter(p.lt, all, k, keep);
  }

  // ---------- following the cursors ----------

  /** The answers a client gets by following next_cursor, at most `fuel` of them. */
  function Follow<R>(ask: string -> Result<Page<R>>, cursor: string, fuel: nat): seq<Result<Page<R>>>
    decreases fuel
  {
    if fuel == 0 then []
    else
      var answer := ask(cursor);
      [answer] +
      if answer.Ok? && answer.value.hasMore && answer.value.next.Some?
      then Follow(ask, answer.value.next.value, fuel - 1) else []
  }

  /** A whole listing and how it is to be cut into pages. */
  datatype Book<!R> = Book(all: seq<R>, size: nat, totalFirst: bool, cursorOf: R -> string)

  predicate Bound<R>(b: Book<R>, k: nat) {
    b.size > 0 && (k == 0 || k < |b.all|)
  }

  /** The cursor that asks for the page starting at row `k`, and that page. */
  function CursorAt<R>(b: Book<R>, k: nat): string
    requires Bound(b, k)
  {
    if k == 0 then "" else b.cursorOf(b.all[k - 1])
  }

  function PageFrom<R>(b: Book<R>, k: nat): Page<R>
    requires Bound(b, k)
  {
    Cut(b.all[k..], if b.totalFirst then |b.all| else |b.all| - k, b.size, b.cursorOf)
  }

  /** The rows that pages start at, from row `k` of `n` on. */
  function Starts(k: nat, n: nat, size: nat): (r: seq<nat>)
    requires size > 0 && (k == 0 || k < n)
    ensures 1 <= |r| <= n - k + 1 && r[0] == k
    ensures forall i | 0 <= i < |r| :: r[i] == 0 || r[i] < n
    decreases n - k
  {
    [k] + if n - k <= size then [] else Starts(k + size, n, size)
  }

  /** The pages from row `k` on. */
  function Chunks<R>(b: Book<R>, k: nat): (r: seq<Result<Page<R>>>)
    requires Bound(b, k)
    ensures |r| == |Starts(k, |b.all|, b.size)|
    ensures forall i | 0 <= i < |r| :: r[i] == Ok(PageFrom(b, Starts(k, |b.all|, b.size)[i]))
  {
    var starts := Starts(k, |b.all|, b.size);
    seq(|starts|, i requires 0 <= i < |starts| => Ok(PageFrom(b, starts[i])))
  }

  /** A client that is handed these cursors one after the other gets these answers. */
  lemma {:induction false} FollowList<R>(ask: string -> Result<Page<R>>, cursors: seq<string>,
                                         answers: seq<Result<Page<R>>>, fuel: nat)
    requires 0 < |cursors| == |answers| <= fuel
    requires forall i | 0 <= i < |answers| :: answers[i].Ok? && ask(cursors[i]) == answers[i]
    requires forall i | 0 <= i < |answers| :: answers[i].value.hasMore == (i < |answers| - 1)
    requires forall i | 0 <= i < |answers| - 1 :: answers[i].value.next == Some(cursors[i + 1])
    ensures Follow(ask, cursors[0], fuel) == answers
    decreases fuel
  {
    assert answers == [answers[0]] + answers[1..];
    if |answers| > 1 {
      FollowList(ask, cursors[1..], answers[1..], fuel - 1);
    }
  }

  /** The cursors that ask for the pages of a book, one after the other. */
  function CursorsOf<R>(b: Book<R>): (r: seq<string>)
    requires Bound(b, 0)
    ensures |r| == |Starts(0, |b.all|, b.size)| && r[0] == ""
    ensures forall i | 0 <= i < |r| :: r[i] == CursorAt(b, Starts(0, |b.all|, b.size)[i])
  {
    var starts := Starts(0, |b.all|, b.size);
    seq(|starts|, i requires 0 <= i < |starts| => CursorAt(b, starts[i]))
  }

  lemma PagesLink<R>(b: Book<R>, i: nat)
    requires Bound(b, 0) && i < |Chunks(b, 0)|
    ensures Chunks(b, 0)[i].Ok?
    ensures Chunks(b, 0)[i].value.hasMore == (i < |Chunks(b, 0)| - 1)
    ensures i < |Chunks(b, 0)| - 1 ==> Chunks(b, 0)[i].value.next == Some(CursorsOf(b)[i + 1])
  {
    StartsStep(0, |b.all|, b.size, i);
    NextPage(b, Starts(0, |b.all|, b.size)[i]);
  }

  lemma FollowChunks<R>(ask: string -> Result<Page<R>>, b: Book<R>, fuel: nat)
    requires Bound(b, 0) && |b.all| < fuel
    requires forall j: nat | Bound(b, j) :: ask(CursorAt(b, j)) == Ok(PageFrom(b, j))
    ensures Follow(ask, "", fuel) == Chunks(b, 0)
  {
    var answers := Chunks(b, 0);
    forall i | 0 <= i < |answers|
      ensures answers[i].Ok? && answers[i].value.hasMore == (i < |answers| - 1)
      ensures i < |answers| - 1 ==> answers[i].value.next == Some(CursorsOf(b)[i + 1])
    {
      PagesLink(b, i);
    }
    FollowList(ask, CursorsOf(b), answers, fuel);
  }

  /** A page hands out a cursor exactly when rows are left, and it asks for the next page. */
  lemma NextPage<R>(b: Book<R>, k: nat)
    requires Bound(b, k)
    ensures PageFrom(b, k).hasMore == (|b.all| - k > b.size)
    ensures PageFrom(b, k).hasMore ==> PageFrom(b, k).next == Some(CursorAt(b, k + b.size))
  {
  }

  function Flatten<R>(answers: seq<Result<Page<R>>>): seq<R> {
    if answers == [] then []
    else (if answers[0].Ok? then answers[0].value.rows else []) + Flatten(answers[1..])
  }

  function PageRows<R>(all: seq<R>, k: nat, size: nat): seq<R>
    requires k == 0 || k < |all|
  {
    if |all| - k <= size then all[k..] else all[k..k + size]
  }

  /** These answers have the rows of the pages from row `k` on. */
  ghost predicate HasRows<R>(answers: seq<Result<Page<R>>>, all: seq<R>, k: nat, size: nat) {
    && size > 0 && (k == 0 || k < |all|) && |answers| == |Starts(k, |all|, size)|
    && forall i | 0 <= i < |answers| ::
         answers[i].Ok? && answers[i].value.rows == PageRows(all, Starts(k, |all|, size)[i], size)
  }

  lemma HasRowsTail<R>(answers: seq<Result<Page<R>>>, all: seq<R>, k: nat, size: nat)
    requires HasRows(answers, all, k, size) && |all| - k > size
    ensures HasRows(answers[1..], all, k + size, size)
  {
    var more := answers[1..];
    forall i | 0 <= i < |more|
      ensures more[i].Ok? && more[i].value.rows == PageRows(all, Starts(k + size, |all|, size)[i], size)
    {
      assert more[i] == answers[i + 1] && Starts(k, |all|, size)[i + 1] == Starts(k + size, |all|, size)[i];
    }
  }

  lemma PageRowsJoin<R>(all: seq<R>, k: nat, size: nat)
    requires k == 0 || k < |all|
    ensures all[k..] == PageRows(all, k, size) + if |all| - k > size then all[k + size..] else []
  {
  }

  lemma FlattenStep<R>(answers: seq<Result<Page<R>>>, rows: seq<R>)
    requires answers != [] && answers[0].Ok? && answers[0].value.rows == rows
    ensures Flatten(answers) == rows + Flatten(answers[1..])
  {
  }

  lemma LastPage<R>(answers: seq<Result<Page<R>>>, all: seq<R>, k: nat, size: nat)
    requires HasRows(answers, all, k, size) && |all| - k <= size
    ensures |answers| == 1 && answers[1..] == []
  {
  }

  lemma {:induction false} FlattenSlices<R>(answers: seq<Result<Page<R>>>, all: seq<R>, k: nat, size: nat)
    requires HasRows(answers, all, k, size)
    ensures Flatten(answers) == all[k..]
    decreases |answers|
  {
    FlattenStep(answers, PageRows(all, k, size));
    PageRowsJoin(all, k, size);
    if |all| - k > size {
      HasRowsTail(answers, all, k, size);
      FlattenSlices(answers[1..], all, k + size, size);
    } else {
      LastPage(answers, all, k, size);
    }
  }

  lemma PageFromRows<R>(b: Book<R>, k: nat)
    requires Bound(b, k)
    ensures PageFrom(b, k).rows == PageRows(b.all, k, b.size)
  {
  }

  /** Every row exactly once, in listing order. */
  lemma ChunksFlatten<R>(b: Book<R>, k: nat)
    requires Bound(b, k)
    ensures Flatten(Chunks(b, k)) == b.all[k..]
  {
    var answers := Chunks(b, k);
    forall i | 0 <= i < |answers|
      ensures answers[i].value.rows == PageRows(b.all, Starts(k, |b.all|, b.size)[i], b.size)
    {
      PageFromRows(b, Starts(k, |b.all|, b.size)[i]);
    }
    FlattenSlices(answers, b.all, k, b.size);
  }

  lemma OneMorePage(n: nat, c: nat, size: nat)
    requires n > size && 1 <= c && (c - 1) * size < n - size <= c * size
    ensures c * size < n <= (c + 1) * size
  {
    assert (c + 1) * size == c * size + size && c * size == (c - 1) * size + size;
  }

  /** max(1, ceil(n / size)) pages. */
  lemma {:induction false} StartsCount(k: nat, n: nat, size: nat)
    requires size > 0 && (k == 0 || k < n)
    ensures var left, c := n - k, |Starts(k, n, size)|;
            1 <= c && if left == 0 then c == 1 else (c - 1) * size < left <= c * size
    decreases n - k
  {
    if n - k > size {
      StartsCount(k + size, n, size);
      OneMorePage(n - k, |Starts(k + size, n, size)|, size);
    }
  }

  lemma {:induction false} StartsStep(k: nat, n: nat, size: nat, i: nat)
    requires size > 0 && (k == 0 || k < n) && i < |Starts(k, n, size)|
    ensures i < |Starts(k, n, size)| - 1 <==> n - Starts(k, n, size)[i] > size
    ensures i < |Starts(k, n, size)| - 1 ==> Starts(k, n, size)[i + 1] == Starts(k, n, size)[i] + size
    decreases i
  {
    if i > 0 {
      StartsStep(k + size, n, size, i - 1);
    }
  }

  lemma {:induction false} StartsAt(k: nat, n: nat, size: nat, i: nat)
    requires size > 0 && (k == 0 || k < n) && i < |Starts(k, n, size)|
    ensures Starts(k, n, size)[i] == k + i * size
    decreases i
  {
    if i > 0 {
      StartsAt(k, n, size, i - 1);
      StartsStep(k, n, size, i - 1);
      OneMoreSize(i, size);
    }
  }

  lemma OneMoreSize(i: nat, size: nat)
    requires i > 0
    ensures i * size == (i - 1) * size + size
  {
  }

  /**
   A total counted before the cursor condition is the same on every page; counted after it,
   it is the number of rows from that page on.
   */
  lemma ChunkTotals<R>(b: Book<R>, k: nat, i: nat)
    requires Bound(b, k) && k < |b.all| && i < |Chunks(b, k)|
    ensures k + i * b.size < |b.all|
    ensures Chunks(b, k)[i].Ok?
    ensures var page := Chunks(b, k)[i].value;
            && page.total == (if b.totalFirst then |b.all| else |b.all| - (k + i * b.size))
            && page.hasMore == (i < |Chunks(b, k)| - 1)
  {
    StartsAt(k, |b.all|, b.size, i);
    StartsStep(k, |b.all|, b.size, i);
    NextPage(b, Starts(k, |b.all|, b.size)[i]);
  }

  function BookOf<R>(p: Pager<R>, size: nat): Book<R> {
    Book(Listing(p), size, p.totalFirst, p.cursorOf)
  }

  /** One page of a lawful endpoint, from row `k` of its listing. */
  lemma PageIsNext<R(!new)>(p: Pager<R>, k: nat, size: nat)
    requires Lawful(p) && Bound(BookOf(p, size), k)
    ensures PageAt(p, CursorAt(BookOf(p, size), k), size) == Ok(PageFrom(BookOf(p, size), k))
  {
    var all := Listing(p);
    OrderBySize(p.lt, p.rows);
    if k == 0 {
      WhereAll(p.rows, AnyRow());
      assert all[0..] == all;
    } else {
      RowsAfter(p, k - 1);
      OrderBySize(p.lt, Where(p.rows, p.filter(p.cursorOf(all[k - 1])).value));
    }
  }

  /** The whole walk of an endpoint. */
  function Walk<R>(p: Pager<R>, size: nat, fuel: nat): seq<Result<Page<R>>> {
    Follow(Asking(p, size), "", fuel)
  }

  function Asking<R>(p: Pager<R>, size: nat): string -> Result<Page<R>> { cursor => PageAt(p, cursor, size) }

  lemma WalkIsChunks<R(!new)>(p: Pager<R>, size: nat, fuel: nat)
    requires Lawful(p) && size > 0 && |p.rows| < fuel
    ensures Walk(p, size, fuel) == Chunks(BookOf(p, size), 0)
    ensures |Listing(p)| == |p.rows|
  {
    var b := BookOf(p, size);
    OrderBySize(p.lt, p.rows);
    var ask := Asking(p, size);
    forall j: nat | Bound(b, j) ensures ask(CursorAt(b, j)) == Ok(PageFrom(b, j)) {
      PageIsNext(p, j, size);
    }
    FollowChunks(ask, b, fuel);
  }

  /**
   Following next_cursor until has_more is false lists every matching row exactly once, in
   order, in max(1, ceil(n / size)) pages.
   */
  lemma WalkIsListing<R(!new)>(p: Pager<R>, size: nat, fuel: nat)
    requires Lawful(p) && size > 0 && |p.rows| < fuel
    ensures Walk(p, size, fuel) == Chunks(BookOf(p, size), 0)
    ensures Flatten(Walk(p, size, fuel)) == Listing(p)
    ensures var c := |Walk(p, size, fuel)|;
            1 <= c && if p.rows == [] then c == 1 else (c - 1) * size < |p.rows| <= c * size
  {
    WalkIsChunks(p, size, fuel);
    ChunksFlatten(BookOf(p, size), 0);
    StartsCount(0, |p.rows|, size);
  }

  lemma WalkTotals<R(!new)>(p: Pager<R>, size: nat, i: nat)
    requires Lawful(p) && size > 0 && p.rows != [] && i < |Walk(p, size, |p.rows| + 1)|
    ensures TotalIs(p, size, Walk(p, size, |p.rows| + 1), i)
  {
    WalkIsChunks(p, size, |p.rows| + 1);
    ChunkTotals(BookOf(p, size), 0, i);
  }

  /**
   A total counted before the cursor condition is the same on every page; one counted after it
   is the number of rows from that page on.
   */
  ghost predicate TotalIs<R>(p: Pager<R>, size: nat, answers: seq<Result<Page<R>>>, i: nat)
    requires i < |answers|
  {
    && answers[i].Ok?
    && answers[i].value.total == (if p.totalFirst then |p.rows| else |p.rows| - i * size)
    && answers[i].value.hasMore == (i < |answers| - 1)
  }

  /** max(1, ceil(n / size)). */
  ghost predicate FewestPages(c: nat, n: nat, size: nat) {
    1 <= c && if n == 0 then c == 1 else (c - 1) * size < n <= c * size
  }

  /** What every walk does: each matching row once, in order, in as few pages as fit, with its totals. */
  ghost predicate WalksListing<R>(p: Pager<R>, size: nat) {
    var answers := Walk(p, size, |p.rows| + 1);
    && Sorted(p.lt, Flatten(answers))
    && multiset(Flatten(answers)) == multiset(p.rows)
    && FewestPages(|answers|, |p.rows|, size)
    && (p.rows != [] ==> forall i | 0 <= i < |answers| :: TotalIs(p, size, answers, i))
    && (p.rows == [] ==> answers == [Ok(Page([], 0, None, false))])
  }

  lemma WalkRows<R(!new)>(p: Pager<R>, size: nat)
    requires Lawful(p) && size > 0
    ensures var answers := Walk(p, size, |p.rows| + 1);
            && Sorted(p.lt, Flatten(answers))
            && multiset(Flatten(answers)) == multiset(p.rows)
  {
    WalkIsListing(p, size, |p.rows| + 1);
    OrderBySorts(p.lt, p.rows);
  }

  lemma WalkPages<R(!new)>(p: Pager<R>, size: nat)
    requires Lawful(p) && size > 0
    ensures FewestPages(|Walk(p, size, |p.rows| + 1)|, |p.rows|, size)
  {
    WalkIsListing(p, size, |p.rows| + 1);
  }

  /** Nothing to list: one page without rows, total 0, no cursor. */
  lemma EmptyWalk<R>(p: Pager<R>, size: nat)
    requires p.rows == []
    ensures Walk(p, size, 1) == [Ok(Page([], 0, None, false))]
  {
    assert Where(p.rows, AnyRow()) == [] && OrderBy(p.lt, []) == [];
    assert Asking(p, size)("") == Ok(Page([], 0, None, false));
    assert Follow(Asking(p, size), "", 1) == [Asking(p, size)("")] + [];
  }

  /** The rows of a walk are the rows of the table that pass the filter, and it goes up in the order. */
  lemma WalkedRows<R(!new)>(p: Pager<R>, size: nat, rows: seq<R>, keep: R -> bool)
    requires WalksListing(p, size) && p.rows == Where(rows, keep)
    ensures var walked := Flatten(Walk(p, size, |p.rows| + 1));
            Sorted(p.lt, walked) && forall x :: x in walked <==> x in rows && keep(x)
  {
    var walked := Flatten(Walk(p, size, |p.rows| + 1));
    forall x ensures x in walked <==> x in rows && keep(x) {
      assert x in walked <==> x in multiset(walked);
      assert x in p.rows <==> x in multiset(p.rows);
      if x in p.rows {
        WhereKeeps(rows, keep);
      }
      if x in rows && keep(x) {
        WhereHas(rows, keep, x);
      }
    }
  }

  lemma LawfulWalks<R(!new)>(p: Pager<R>, size: nat)
    requires Lawful(p) && size > 0
    ensures WalksListing(p, size)
  {
    var answers := Walk(p, size, |p.rows| + 1);
    WalkRows(p, size);
    WalkPages(p, size);
    forall i | 0 <= i < |answers| && p.rows != [] ensures TotalIs(p, size, answers, i) {
      WalkTotals(p, size, i);
    }
    if p.rows == [] {
      EmptyWalk(p, size);
    }
  }
}
