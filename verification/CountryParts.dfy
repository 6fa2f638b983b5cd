/**
 Which part of a country string is looked up, in which table and in which order, said without the
 list of candidates: codes, the whole name, parentheses, a trailing article, pieces, words.
 */
module CountryParts {
  import opened Country
  import opened Options
  import opened Text

  /** The tables have an answer for this text: native names first, then the folded variants. */
  ghost predicate Says(d: Data, part: string, iso: string) {
    var c := Strip(d.space, part);
    && c != ""
    && (d.lower(c) in d.native ==> iso == d.native[d.lower(c)])
    && (d.lower(c) !in d.native ==> d.fold(c) in d.variants && iso == d.variants[d.fold(c)])
  }

  ghost predicate Unknown(d: Data, part: string) {
    var c := Strip(d.space, part);
    c == "" || (d.lower(c) !in d.native && d.fold(c) !in d.variants)
  }

  /** Text of two or three ASCII letters is read as a code, never as a name. */
  predicate CodeLike(s: string) {
    (|s| == 2 || |s| == 3) && forall c | c in s :: 'A' <= c <= 'Z' || 'a' <= c <= 'z'
  }

  lemma HitSays(d: Data, part: string)
    ensures Unknown(d, part) <==> Hit(d, part).None?
    ensures Hit(d, part).Some? ==> Says(d, part, Hit(d, part).value)
    ensures forall iso | Says(d, part, iso) :: Hit(d, part) == Some(iso)
  {
  }

  /** The value is a name: not empty and not a code. */
  ghost predicate IsName(d: Data, raw: string, value: string) {
    value == Strip(d.space, raw) && value != "" && !CodeLike(value)
  }

  lemma NameIsLookedUp(d: Data, raw: string, value: string)
    requires IsName(d, raw, value)
    ensures Resolve(d, raw) == FirstHit(d, Candidates(d, value))
  {
    assert forall i | 0 <= i < |value| :: value[i] in value;
    assert Letters(value) && (|value| == 2 || |value| == 3) ==> CodeLike(value) by {
      if Letters(value) {
        forall c | c in value ensures Letter(c) {
          var i :| 0 <= i < |value| && value[i] == c;
        }
      }
    }
  }

  /** The first candidate the tables know gives the answer. */
  lemma {:induction false} KnownAt(d: Data, cs: seq<string>, k: nat, iso: string)
    requires k < |cs| && Says(d, cs[k], iso) && forall i | 0 <= i < k :: Unknown(d, cs[i])
    ensures FirstHit(d, cs) == Some(iso)
  {
    HitSays(d, cs[0]);
    if k > 0 {
      assert forall i | 0 <= i < k - 1 :: cs[1..][i] == cs[i + 1];
      KnownAt(d, cs[1..], k - 1, iso);
    }
  }

  /** A code: two letters stand for themselves, three are looked up in the table of codes and nowhere else. */
  lemma CodesResolve(d: Data, raw: string, value: string)
    requires value == Strip(d.space, raw) && CodeLike(value)
    ensures var upper := Upper(value);
            Resolve(d, raw) == if |value| == 2 then Some(upper)
                               else if upper in d.iso3 then Some(d.iso3[upper]) else None
    ensures |Upper(value)| == |value| && forall i | 0 <= i < |value| ::
              && 'A' <= Upper(value)[i] <= 'Z'
              && (Upper(value)[i] == value[i] || Upper(value)[i] as int + 32 == value[i] as int)
  {
    assert forall i | 0 <= i < |value| :: value[i] in value;
  }

  /** The whole name comes first. */
  lemma NameResolves(d: Data, raw: string, value: string, iso: string)
    requires IsName(d, raw, value) && Says(d, value, iso)
    ensures Resolve(d, raw) == Some(iso)
  {
    NameIsLookedUp(d, raw, value);
    KnownAt(d, Candidates(d, value), 0, iso);
  }

  lemma LastOpening(outer: string, inner: string)
    requires '(' !in inner
    ensures var s := outer + "(" + inner + ")";
            Parenthesised(s) == [inner, outer]
  {
    var s := outer + "(" + inner + ")";
    assert s[|s| - 1] == ')' && s[|outer|] == '(';
    assert forall i | |outer| < i < |s| :: s[i] != '(' by {
      forall i | |outer| < i < |s| ensures s[i] != '(' {
        if i < |s| - 1 {
          assert s[i] == inner[i - |outer| - 1] && s[i] in inner;
        }
      }
    }
    assert '(' in s;
    assert LastIndex(s, '(') == Some(|outer|);
    assert s[|outer| + 1..|s| - 1] == inner && s[..|outer|] == outer;
  }

  /** "Name (Native)": what the parentheses hold comes before what stands outside. */
  lemma ParenthesesResolve(d: Data, raw: string, outer: string, inner: string, iso: string)
    requires IsName(d, raw, outer + "(" + inner + ")") && '(' !in inner && Unknown(d, outer + "(" + inner + ")")
    ensures Says(d, inner, iso) ==> Resolve(d, raw) == Some(iso)
    ensures Unknown(d, inner) && Says(d, outer, iso) ==> Resolve(d, raw) == Some(iso)
  {
    var value := outer + "(" + inner + ")";
    var cs := Candidates(d, value);
    NameIsLookedUp(d, raw, value);
    LastOpening(outer, inner);
    assert cs[0] == value && cs[1] == inner && cs[2] == outer;
    if Says(d, inner, iso) {
      KnownAt(d, cs, 1, iso);
    } else if Unknown(d, inner) && Says(d, outer, iso) {
      KnownAt(d, cs, 2, iso);
    }
  }

  /** "Name, the": the article is dropped. */
  lemma ArticleResolves(d: Data, raw: string, base: string, article: string, iso: string)
    requires IsName(d, raw, base + article) && |article| == 5 && EndsWith(d.lower(base + article), ", the")
    requires article[4] != ')' && Unknown(d, base + article) && Says(d, base, iso)
    ensures Resolve(d, raw) == Some(iso)
  {
    var value := base + article;
    NameIsLookedUp(d, raw, value);
    assert value[|value| - 1] == article[4] && value[..|value| - 5] == base;
    assert Parenthesised(value) == [] && WithoutArticle(d, value) == [base];
    var cs := Candidates(d, value);
    assert cs[0] == value && cs[1] == base;
    KnownAt(d, cs, 1, iso);
  }

  // ---------- pieces ----------

  predicate OccursAt(s: string, sep: string, i: nat) { i + |sep| <= |s| && s[i..i + |sep|] == sep }

  ghost predicate Occurs(s: string, sep: string) { exists i: nat :: OccursAt(s, sep, i) }

  lemma OccursLater(s: string, sep: string, i: nat)
    requires s != "" && i > 0
    ensures OccursAt(s, sep, i) <==> OccursAt(s[1..], sep, i - 1)
  {
    if i + |sep| <= |s| {
      assert s[i..i + |sep|] == s[1..][i - 1..i - 1 + |sep|];
    }
  }

  lemma {:induction false} FindTextIsFirst(s: string, sep: string)
    ensures FindText(s, sep).Some? <==> Occurs(s, sep)
    ensures FindText(s, sep).Some? ==> forall i: nat | i < FindText(s, sep).value :: !OccursAt(s, sep, i)
  {
    if |s| >= |sep| && s[..|sep|] == sep {
      assert s[..|sep|] == s[0..0 + |sep|];
      assert OccursAt(s, sep, 0);
    } else if |s| >= |sep| && s != "" {
      FindTextIsFirst(s[1..], sep);
      assert !OccursAt(s, sep, 0) by {
        assert s[..|sep|] == s[0..0 + |sep|];
      }
      forall i: nat | i > 0 ensures OccursAt(s, sep, i) <==> OccursAt(s[1..], sep, i - 1) {
        OccursLater(s, sep, i);
      }
      if Occurs(s[1..], sep) {
        var i: nat :| OccursAt(s[1..], sep, i);
        assert OccursAt(s, sep, i + 1);
      }
      if Occurs(s, sep) {
        var i: nat :| OccursAt(s, sep, i);
        assert OccursAt(s[1..], sep, i - 1);
      }
    }
  }

  function Join(pieces: seq<string>, sep: string): string
    requires pieces != []
  {
    if |pieces| == 1 then pieces[0] else pieces[0] + sep + Join(pieces[1..], sep)
  }

  /** Cutting at each occurrence of the separator, from the left, and nowhere else. */
  lemma {:induction false} SplitJoins(s: string, sep: string)
    requires sep != ""
    ensures Split(s, sep) != [] && Join(Split(s, sep), sep) == s
    ensures forall piece | piece in Split(s, sep) :: !Occurs(piece, sep)
    decreases |s|
  {
    FindTextIsFirst(s, sep);
    match FindText(s, sep) {
      case None =>
        assert Split(s, sep) == [s];
      case Some(i) =>
        SplitJoins(s[i + |sep|..], sep);
        SplitStep(s, sep, i);
    }
  }

  lemma CutAt(s: string, sep: string, i: nat)
    requires i + |sep| <= |s| && s[i..i + |sep|] == sep
    ensures s == s[..i] + sep + s[i + |sep|..]
  {
  }

  lemma NoneBefore(s: string, sep: string, i: nat)
    requires i <= |s| && forall j: nat | j < i :: !OccursAt(s, sep, j)
    requires sep != ""
    ensures !Occurs(s[..i], sep)
  {
    if Occurs(s[..i], sep) {
      var j: nat :| OccursAt(s[..i], sep, j);
      assert s[..i][j..j + |sep|] == s[j..j + |sep|];
      assert OccursAt(s, sep, j);
    }
  }

  lemma SplitStep(s: string, sep: string, i: nat)
    requires sep != "" && FindText(s, sep) == Some(i) && forall j: nat | j < i :: !OccursAt(s, sep, j)
    requires Split(s[i + |sep|..], sep) != [] && Join(Split(s[i + |sep|..], sep), sep) == s[i + |sep|..]
    ensures Split(s, sep) == [s[..i]] + Split(s[i + |sep|..], sep) && Join(Split(s, sep), sep) == s
    ensures !Occurs(s[..i], sep)
  {
    assert Split(s, sep)[1..] == Split(s[i + |sep|..], sep);
    CutAt(s, sep, i);
    NoneBefore(s, sep, i);
  }

  /** The value has neither parentheses at its end nor an article. */
  ghost predicate PlainEnd(d: Data, value: string) {
    value != "" && value[|value| - 1] != ')' && !EndsWith(d.lower(value), ", the")
  }

  /** The separators are tried in this order. */
  ghost predicate CutBy(value: string, sep: string) {
    && sep in {" / ", " - ", "/"} && Occurs(value, sep)
    && (sep != " / " ==> !Occurs(value, " / "))
    && (sep == "/" ==> !Occurs(value, " - "))
  }

  function LastWords(d: Data, value: string): seq<string> {
    if ' ' in value then LongestFirst(Words(d.space, value)) else []
  }

  lemma PlainCandidates(d: Data, value: string)
    requires PlainEnd(d, value)
    ensures var a, b, c := Pieces(value, " / "), Pieces(value, " - "), Pieces(value, "/");
            Candidates(d, value) == [value] + (a + (b + (c + LastWords(d, value))))
  {
    assert Parenthesised(value) == [] && WithoutArticle(d, value) == [];
    Flattened([value], Pieces(value, " / "), Pieces(value, " - "), Pieces(value, "/"), LastWords(d, value));
  }

  lemma Flattened(v: seq<string>, a: seq<string>, b: seq<string>, c: seq<string>, w: seq<string>)
    ensures v + [] + [] + a + b + c + w == v + (a + (b + (c + w)))
  {
  }

  lemma NoPieces(value: string, sep: string)
    requires sep != ""
    ensures Pieces(value, sep) == if Occurs(value, sep) then Split(value, sep) else []
  {
    FindTextIsFirst(value, sep);
  }

  lemma PiecesFirst(d: Data, value: string, sep: string) returns (more: seq<string>)
    requires PlainEnd(d, value) && CutBy(value, sep)
    ensures Candidates(d, value) == [value] + Split(value, sep) + more
  {
    PlainCandidates(d, value);
    NoPieces(value, " / ");
    NoPieces(value, " - ");
    NoPieces(value, "/");
    var a, b, c, words := Pieces(value, " / "), Pieces(value, " - "), Pieces(value, "/"), LastWords(d, value);
    if sep == " / " {
      more := b + (c + words);
      Joined([value], a, more);
    } else if sep == " - " {
      more := c + words;
      Joined([value], b, more);
      Joined([value], a, b + more);
    } else {
      more := words;
      Joined([value], c, more);
      Joined([value], b, c + more);
      Joined([value], a, b + (c + more));
    }
  }

  lemma Joined(v: seq<string>, a: seq<string>, more: seq<string>)
    ensures v + a + more == v + (a + more) && [] + more == more
  {
  }

  /** Of the pieces between separators the first known one counts. */
  lemma PiecesResolve(d: Data, raw: string, value: string, sep: string, k: nat, iso: string)
    requires IsName(d, raw, value) && PlainEnd(d, value) && CutBy(value, sep) && Unknown(d, value)
    requires k < |Split(value, sep)| && Says(d, Split(value, sep)[k], iso)
    requires forall i | 0 <= i < k :: Unknown(d, Split(value, sep)[i])
    ensures Resolve(d, raw) == Some(iso)
  {
    var cs, pieces := Candidates(d, value), Split(value, sep);
    NameIsLookedUp(d, raw, value);
    var more := PiecesFirst(d, value, sep);
    KnownAmong(d, value, pieces, more, k, iso);
  }

  lemma KnownAmong(d: Data, value: string, parts: seq<string>, more: seq<string>, k: nat, iso: string)
    requires Unknown(d, value) && k < |parts| && Says(d, parts[k], iso)
    requires forall i | 0 <= i < k :: Unknown(d, parts[i])
    ensures FirstHit(d, [value] + parts + more) == Some(iso)
  {
    var cs := [value] + parts + more;
    assert cs[k + 1] == parts[k];
    forall i | 0 <= i < k + 1 ensures Unknown(d, cs[i]) {
      assert cs[i] == if i == 0 then value else parts[i - 1];
    }
    KnownAt(d, cs, k + 1, iso);
  }

  // ---------- words ----------

  /** A longest stretch without space, of more than one character. */
  ghost predicate IsWord(space: char -> bool, s: string, i: nat, j: nat) {
    && i + 1 < j <= |s| && (forall k | i <= k < j :: !space(s[k]))
    && (i == 0 || space(s[i - 1])) && (j == |s| || space(s[j]))
  }

  lemma {:induction false} WordEndIsEnd(space: char -> bool, s: string, n: nat)
    requires n <= |s|
    ensures var m := n + WordEnd(space, s[n..]);
            (forall k | n <= k < m :: !space(s[k])) && (m == |s| || space(s[m]))
    decreases |s| - n
  {
    if n < |s| && !space(s[n]) {
      assert s[n..][1..] == s[n + 1..];
      WordEndIsEnd(space, s, n + 1);
    }
  }

  ghost predicate WordFrom(space: char -> bool, s: string, n: nat, w: string) {
    exists i: nat, j: nat :: n <= i && IsWord(space, s, i, j) && s[i..j] == w
  }

  /** Exactly the words of the text are words. */
  lemma {:induction false} WordsAre(space: char -> bool, s: string, n: nat, w: string)
    requires n <= |s| && (n == 0 || n == |s| || space(s[n]) || space(s[n - 1]))
    ensures w in Words(space, s[n..]) <==> WordFrom(space, s, n, w)
    decreases |s| - n
  {
    if n < |s| {
      if space(s[n]) {
        assert s[n..][1..] == s[n + 1..];
        WordsAre(space, s, n + 1, w);
        assert WordFrom(space, s, n, w) <==> WordFrom(space, s, n + 1, w);
      } else {
        var m := n + WordEnd(space, s[n..]);
        WordEndIsEnd(space, s, n);
        WordsStep(space, s, n);
        WordsAre(space, s, m, w);
        WordAt(space, s, n, m, w);
      }
    }
  }

  lemma WordsStep(space: char -> bool, s: string, n: nat)
    requires n < |s| && !space(s[n])
    ensures var m := n + WordEnd(space, s[n..]);
            m <= |s| && Words(space, s[n..]) == (if m - n > 1 then [s[n..m]] else []) + Words(space, s[m..])
  {
    var m := n + WordEnd(space, s[n..]);
    assert s[n..][m - n..] == s[m..] && s[n..][..m - n] == s[n..m];
  }

  lemma WordAt(space: char -> bool, s: string, n: nat, m: nat, w: string)
    requires n < m <= |s| && (forall k | n <= k < m :: !space(s[k])) && (m == |s| || space(s[m]))
    requires n == 0 || space(s[n - 1])
    ensures WordFrom(space, s, n, w) <==> (m - n > 1 && w == s[n..m]) || WordFrom(space, s, m, w)
  {
    if m - n > 1 && w == s[n..m] {
      assert IsWord(space, s, n, m);
    }
    if WordFrom(space, s, n, w) && !WordFrom(space, s, m, w) {
      var i: nat, j: nat :| n <= i && IsWord(space, s, i, j) && s[i..j] == w;
      assert i == n || i >= m;
      assert j == m;
    }
  }

  lemma OnlyWords(d: Data, value: string)
    requires PlainEnd(d, value) && !Occurs(value, " / ") && !Occurs(value, " - ") && !Occurs(value, "/")
    ensures Candidates(d, value) == [value] + LastWords(d, value) + []
  {
    PlainCandidates(d, value);
    NoPieces(value, " / ");
    NoPieces(value, " - ");
    NoPieces(value, "/");
  }

  /** Nothing else being known, the longest known word counts. */
  lemma WordsResolve(d: Data, raw: string, value: string, w: string, iso: string)
    requires IsName(d, raw, value) && PlainEnd(d, value) && Unknown(d, value) && ' ' in value
    requires !Occurs(value, " / ") && !Occurs(value, " - ") && !Occurs(value, "/")
    requires WordFrom(d.space, value, 0, w) && Says(d, w, iso)
    requires forall v | WordFrom(d.space, value, 0, v) && v != w && |v| >= |w| :: Unknown(d, v)
    ensures Resolve(d, raw) == Some(iso)
  {
    var words := LastWords(d, value);
    NameIsLookedUp(d, raw, value);
    OnlyWords(d, value);
    assert value[0..] == value;
    forall v ensures v in words <==> WordFrom(d.space, value, 0, v) {
      WordsAre(d.space, value, 0, v);
    }
    var k := FirstIndex(words, w);
    KnownAmong(d, value, words, [], k, iso);
  }

  function FirstIndex(ws: seq<string>, w: string): (k: nat)
    requires w in ws
    ensures k < |ws| && ws[k] == w && forall i | 0 <= i < k :: ws[i] != w
  {
    if ws[0] == w then 0 else 1 + FirstIndex(ws[1..], w)
  }
}
