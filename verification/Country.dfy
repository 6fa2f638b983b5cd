/**
 Resolution of a raw country string to ISO 3166-1 alpha-2: two or three letters directly, anything
 else by the first of a list of candidate parts that the variant tables know.

 The tables are arbitrary, and so are the Unicode notions of white space, lower case and folding.
 */
module Country {
  import opened Options
  import opened Text

  datatype Data = Data(
    iso3: map<string, string>,
    native: map<string, string>,
    variants: map<string, string>,
    space: char -> bool,
    lower: string -> string,
    fold: string -> string)

  predicate Letter(c: char) { 'A' <= c <= 'Z' || 'a' <= c <= 'z' }

  predicate Letters(s: string) { forall i | 0 <= i < |s| :: Letter(s[i]) }

  predicate IsIso2(s: string) { |s| == 2 && forall i | 0 <= i < 2 :: 'A' <= s[i] <= 'Z' }

  ghost predicate ValidData(d: Data) {
    && (forall k | k in d.iso3 :: IsIso2(d.iso3[k]))
    && (forall k | k in d.native :: IsIso2(d.native[k]))
    && (forall k | k in d.variants :: IsIso2(d.variants[k]))
    && (forall c | Letter(c) :: !d.space(c))
  }

  // ---------- text ----------

  function UpperChar(c: char): char {
    if 'a' <= c <= 'z' then (c as int - 'a' as int + 'A' as int) as char else c
  }

  function Upper(s: string): (r: string)
    ensures |r| == |s| && forall i | 0 <= i < |s| :: r[i] == UpperChar(s[i])
  {
    seq(|s|, i requires 0 <= i < |s| => UpperChar(s[i]))
  }

  /** Where `sep` first occurs. */
  function FindText(s: string, sep: string): (r: Option<nat>)
    ensures r.Some? ==> r.value + |sep| <= |s| && s[r.value..r.value + |sep|] == sep
  {
    if |s| < |sep| then None
    else if s[..|sep|] == sep then Some(0)
    else if s == "" then None
    else
      match FindText(s[1..], sep)
      case None => None
      case Some(i) =>
        assert s[1..][i..i + |sep|] == s[i + 1..i + 1 + |sep|];
        Some(i + 1)
  }

  function Split(s: string, sep: string): seq<string>
    requires sep != ""
    decreases |s|
  {
    match FindText(s, sep)
    case None => [s]
    case Some(i) => [s[..i]] + Split(s[i + |sep|..], sep)
  }

  function WordEnd(space: char -> bool, s: string): (n: nat)
    ensures n <= |s| && (s != "" && !space(s[0]) ==> n > 0)
  {
    if s == "" || space(s[0]) then 0 else 1 + WordEnd(space, s[1..])
  }

  /** The words of more than one character. */
  function Words(space: char -> bool, s: string): seq<string>
    decreases |s|
  {
    if s == "" then []
    else if space(s[0]) then Words(space, s[1..])
    else
      var n := WordEnd(space, s);
      (if n > 1 then [s[..n]] else []) + Words(space, s[n..])
  }

  predicate ByLength(ws: seq<string>) { forall i, j | 0 <= i < j < |ws| :: |ws[i]| >= |ws[j]| }

  function InsertByLength(w: string, ws: seq<string>): (r: seq<string>)
    ensures forall v :: v in r <==> v == w || v in ws
    ensures ByLength(ws) ==> ByLength(r)
  {
    if ws == [] || |ws[0]| <= |w| then [w] + ws
    else
      assert forall v :: v in ws <==> v == ws[0] || v in ws[1..];
      var rest := InsertByLength(w, ws[1..]);
      assert forall i | 0 <= i < |rest| :: rest[i] == w || rest[i] in ws[1..];
      [ws[0]] + rest
  }

  /** Longest first, and otherwise in the order given. */
  function LongestFirst(ws: seq<string>): (r: seq<string>)
    ensures forall v :: v in r <==> v in ws
    ensures ByLength(r)
  {
    if ws == [] then []
    else
      assert forall v :: v in ws <==> v == ws[0] || v in ws[1..];
      InsertByLength(ws[0], LongestFirst(ws[1..]))
  }

  function OfLength(ws: seq<string>, n: nat): seq<string> {
    if ws == [] then [] else (if |ws[0]| == n then [ws[0]] else []) + OfLength(ws[1..], n)
  }

  lemma {:induction false} InsertIsStable(w: string, ws: seq<string>, n: nat)
    ensures OfLength(InsertByLength(w, ws), n) == (if |w| == n then [w] else []) + OfLength(ws, n)
  {
    if !(ws == [] || |ws[0]| <= |w|) {
      InsertIsStable(w, ws[1..], n);
    }
  }

  /** Words of one length keep their order, and their number. */
  lemma {:induction false} LongestFirstIsStable(ws: seq<string>, n: nat)
    ensures OfLength(LongestFirst(ws), n) == OfLength(ws, n)
  {
    if ws != [] {
      LongestFirstIsStable(ws[1..], n);
      InsertIsStable(ws[0], LongestFirst(ws[1..]), n);
    }
  }

  // ---------- candidates ----------

  function LastIndex(s: string, c: char): (r: Option<nat>)
    ensures r.Some? ==> r.value < |s| && s[r.value] == c
    ensures r.Some? ==> forall i | r.value < i < |s| :: s[i] != c
    ensures r.None? ==> c !in s
  {
    if s == "" then None
    else if s[|s| - 1] == c then Some(|s| - 1)
    else LastIndex(s[..|s| - 1], c)
  }

  /** "Name (Native)": what the last parentheses hold, and what stands before them. */
  function Parenthesised(s: string): seq<string> {
    if s != "" && s[|s| - 1] == ')' && LastIndex(s, '(').Some? then
      var p := LastIndex(s, '(').value;
      [s[p + 1..|s| - 1], s[..p]]
    else []
  }

  function WithoutArticle(d: Data, s: string): seq<string> {
    if EndsWith(d.lower(s), ", the") then [if |s| >= 5 then s[..|s| - 5] else ""] else []
  }

  function Pieces(s: string, sep: string): seq<string>
    requires sep != ""
  {
    if FindText(s, sep).Some? then Split(s, sep) else []
  }

  function Candidates(d: Data, s: string): seq<string> {
    [s] + Parenthesised(s) + WithoutArticle(d, s)
    + Pieces(s, " / ") + Pieces(s, " - ") + Pieces(s, "/")
    + if ' ' in s then LongestFirst(Words(d.space, s)) else []
  }

  // ---------- resolution ----------

  /** What the tables say about one candidate. */
  function Hit(d: Data, candidate: string): Option<string> {
    var c := Strip(d.space, candidate);
    if c == "" then None
    else if d.lower(c) in d.native then Some(d.native[d.lower(c)])
    else if d.fold(c) in d.variants then Some(d.variants[d.fold(c)])
    else None
  }

  function FirstHit(d: Data, cs: seq<string>): (r: Option<string>)
    ensures r.None? ==> forall i | 0 <= i < |cs| :: Hit(d, cs[i]).None?
    ensures r.Some? ==> exists i :: 0 <= i < |cs| && Hit(d, cs[i]) == r && forall j | 0 <= j < i :: Hit(d, cs[j]).None?
  {
    if cs == [] then None
    else if Hit(d, cs[0]).Some? then Hit(d, cs[0])
    else
      var rest := FirstHit(d, cs[1..]);
      assert rest.Some? ==> exists i :: 0 < i < |cs| && Hit(d, cs[i]) == rest && forall j | 0 <= j < i ::
          Hit(d, cs[j]).None? by {
        if rest.Some? {
          var k :| 0 <= k < |cs[1..]| && Hit(d, cs[1..][k]) == rest && forall j | 0 <= j < k ::
              Hit(d, cs[1..][j]).None?;
          assert forall j | 0 <= j < k + 1 :: j == 0 || cs[j] == cs[1..][j - 1];
          assert Hit(d, cs[k + 1]) == rest;
        }
      }
      rest
  }

  function Resolve(d: Data, raw: string): Option<string> {
    var value := Strip(d.space, raw);
    if value == "" then None
    else if |value| == 2 && Letters(value) then Some(Upper(value))
    else if |value| == 3 && Letters(value) then
      if Upper(value) in d.iso3 then Some(d.iso3[Upper(value)]) else None
    else FirstHit(d, Candidates(d, value))
  }

  lemma HitIsIso(d: Data, candidate: string)
    requires ValidData(d) && Hit(d, candidate).Some?
    ensures IsIso2(Hit(d, candidate).value)
  {
  }

  lemma FirstHitIsIso(d: Data, cs: seq<string>)
    requires ValidData(d) && FirstHit(d, cs).Some?
    ensures IsIso2(FirstHit(d, cs).value)
  {
    var i :| 0 <= i < |cs| && Hit(d, cs[i]) == FirstHit(d, cs);
    HitIsIso(d, cs[i]);
  }

  lemma UpperIsIso(s: string)
    requires |s| == 2 && Letters(s)
    ensures IsIso2(Upper(s))
  {
  }

  /** Every answer is two capital letters. */
  lemma ResolvedIsIso(d: Data, raw: string)
    requires ValidData(d) && Resolve(d, raw).Some?
    ensures IsIso2(Resolve(d, raw).value)
  {
    var value := Strip(d.space, raw);
    if |value| == 2 && Letters(value) {
      UpperIsIso(value);
    } else if !(|value| == 3 && Letters(value)) {
      FirstHitIsIso(d, Candidates(d, value));
    }
  }

  /** Resolving an answer again gives the same answer. */
  lemma ResolveIsIdempotent(d: Data, raw: string)
    requires ValidData(d) && Resolve(d, raw).Some?
    ensures Resolve(d, Resolve(d, raw).value) == Resolve(d, raw)
  {
    ResolvedIsIso(d, raw);
    IsoIsFixed(d, Resolve(d, raw).value);
  }

  lemma IsoIsFixed(d: Data, iso: string)
    requires ValidData(d) && IsIso2(iso)
    ensures Resolve(d, iso) == Some(iso)
  {
    assert Letter(iso[0]) && Letter(iso[1]);
    assert Strip(d.space, iso) == iso;
    assert Upper(iso) == iso;
  }

  // ---------- candidates are parts of the text ----------

  ghost predicate PartOf(c: string, s: string) {
    exists before, after :: s == before + c + after
  }

  lemma SliceIsPart(s: string, i: nat, j: nat)
    requires i <= j <= |s|
    ensures PartOf(s[i..j], s)
  {
    assert s == s[..i] + s[i..j] + s[j..];
  }

  lemma PartOfSuffix(c: string, s: string, i: nat)
    requires i <= |s| && PartOf(c, s[i..])
    ensures PartOf(c, s)
  {
    var before, after :| s[i..] == before + c + after;
    assert s == (s[..i] + before) + c + after;
  }

  lemma {:induction false} SplitParts(s: string, sep: string, c: string)
    requires sep != "" && c in Split(s, sep)
    ensures PartOf(c, s)
    decreases |s|
  {
    match FindText(s, sep) {
      case None => SliceIsPart(s, 0, |s|); assert s[0..|s|] == s;
      case Some(i) =>
        if c == s[..i] {
          SliceIsPart(s, 0, i);
        } else {
          SplitParts(s[i + |sep|..], sep, c);
          PartOfSuffix(c, s, i + |sep|);
        }
    }
  }

  lemma {:induction false} WordParts(space: char -> bool, s: string, c: string)
    requires c in Words(space, s)
    ensures PartOf(c, s)
    decreases |s|
  {
    if space(s[0]) {
      WordParts(space, s[1..], c);
      PartOfSuffix(c, s, 1);
    } else {
      var n := WordEnd(space, s);
      if n > 1 && c == s[..n] {
        SliceIsPart(s, 0, n);
      } else {
        WordParts(space, s[n..], c);
        PartOfSuffix(c, s, n);
      }
    }
  }

  /** Nothing but stretches of the text itself is ever looked up. */
  lemma CandidatesAreParts(d: Data, s: string, c: string)
    requires c in Candidates(d, s)
    ensures PartOf(c, s)
  {
    if c in Split(s, " / ") {
      SplitParts(s, " / ", c);
    } else if c in Split(s, " - ") {
      SplitParts(s, " - ", c);
    } else if c in Split(s, "/") {
      SplitParts(s, "/", c);
    } else if c in Words(d.space, s) {
      WordParts(d.space, s, c);
    } else {
      OtherParts(d, s, c);
    }
  }

  lemma OtherParts(d: Data, s: string, c: string)
    requires c == s || c in Parenthesised(s) || c in WithoutArticle(d, s)
    ensures PartOf(c, s)
  {
    if c == s {
      assert s == "" + s + "";
    } else if c in Parenthesised(s) {
      ParenthesesAreParts(s, c);
    } else if |s| >= 5 {
      SliceIsPart(s, 0, |s| - 5);
    } else {
      SliceIsPart(s, 0, 0);
    }
  }

  lemma ParenthesesAreParts(s: string, c: string)
    requires c in Parenthesised(s)
    ensures PartOf(c, s)
  {
    var p := LastIndex(s, '(').value;
    if c == s[..p] {
      SliceIsPart(s, 0, p);
    } else {
      SliceIsPart(s, p + 1, |s| - 1);
    }
  }
}
