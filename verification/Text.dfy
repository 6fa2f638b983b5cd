/** Text as sequences of characters: searching, trimming, and decimal numbers. */
module Text {
  import opened Options

  predicate StartsWith(s: string, p: string) { |p| <= |s| && s[..|p|] == p }

  predicate EndsWith(s: string, t: string) { |t| <= |s| && s[|s| - |t|..] == t }

  /** The index of the first `c`, or the length. */
  function Find(s: string, c: char): (i: nat)
    ensures i <= |s| && (i < |s| ==> s[i] == c) && c !in s[..i]
    ensures c !in s ==> i == |s|
  {
    if s == "" || s[0] == c then 0 else 1 + Find(s[1..], c)
  }

  lemma {:induction false} FindFirst(a: string, c: char, b: string)
    requires c !in a && b != "" && b[0] == c
    ensures Find(a + b, c) == |a|
  {
    if a == "" {
      assert a + b == b;
    } else {
      assert a[0] in a;
      assert (a + b)[1..] == a[1..] + b;
      FindFirst(a[1..], c, b);
    }
  }

  /** Python's `strip`, for any notion of white space. */
  function Strip(space: char -> bool, s: string): (r: string)
    ensures r == "" || (!space(r[0]) && !space(r[|r| - 1]))
    ensures (s == "" || (!space(s[0]) && !space(s[|s| - 1]))) ==> r == s
  {
    if s == "" then ""
    else if space(s[0]) then Strip(space, s[1..])
    else if space(s[|s| - 1]) then Strip(space, s[..|s| - 1])
    else s
  }

  /** Only space is taken away, before and after. */
  lemma {:induction false} StripTakesSpace(space: char -> bool, s: string) returns (before: string, after: string)
    ensures s == before + Strip(space, s) + after && forall c | c in before + after :: space(c)
    decreases |s|
  {
    before, after := "", "";
    if s != "" && space(s[0]) {
      before, after := StripTakesSpace(space, s[1..]);
      before := [s[0]] + before;
    } else if s != "" && space(s[|s| - 1]) {
      before, after := StripTakesSpace(space, s[..|s| - 1]);
      after := after + [s[|s| - 1]];
    }
  }

  /** Space around a text that neither starts nor ends with space is what `strip` takes away. */
  lemma {:induction false} StripPads(space: char -> bool, before: string, s: string, after: string)
    requires (forall c | c in before + after :: space(c)) && s != "" && !space(s[0]) && !space(s[|s| - 1])
    ensures Strip(space, before + s + after) == s
    decreases |before| + |after|
  {
    var padded := before + s + after;
    if before != "" {
      assert before[0] in before + after && padded[0] == before[0];
      assert padded[1..] == before[1..] + s + after;
      assert forall c | c in before[1..] + after :: c in before + after;
      StripPads(space, before[1..], s, after);
    } else if after != "" {
      var last := after[|after| - 1];
      assert last in before + after && padded[|padded| - 1] == last && padded[0] == s[0];
      assert padded[..|padded| - 1] == before + s + after[..|after| - 1];
      assert forall c | c in before + after[..|after| - 1] :: c in before + after;
      StripPads(space, before, s, after[..|after| - 1]);
    } else {
      assert padded == s;
    }
  }

  // ---------- decimal numbers ----------

  predicate IsDigit(c: char) { '0' <= c <= '9' }

  function DigitChar(n: nat): (c: char)
    requires n < 10
    ensures IsDigit(c) && c as int - '0' as int == n
  {
    ('0' as int + n) as char
  }

  function NatText(n: nat): (s: string)
    ensures s != "" && forall c | c in s :: IsDigit(c)
  {
    if n < 10 then [DigitChar(n)] else NatText(n / 10) + [DigitChar(n % 10)]
  }

  function IntText(n: int): string {
    if n < 0 then "-" + NatText(-n) else NatText(n)
  }

  function ParseNat(s: string): Option<nat> {
    if s == "" || !IsDigit(s[|s| - 1]) then None
    else
      var d := s[|s| - 1] as int - '0' as int;
      if |s| == 1 then Some(d)
      else
        match ParseNat(s[..|s| - 1])
        case None => None
        case Some(m) => Some(10 * m + d)
  }

  /** Python's `int` on a string of decimal digits with an optional sign. */
  function ParseInt(s: string): Option<int> {
    if s != "" && (s[0] == '-' || s[0] == '+') then
      match ParseNat(s[1..])
      case None => None
      case Some(m) => var n: int := m; Some(if s[0] == '-' then -n else n)
    else
      match ParseNat(s)
      case None => None
      case Some(m) => Some(m)
  }
}
