/**
 Recovering a JSON object from a language model's reply: the brace matcher that cuts the
 object out of surrounding prose, and the automaton that escapes raw line feeds in strings.
 */
module JsonRepair {
  import opened Json
  import opened Options
  import opened Text

  // ---------- the repair automaton ----------

  /** The repaired text of `s`, read in the state (in_string, escape_next). */
  function Scan(s: string, inString: bool, escapeNext: bool): string {
    if s == "" then ""
    else if escapeNext then [s[0]] + Scan(s[1..], inString, false)
    else if s[0] == '\\' && inString then "\\" + Scan(s[1..], inString, true)
    else if s[0] == '\"' then "\"" + Scan(s[1..], !inString, false)
    else if s[0] == '\n' && inString then "\\n" + Scan(s[1..], inString, false)
    else [s[0]] + Scan(s[1..], inString, false)
  }

  function Repair(s: string): string { Scan(s, false, false) }

  /** Line feeds that stand raw inside a string, not directly after a backslash. */
  function RawFeeds(s: string, inString: bool, escapeNext: bool): nat {
    if s == "" then 0
    else if escapeNext then RawFeeds(s[1..], inString, false)
    else if s[0] == '\\' && inString then RawFeeds(s[1..], inString, true)
    else if s[0] == '\"' then RawFeeds(s[1..], !inString, false)
    else if s[0] == '\n' && inString then 1 + RawFeeds(s[1..], inString, false)
    else RawFeeds(s[1..], inString, false)
  }

  /** The scanner's flags after a character, and what it writes for it. */
  predicate NextEscape(c: char, inString: bool, escapeNext: bool) { !escapeNext && c == '\\' && inString }

  predicate NextInString(c: char, inString: bool, escapeNext: bool) {
    if !escapeNext && c == '\"' then !inString else inString
  }

  function Written(c: char, inString: bool, escapeNext: bool): string {
    if !escapeNext && c == '\n' && inString then "\\n" else [c]
  }

  lemma ScanStep(s: string, i: nat, inString: bool, escapeNext: bool)
    requires i < |s|
    ensures Scan(s[i..], inString, escapeNext) ==
              Written(s[i], inString, escapeNext)
              + Scan(s[i + 1..], NextInString(s[i], inString, escapeNext), NextEscape(s[i], inString, escapeNext))
  {
    assert s[i..][1..] == s[i + 1..];
  }

  lemma Append(a: string, b: string, c: string)
    ensures (a + b) + c == a + (b + c)
  {
  }

  method RepairNewlines(cleaned: string) returns (fixed: string)
    ensures fixed == Repair(cleaned)
  {
    fixed := "";
    var inString, escapeNext := false, false;
    for i := 0 to |cleaned|
      invariant Repair(cleaned) == fixed + Scan(cleaned[i..], inString, escapeNext)
    {
      var c := cleaned[i];
      ghost var was, escaped := inString, escapeNext;
      var piece := [c];
      ScanStep(cleaned, i, inString, escapeNext);
      if escapeNext {
        escapeNext := false;
      } else if c == '\\' && inString {
        escapeNext := true;
      } else if c == '\"' {
        inString := !inString;
      } else if c == '\n' && inString {
        piece := "\\n";
      }
      assert piece == Written(c, was, escaped);
      Append(fixed, piece, Scan(cleaned[i + 1..], inString, escapeNext));
      fixed := fixed + piece;
    }
  }

  /** Each raw line feed costs one extra character, and none is left. */
  lemma {:induction false} RepairClears(s: string, inString: bool, escapeNext: bool)
    ensures RawFeeds(Scan(s, inString, escapeNext), inString, escapeNext) == 0
    ensures |Scan(s, inString, escapeNext)| == |s| + RawFeeds(s, inString, escapeNext)
  {
    if s != "" {
      var t := Scan(s, inString, escapeNext);
      if escapeNext {
        RepairClears(s[1..], inString, false);
        assert t[1..] == Scan(s[1..], inString, false);
      } else if s[0] == '\\' && inString {
        RepairClears(s[1..], inString, true);
        assert t[1..] == Scan(s[1..], inString, true);
      } else if s[0] == '\"' {
        RepairClears(s[1..], !inString, false);
        assert t[1..] == Scan(s[1..], !inString, false);
      } else if s[0] == '\n' && inString {
        RepairClears(s[1..], inString, false);
        assert t[1..][1..] == Scan(s[1..], inString, false);
      } else {
        RepairClears(s[1..], inString, false);
        assert t[1..] == Scan(s[1..], inString, false);
      }
    }
  }

  lemma {:induction false} NothingToRepair(s: string, inString: bool, escapeNext: bool)
    requires RawFeeds(s, inString, escapeNext) == 0
    ensures Scan(s, inString, escapeNext) == s
  {
    if s != "" {
      if escapeNext {
        NothingToRepair(s[1..], inString, false);
      } else if s[0] == '\\' && inString {
        NothingToRepair(s[1..], inString, true);
      } else if s[0] == '\"' {
        NothingToRepair(s[1..], !inString, false);
      } else {
        NothingToRepair(s[1..], inString, false);
      }
    }
  }

  /** The repair changes a text exactly when it has a raw line feed in a string. */
  lemma RepairIsIdentityIff(s: string)
    ensures Repair(s) == s <==> RawFeeds(s, false, false) == 0
  {
    RepairClears(s, false, false);
    if RawFeeds(s, false, false) == 0 {
      NothingToRepair(s, false, false);
    }
  }

  lemma RepairIsIdempotent(s: string)
    ensures Repair(Repair(s)) == Repair(s)
  {
    RepairClears(s, false, false);
    NothingToRepair(Repair(s), false, false);
  }

  // ---------- the repair makes the strict reader lenient ----------

  /** What the repair makes of a text that begins outside a string, and of one that begins inside. */
  function Outside(s: string): string { Scan(s, false, false) }

  function Inside(s: string): string { Scan(s, true, false) }

  lemma OutStep(s: string)
    requires s != ""
    ensures Outside(s) != "" && Outside(s)[0] == s[0]
    ensures Outside(s)[1..] == if s[0] == '\"' then Inside(s[1..]) else Outside(s[1..])
  {
  }

  lemma {:induction false} SkipSpaceOut(s: string)
    ensures SkipSpace(Outside(s)) == Outside(SkipSpace(s))
  {
    if s != "" {
      OutStep(s);
      if IsSpace(s[0]) {
        SkipSpaceOut(s[1..]);
      }
    }
  }

  lemma {:induction false} PrefixOut(w: string, s: string)
    requires '\"' !in w
    ensures w <= Outside(s) <==> w <= s
    ensures w <= s ==> Outside(s)[|w|..] == Outside(s[|w|..])
  {
    if w != "" && s != "" {
      OutStep(s);
      if w[0] == s[0] {
        PrefixOut(w[1..], s[1..]);
        assert w <= s <==> w[1..] <= s[1..];
        assert w <= Outside(s) <==> w[1..] <= Outside(s)[1..];
        assert w <= s ==> s[|w|..] == s[1..][|w| - 1..] && Outside(s)[|w|..] == Outside(s)[1..][|w| - 1..];
      }
    }
  }

  lemma {:induction false} NumberSpanOut(s: string)
    ensures NumberSpan(Outside(s)) == NumberSpan(s)
    ensures forall k | 0 <= k < NumberSpan(s) :: IsNumberChar(s[k])
  {
    if s != "" {
      OutStep(s);
      if IsNumberChar(s[0]) {
        NumberSpanOut(s[1..]);
      }
    }
  }

  /** What is left to read, repaired. */
  function RepairedRest<T>(r: Option<(T, string)>): Option<(T, string)> {
    match r
    case None => None
    case Some((v, rest)) => Some((v, Outside(rest)))
  }

  lemma AtomOut(s: string)
    ensures ReadAtom(Outside(s)) == RepairedRest(ReadAtom(s))
  {
    PrefixOut("null", s);
    PrefixOut("true", s);
    PrefixOut("false", s);
    NumberSpanOut(s);
    var n := NumberSpan(s);
    assert forall k | 0 <= k < n :: s[k] != '\"';
    PrefixOut(s[..n], s);
    assert Outside(s)[..n] == s[..n];
  }

  lemma InStep(s: string)
    requires s != ""
    ensures Inside(s) != ""
    ensures s[0] != '\"' && s[0] != '\\' && s[0] != '\n' ==> Inside(s)[0] == s[0] && Inside(s)[1..] == Inside(s[1..])
    ensures s[0] == '\"' ==> Inside(s)[0] == '\"' && Inside(s)[1..] == Outside(s[1..])
    ensures s[0] == '\\' ==> Inside(s)[0] == '\\' && Inside(s)[1..] == Scan(s[1..], true, true)
    ensures s[0] == '\n' ==> |Inside(s)| >= 2 && Inside(s)[..2] == "\\n" && Inside(s)[2..] == Inside(s[1..])
  {
  }

  lemma {:induction false} HexIn(s: string, k: nat)
    requires k <= |s|
    requires forall i | 0 <= i < k :: HexValue(s[i]).Some?
    ensures k <= |Inside(s)| && Inside(s)[..k] == s[..k] && Inside(s)[k..] == Inside(s[k..])
  {
    if k > 0 {
      InStep(s);
      HexIn(s[1..], k - 1);
      assert Inside(s) == [s[0]] + Inside(s[1..]);
      assert s[..k] == [s[0]] + s[1..][..k - 1];
      assert s[k..] == s[1..][k - 1..];
    }
  }

  /** How many of the first four characters are hexadecimal digits. */
  function HexSpan(s: string, limit: nat): (n: nat)
    ensures n <= |s| && n <= limit
    ensures forall i | 0 <= i < n :: HexValue(s[i]).Some?
    ensures n < |s| && n < limit ==> HexValue(s[n]).None?
  {
    if s != "" && limit > 0 && HexValue(s[0]).Some? then 1 + HexSpan(s[1..], limit - 1) else 0
  }

  lemma ReadHex4In(s: string)
    ensures ReadHex4(Inside(s)) == ReadHex4(s)
    ensures ReadHex4(s).Some? ==> Inside(s)[4..] == Inside(s[4..])
  {
    var n := HexSpan(s, 4);
    HexIn(s, n);
    if n == 4 {
      assert forall i | 0 <= i < 4 :: Inside(s)[i] == Inside(s)[..4][i] == s[i];
    } else if n < |s| {
      InStep(s[n..]);
      assert Inside(s)[n] == Inside(s)[n..][0];
      assert HexValue(Inside(s)[n]).None?;
    }
  }

  lemma UnicodeIn(s: string)
    ensures ReadUnicode(Inside(s)) == ReadUnicode(s)
    ensures ReadUnicode(s).Some? ==> var n := ReadUnicode(s).value.1; Inside(s)[n..] == Inside(s[n..])
  {
    ReadHex4In(s);
    if ReadHex4(s).Some? && |s| > 4 {
      var t := s[4..];
      InStep(t);
      assert Inside(s)[4] == Inside(t)[0];
      if t[0] == '\\' && |t| > 1 {
        assert Inside(t)[1..] == [t[1]] + Inside(t[2..]);
        assert Inside(s)[5] == Inside(t)[1] && Inside(s)[6..] == Inside(t)[2..] == Inside(t[2..]);
        assert t[2..] == s[6..];
        ReadHex4In(s[6..]);
        assert ReadHex4(s[6..]).Some? ==>
                 Inside(s)[10..] == Inside(s[6..])[4..] == Inside(s[6..][4..]) && s[6..][4..] == s[10..];
      } else if |Inside(t)| > 1 {
        assert Inside(s)[5] == Inside(t)[1];
      }
    }
  }

  lemma UnescapeIn(s: string)
    ensures Unescape(Scan(s, true, true)) == Unescape(s)
    ensures Unescape(s).Some? ==> var n := Unescape(s).value.1; Scan(s, true, true)[n..] == Inside(s[n..])
  {
    if s != "" {
      var t := Scan(s, true, true);
      assert t[0] == s[0] && t[1..] == Inside(s[1..]);
      if s[0] == 'u' {
        UnicodeIn(s[1..]);
        if ReadUnicode(s[1..]).Some? {
          var n := ReadUnicode(s[1..]).value.1;
          assert t[n + 1..] == t[1..][n..] && s[n + 1..] == s[1..][n..];
        }
      }
    }
  }

  lemma {:induction false} StringOut(s: string)
    ensures ReadString(Inside(s), false) == RepairedRest(ReadString(s, true))
    decreases |s|
  {
    if s != "" {
      InStep(s);
      if s[0] == '\\' {
        var t := s[1..];
        UnescapeIn(t);
        if Unescape(t).Some? {
          var n := Unescape(t).value.1;
          StringOut(t[n..]);
          assert Inside(s)[1 + n..] == Inside(s)[1..][n..] && s[1 + n..] == t[n..];
        }
      } else if s[0] == '\n' {
        StringOut(s[1..]);
        assert Inside(s)[1..][0] == 'n' && Inside(s)[1..][1..] == Inside(s)[2..];
      } else if s[0] != '\"' && s[0] >= ' ' {
        StringOut(s[1..]);
      }
    }
  }

  lemma {:induction false} ValueOut(s: string)
    ensures ReadValue(Outside(s), false) == RepairedRest(ReadValue(s, true))
    decreases |s|, 0
  {
    if s != "" {
      OutStep(s);
      if s[0] == '\"' {
        StringOut(s[1..]);
      } else if s[0] == '[' {
        SkipSpaceOut(s[1..]);
        ArrayOut(SkipSpace(s[1..]));
      } else if s[0] == '{' {
        SkipSpaceOut(s[1..]);
        ObjectOut(SkipSpace(s[1..]));
      } else {
        AtomOut(s);
      }
    }
  }

  lemma {:induction false} ArrayOut(s: string)
    ensures ReadArray(Outside(s), false) == RepairedRest(ReadArray(s, true))
    decreases |s|, 2
  {
    if s != "" {
      OutStep(s);
    }
    ItemsOut(s);
  }

  lemma {:induction false} ObjectOut(s: string)
    ensures ReadObject(Outside(s), false) == RepairedRest(ReadObject(s, true))
    decreases |s|, 2
  {
    if s != "" {
      OutStep(s);
    }
    FieldsOut(s);
  }

  lemma {:induction false} ItemsOut(s: string)
    ensures ReadItems(Outside(s), false) == RepairedRest(ReadItems(s, true))
    decreases |s|, 1
  {
    ValueOut(s);
    if ReadValue(s, true).Some? {
      var r1 := ReadValue(s, true).value.1;
      SkipSpaceOut(r1);
      var r2 := SkipSpace(r1);
      if r2 != "" {
        OutStep(r2);
        if r2[0] == ',' {
          SkipSpaceOut(r2[1..]);
          ItemsOut(SkipSpace(r2[1..]));
        }
      }
    }
  }

  lemma {:induction false} FieldsOut(s: string)
    ensures ReadFields(Outside(s), false) == RepairedRest(ReadFields(s, true))
    decreases |s|, 1
  {
    FieldOut(s);
    if ReadField(s, true).Some? {
      var r1 := ReadField(s, true).value.1;
      SkipSpaceOut(r1);
      var r2 := SkipSpace(r1);
      if r2 != "" {
        OutStep(r2);
        if r2[0] == ',' {
          SkipSpaceOut(r2[1..]);
          FieldsOut(SkipSpace(r2[1..]));
        }
      }
    }
  }

  lemma {:induction false} FieldOut(s: string)
    ensures ReadField(Outside(s), false) == RepairedRest(ReadField(s, true))
    decreases |s|, 0
  {
    if s != "" {
      OutStep(s);
      if s[0] == '\"' {
        StringOut(s[1..]);
        if ReadString(s[1..], true).Some? {
          var r1 := ReadString(s[1..], true).value.1;
          SkipSpaceOut(r1);
          var r2 := SkipSpace(r1);
          if r2 != "" {
            OutStep(r2);
            if r2[0] == ':' {
              SkipSpaceOut(r2[1..]);
              ValueOut(SkipSpace(r2[1..]));
            }
          }
        }
      }
    }
  }

  /** For every text: strictly reading the repaired text is leniently reading the original. */
  lemma RepairedReadsLeniently(s: string)
    ensures Loads(Repair(s), false) == Loads(s, true)
  {
    SkipSpaceOut(s);
    ValueOut(SkipSpace(s));
    if ReadValue(SkipSpace(s), true).Some? {
      var rest := ReadValue(SkipSpace(s), true).value.1;
      SkipSpaceOut(rest);
      if SkipSpace(rest) != "" {
        OutStep(SkipSpace(rest));
      }
    }
  }

  // ---------- strict first, repaired second ----------

  /** `json.loads` on the text as it is and, when that fails, on the repaired text. */
  function TryParse(cleaned: string): Option<Json> {
    match Loads(cleaned, false)
    case Some(v) => Some(v)
    case None => Loads(Repair(cleaned), false)
  }

  lemma {:induction false} StringLenient(s: string)
    requires ReadString(s, false).Some?
    ensures ReadString(s, true) == ReadString(s, false)
    decreases |s|
  {
    if s[0] == '\\' {
      StringLenient(s[1 + Unescape(s[1..]).value.1..]);
    } else if s[0] != '\"' {
      StringLenient(s[1..]);
    }
  }

  lemma {:induction false} ValueLenient(s: string)
    requires ReadValue(s, false).Some?
    ensures ReadValue(s, true) == ReadValue(s, false)
    decreases |s|, 0
  {
    if s[0] == '\"' {
      StringLenient(s[1..]);
    } else if s[0] == '[' {
      var t := SkipSpace(s[1..]);
      if t == "" || t[0] != ']' {
        ItemsLenient(t);
      }
    } else if s[0] == '{' {
      var t := SkipSpace(s[1..]);
      if t == "" || t[0] != '}' {
        FieldsLenient(t);
      }
    }
  }

  lemma {:induction false} ItemsLenient(s: string)
    requires ReadItems(s, false).Some?
    ensures ReadItems(s, true) == ReadItems(s, false)
    decreases |s|, 1
  {
    ValueLenient(s);
    var r2 := SkipSpace(ReadValue(s, false).value.1);
    if r2[0] != ']' {
      ItemsLenient(SkipSpace(r2[1..]));
    }
  }

  lemma {:induction false} FieldsLenient(s: string)
    requires ReadFields(s, false).Some?
    ensures ReadFields(s, true) == ReadFields(s, false)
    decreases |s|, 1
  {
    FieldLenient(s);
    var r2 := SkipSpace(ReadField(s, false).value.1);
    if r2[0] != '}' {
      FieldsLenient(SkipSpace(r2[1..]));
    }
  }

  lemma {:induction false} FieldLenient(s: string)
    requires ReadField(s, false).Some?
    ensures ReadField(s, true) == ReadField(s, false)
    decreases |s|, 0
  {
    StringLenient(s[1..]);
    var r2 := SkipSpace(ReadString(s[1..], false).value.1);
    ValueLenient(SkipSpace(r2[1..]));
  }

  /** Both attempts together accept exactly the lenient documents, with the lenient value. */
  lemma TryParseIsLenient(s: string)
    ensures TryParse(s) == Loads(s, true)
  {
    RepairedReadsLeniently(s);
    if ReadValue(SkipSpace(s), false).Some? {
      ValueLenient(SkipSpace(s));
    }
  }

  // ---------- the brace matcher ----------

  /** Braces opened minus braces closed; braces inside strings count too. */
  function Depth(s: string): int {
    if s == "" then 0
    else Depth(s[..|s| - 1]) + Brace(s[|s| - 1])
  }

  function Brace(c: char): int {
    if c == '{' then 1 else if c == '}' then -1 else 0
  }

  function Plus(n: nat, r: Option<nat>): Option<nat> {
    match r
    case None => None
    case Some(m) => Some(n + m)
  }

  /** How much text is read, from `depth` open braces, until none is open. */
  function Closing(s: string, depth: nat): (r: Option<nat>)
    ensures r.Some? ==> 0 < r.value <= |s|
  {
    if s == "" then None
    else if s[0] == '}' && depth <= 1 then Some(1)
    else Plus(1, Closing(s[1..], depth + Brace(s[0])))
  }

  /** From the first brace of a text to the brace that closes it, or to the end of the text. */
  function CutAtBrace(s: string): string {
    match Closing(s, 0)
    case Some(n) => s[..n]
    case None => s
  }

  lemma DepthTail(s: string)
    requires s != ""
    ensures Depth(s) == Brace(s[0]) + Depth(s[1..])
  {
    if |s| > 1 {
      DepthTail(s[..|s| - 1]);
      assert s[..|s| - 1][1..] == s[1..][..|s| - 2];
    }
  }

  /** The matcher stops at the shortest prefix that closes every brace it opened. */
  lemma {:induction false} ClosingIsShortest(s: string, depth: nat)
    requires depth > 0 || (s != "" && s[0] == '{')
    ensures Closing(s, depth).Some? ==> depth + Depth(s[..Closing(s, depth).value]) == 0
    ensures forall k | 0 < k <= |s| && (Closing(s, depth).Some? ==> k < Closing(s, depth).value) ::
              depth + Depth(s[..k]) > 0
    decreases |s|
  {
    if s != "" {
      var d := depth + Brace(s[0]);
      if d > 0 {
        ClosingIsShortest(s[1..], d);
        forall k | 0 < k <= |s|
          ensures depth + Depth(s[..k]) == d + Depth(s[1..][..k - 1])
        {
          DepthTail(s[..k]);
          assert s[..k][1..] == s[1..][..k - 1];
        }
        forall k | 0 < k <= |s| && (Closing(s, depth).Some? ==> k < Closing(s, depth).value)
          ensures depth + Depth(s[..k]) > 0
        {
          if k > 1 {
            assert d + Depth(s[1..][..k - 1]) > 0;
          }
        }
      } else {
        DepthTail(s[..1]);
      }
    }
  }

  /** What is parsed: the whole text if it starts with a brace, else the first matched object. */
  function ObjectText(cleaned: string): Option<string> {
    if cleaned != "" && cleaned[0] == '{' then Some(cleaned)
    else
      var start := Find(cleaned, '{');
      if start < |cleaned| then Some(CutAtBrace(cleaned[start..])) else None
  }

  lemma ClosingStep(s: string, i: nat, depth: nat)
    requires i < |s| && (depth == 0 ==> s[i] == '{')
    ensures Closing(s[i..], depth) ==
              if s[i] == '}' && depth <= 1 then Some(1) else Plus(1, Closing(s[i + 1..], depth + Brace(s[i])))
  {
    assert s[i..][0] == s[i] && s[i..][1..] == s[i + 1..];
  }

  /** The brace counter: how much text from `start` on closes every brace it opens. */
  method MatchBrace(cleaned: string, start: nat) returns (r: Option<nat>)
    requires start < |cleaned| && cleaned[start] == '{'
    ensures r == Closing(cleaned[start..], 0)
  {
    var braceCount := 0;
    var i := start;
    while i < |cleaned|
      invariant start <= i <= |cleaned| && (if i == start then braceCount == 0 else braceCount > 0)
      invariant Closing(cleaned[start..], 0) == Plus(i - start, Closing(cleaned[i..], braceCount))
    {
      ClosingStep(cleaned, i, braceCount);
      if cleaned[i] == '{' {
        braceCount := braceCount + 1;
      } else if cleaned[i] == '}' {
        braceCount := braceCount - 1;
        if braceCount == 0 {
          return Some(i + 1 - start);
        }
      }
      i := i + 1;
    }
    r := None;
  }

  method ExtractObject(cleaned: string) returns (r: Option<string>)
    ensures r == ObjectText(cleaned)
  {
    if cleaned != "" && cleaned[0] == '{' {
      return Some(cleaned);
    }
    var start := Find(cleaned, '{');
    if start == |cleaned| {
      return None;  // reasoning only
    }
    var length := MatchBrace(cleaned, start);
    match length
    case Some(n) => return Some(cleaned[start..][..n]);
    case None => return Some(cleaned[start..]);
  }

  /** A parsed object; or a ValueError for a reply without a brace; or neither attempt parses. */
  datatype Reply = Parsed(value: Json) | NoObject | Unparsable

  function ParseReply(cleaned: string): Reply {
    match ObjectText(cleaned)
    case None => NoObject
    case Some(text) =>
      match TryParse(text)
      case Some(v) => Parsed(v)
      case None => Unparsable
  }

  /** What follows the opening fence and its language. */
  function AfterFence(s: string): string
    requires StartsWith(s, "```")
  {
    var tagged := if StartsWith(s[3..], "json") then s[7..] else s[3..];
    if StartsWith(tagged, "\n") then tagged[1..] else tagged
  }

  /** A text without its code fence: the opening one with its language, and a closing one. */
  function Unfenced(s: string): string {
    if !StartsWith(s, "```") then s
    else
      var body := AfterFence(s);
      if !EndsWith(body, "```") then body
      else
        var kept := body[..|body| - 3];
        if EndsWith(kept, "\n") then kept[..|kept| - 1] else kept
  }

  /** The text that is searched for an object. */
  function Cleaned(space: char -> bool, response: string): string { Unfenced(Strip(space, response)) }

  method ParseResponse(space: char -> bool, response: string) returns (r: Reply)
    ensures r == ParseReply(Cleaned(space, response))
  {
    var cleaned := Strip(space, response);
    if StartsWith(cleaned, "```") {
      cleaned := Unfenced(cleaned);
    }
    var text := ExtractObject(cleaned);
    if text.None? {
      return NoObject;
    }
    var v := Loads(text.value, false);
    if v.None? {
      var fixed := RepairNewlines(text.value);
      v := Loads(fixed, false);
    }
    r := if v.Some? then Parsed(v.value) else Unparsable;
  }

  /** The three outcomes, told apart without the scanner or the two attempts. */
  lemma ReplyOutcomes(s: string)
    ensures ParseReply(s).NoObject? <==> '{' !in s
    ensures forall v :: ParseReply(s) == Parsed(v) <==>
        ObjectText(s).Some? && Loads(ObjectText(s).value, true) == Some(v)
    ensures ParseReply(s).Unparsable? <==> ObjectText(s).Some? && Loads(ObjectText(s).value, true).None?
  {
    var start := Find(s, '{');
    if start < |s| {
      assert s[start] in s;
    }
    if s != "" && s[0] == '{' {
      assert s[0] in s;
    }
    if ObjectText(s).Some? {
      TryParseIsLenient(ObjectText(s).value);
    }
  }
}
