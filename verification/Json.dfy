/**
 JSON text (RFC 8259) as Python's `json` module writes and reads it: `json.dumps` with its
 default separators and ASCII escapes, and `json.loads` over the whole grammar.

 Two switches describe text that is not quite JSON.  `raw` writes line feeds inside strings
 unescaped; `lenient` reads such strings, which the strict reader (section 7) refuses.
 */
module Json {
  import opened Options
  import opened Text

  /** A number is kept as its text; an object keeps its members in order. */
  datatype Json =
    | Null
    | Bool(b: bool)
    | Num(text: string)
    | Str(s: string)
    | Arr(items: seq<Json>)
    | Obj(fields: seq<Field>)

  datatype Field = Field(name: string, value: Json)

  // ---------- characters and escapes ----------

  function HexDigit(n: nat): char
    requires n < 16
  {
    if n < 10 then ('0' as int + n) as char else ('a' as int + n - 10) as char
  }

  function HexValue(c: char): (r: Option<nat>)
    ensures r.Some? ==> r.value < 16
  {
    if '0' <= c <= '9' then Some(c as int - '0' as int)
    else if 'a' <= c <= 'f' then Some(c as int - 'a' as int + 10)
    else if 'A' <= c <= 'F' then Some(c as int - 'A' as int + 10)
    else None
  }

  function Hex4(n: nat): (r: string)
    requires n < 0x1_0000
    ensures |r| == 4
  {
    [HexDigit(n / 4096), HexDigit(n / 256 % 16), HexDigit(n / 16 % 16), HexDigit(n % 16)]
  }

  function HexQuad(a: char, b: char, c: char, d: char): (r: Option<nat>)
    ensures r.Some? ==> r.value < 0x1_0000
  {
    match (HexValue(a), HexValue(b), HexValue(c), HexValue(d))
    case (Some(w), Some(x), Some(y), Some(z)) => Some(4096 * w + 256 * x + 16 * y + z)
    case _ => None
  }

  function ReadHex4(s: string): (r: Option<nat>)
    ensures r.Some? ==> |s| >= 4 && r.value < 0x1_0000
  {
    if |s| < 4 then None else HexQuad(s[0], s[1], s[2], s[3])
  }

  lemma HexRoundTrip(n: nat, rest: string)
    requires n < 0x1_0000
    ensures ReadHex4(Hex4(n) + rest) == Some(n)
  {
    assert n / 256 == 16 * (n / 4096) + n / 256 % 16;
    assert n / 16 == 16 * (n / 256) + n / 16 % 16;
    var s := Hex4(n) + rest;
    assert s[0] == Hex4(n)[0] && s[1] == Hex4(n)[1] && s[2] == Hex4(n)[2] && s[3] == Hex4(n)[3];
  }

  /** The letter of a two-character escape. */
  function EscapeLetter(c: char): Option<char> {
    if c == '\"' then Some('\"')
    else if c == '\\' then Some('\\')
    else if c == '\n' then Some('n')
    else if c == '\r' then Some('r')
    else if c == '\t' then Some('t')
    else if c == '\U{000C}' then Some('f')
    else if c == '\U{0008}' then Some('b')
    else None
  }

  function LetterMeaning(letter: char): Option<char> {
    if letter == '\"' || letter == '\\' || letter == '/' then Some(letter)
    else if letter == 'n' then Some('\n')
    else if letter == 'r' then Some('\r')
    else if letter == 't' then Some('\t')
    else if letter == 'f' then Some('\U{000C}')
    else if letter == 'b' then Some('\U{0008}')
    else None
  }

  /** UTF-16 surrogates of a character beyond the basic plane. */
  function HighUnit(c: char): (n: nat)
    requires 0x1_0000 <= c as int
    ensures 0xD800 <= n < 0xDC00
  {
    0xD800 + (c as int - 0x1_0000) / 1024
  }

  function LowUnit(c: char): (n: nat)
    requires 0x1_0000 <= c as int
    ensures 0xDC00 <= n < 0xE000
  {
    0xDC00 + (c as int - 0x1_0000) % 1024
  }

  function FromUnits(hi: nat, lo: nat): char
    requires 0xD800 <= hi < 0xDC00 && 0xDC00 <= lo < 0xE000
  {
    (0x1_0000 + 1024 * (hi - 0xD800) + (lo - 0xDC00)) as char
  }

  function UnicodeEscape(c: char): string {
    if c as int < 0x1_0000 then "\\u" + Hex4(c as int)
    else "\\u" + Hex4(HighUnit(c)) + "\\u" + Hex4(LowUnit(c))
  }

  /** One character inside a string literal. */
  function Escape(c: char, raw: bool): (r: string)
    ensures r != "" && r[0] != '\"'
  {
    if c == '\n' && raw then "\n"
    else
      match EscapeLetter(c)
      case Some(letter) => ['\\', letter]
      case None => if ' ' <= c <= '~' then [c] else UnicodeEscape(c)
  }

  /** The character meant by the text after a backslash-u, and how much of it was used. */
  function ReadUnicode(s: string): (r: Option<(char, nat)>)
    ensures r.Some? ==> 4 <= r.value.1 <= |s|
  {
    match ReadHex4(s)
    case None => None
    case Some(n) =>
      if n < 0xD800 || 0xE000 <= n then Some((n as char, 4))
      else if 0xDC00 <= n || |s| < 6 || s[4] != '\\' || s[5] != 'u' then None
      else
        match ReadHex4(s[6..])
        case None => None
        case Some(m) => if 0xDC00 <= m < 0xE000 then Some((FromUnits(n, m), 10)) else None
  }

  /** The character meant by the text after a backslash, and how much of it was used. */
  function Unescape(s: string): (r: Option<(char, nat)>)
    ensures r.Some? ==> 1 <= r.value.1 <= |s|
  {
    if s == "" then None
    else
      match LetterMeaning(s[0])
      case Some(c) => Some((c, 1))
      case None =>
        if s[0] != 'u' then None
        else
          match ReadUnicode(s[1..])
          case None => None
          case Some((c, n)) => Some((c, n + 1))
  }

  lemma UnitsRoundTrip(c: char)
    requires 0x1_0000 <= c as int
    ensures FromUnits(HighUnit(c), LowUnit(c)) == c
  {
  }

  lemma ReadPair(s: string, hi: nat, lo: nat)
    requires |s| >= 6 && ReadHex4(s) == Some(hi) && s[4] == '\\' && s[5] == 'u' && ReadHex4(s[6..]) == Some(lo)
    requires 0xD800 <= hi < 0xDC00 && 0xDC00 <= lo < 0xE000
    ensures ReadUnicode(s) == Some((FromUnits(hi, lo), 10))
  {
  }

  lemma PairText(hi: string, lo: string, rest: string)
    requires |hi| == 4
    ensures var s := hi + "\\u" + lo + rest;
            s == hi + ("\\u" + lo + rest) && s[4] == '\\' && s[5] == 'u' && s[6..] == lo + rest
  {
  }

  lemma SurrogatesRoundTrip(hi: nat, lo: nat, rest: string)
    requires 0xD800 <= hi < 0xDC00 && 0xDC00 <= lo < 0xE000
    ensures ReadUnicode(Hex4(hi) + "\\u" + Hex4(lo) + rest) == Some((FromUnits(hi, lo), 10))
  {
    HexRoundTrip(hi, "\\u" + Hex4(lo) + rest);
    HexRoundTrip(lo, rest);
    PairText(Hex4(hi), Hex4(lo), rest);
    ReadPair(Hex4(hi) + "\\u" + Hex4(lo) + rest, hi, lo);
  }

  lemma UnicodeRoundTrip(c: char, rest: string)
    ensures var e := UnicodeEscape(c);
            |e| >= 2 && e[..2] == "\\u" && ReadUnicode(e[2..] + rest) == Some((c, |e| - 2))
  {
    var e := UnicodeEscape(c);
    if c as int < 0x1_0000 {
      HexRoundTrip(c as int, rest);
      assert e[2..] == Hex4(c as int);
    } else {
      SurrogatesRoundTrip(HighUnit(c), LowUnit(c), rest);
      UnitsRoundTrip(c);
      assert e[2..] == Hex4(HighUnit(c)) + "\\u" + Hex4(LowUnit(c));
    }
  }

  lemma LongEscapeRoundTrip(c: char, rest: string)
    ensures var e := UnicodeEscape(c);
            |e| >= 2 && Unescape(e[1..] + rest) == Some((c, |e| - 1))
  {
    var e := UnicodeEscape(c);
    UnicodeRoundTrip(c, rest);
    assert (e[1..] + rest)[1..] == e[2..] + rest;
    assert (e[1..] + rest)[0] == e[..2][1] == 'u';
  }

  lemma EscapeRoundTrip(c: char, rest: string)
    requires Escape(c, false)[0] == '\\'
    ensures var e := Escape(c, false);
            Unescape(e[1..] + rest) == Some((c, |e| - 1))
  {
    if EscapeLetter(c).None? {
      LongEscapeRoundTrip(c, rest);
    }
  }

  // ---------- writing ----------

  function DumpChars(s: string, raw: bool): string {
    if s == "" then "" else Escape(s[0], raw) + DumpChars(s[1..], raw)
  }

  function DumpString(s: string, raw: bool): string {
    "\"" + DumpChars(s, raw) + "\""
  }

  function Dump(v: Json, raw: bool): string
    decreases v, 1
  {
    match v
    case Null => "null"
    case Bool(b) => if b then "true" else "false"
    case Num(text) => text
    case Str(s) => DumpString(s, raw)
    case Arr(items) => if items == [] then "[]" else "[" + DumpItems(items, raw)
    case Obj(fields) => if fields == [] then "{}" else "{" + DumpFields(fields, raw)
  }

  /** The elements with their separators and the closing bracket. */
  function DumpItems(items: seq<Json>, raw: bool): string
    requires items != []
    decreases items, 0
  {
    Dump(items[0], raw) + if |items| == 1 then "]" else ", " + DumpItems(items[1..], raw)
  }

  function DumpFields(fields: seq<Field>, raw: bool): string
    requires fields != []
    decreases fields, 0
  {
    DumpString(fields[0].name, raw) + ": " + Dump(fields[0].value, raw)
    + if |fields| == 1 then "}" else ", " + DumpFields(fields[1..], raw)
  }

  // ---------- numbers ----------

  predicate IsNumberChar(c: char) {
    IsDigit(c) || c == '-' || c == '+' || c == '.' || c == 'e' || c == 'E'
  }

  function DigitSpan(s: string): (n: nat)
    ensures n <= |s|
  {
    if s != "" && IsDigit(s[0]) then 1 + DigitSpan(s[1..]) else 0
  }

  function NumberSpan(s: string): (n: nat)
    ensures n <= |s|
  {
    if s != "" && IsNumberChar(s[0]) then 1 + NumberSpan(s[1..]) else 0
  }

  predicate IsExponent(s: string) {
    s == "" ||
    ((s[0] == 'e' || s[0] == 'E') &&
     var d := if |s| > 1 && (s[1] == '+' || s[1] == '-') then s[2..] else s[1..];
     d != "" && DigitSpan(d) == |d|)
  }

  predicate IsFraction(s: string) {
    if s != "" && s[0] == '.' then
      var n := DigitSpan(s[1..]);
      n > 0 && IsExponent(s[1 + n..])
    else IsExponent(s)
  }

  /** The number grammar of section 6. */
  predicate IsNumber(s: string) {
    var d := if s != "" && s[0] == '-' then s[1..] else s;
    var n := DigitSpan(d);
    n > 0 && (n > 1 ==> d[0] != '0') && IsFraction(d[n..])
  }

  // ---------- reading ----------

  predicate IsSpace(c: char) { c == ' ' || c == '\t' || c == '\n' || c == '\r' }

  function SkipSpace(s: string): (r: string)
    ensures |r| <= |s|
  {
    if s != "" && IsSpace(s[0]) then SkipSpace(s[1..]) else s
  }

  /** Reads the rest of a string literal after its opening quote. */
  function ReadString(s: string, lenient: bool): (r: Option<(string, string)>)
    ensures r.Some? ==> |r.value.1| < |s|
  {
    if s == "" then None
    else if s[0] == '\"' then Some(("", s[1..]))
    else if s[0] == '\\' then
      match Unescape(s[1..])
      case None => None
      case Some((c, n)) => Prefixed(c, ReadString(s[1 + n..], lenient))
    else if s[0] < ' ' && !(lenient && s[0] == '\n') then None
    else Prefixed(s[0], ReadString(s[1..], lenient))
  }

  function Prefixed(c: char, r: Option<(string, string)>): Option<(string, string)> {
    match r
    case None => None
    case Some((t, rest)) => Some(([c] + t, rest))
  }

  function ReadValue(s: string, lenient: bool): (r: Option<(Json, string)>)
    ensures r.Some? ==> |r.value.1| < |s|
    decreases |s|, 0
  {
    if s == "" then None
    else if s[0] == '\"' then
      match ReadString(s[1..], lenient)
      case None => None
      case Some((t, rest)) => Some((Str(t), rest))
    else if s[0] == '[' then ReadArray(SkipSpace(s[1..]), lenient)
    else if s[0] == '{' then ReadObject(SkipSpace(s[1..]), lenient)
    else ReadAtom(s)
  }

  function ReadArray(s: string, lenient: bool): (r: Option<(Json, string)>)
    ensures r.Some? ==> |r.value.1| < |s|
    decreases |s|, 2
  {
    if s != "" && s[0] == ']' then Some((Arr([]), s[1..]))
    else
      match ReadItems(s, lenient)
      case None => None
      case Some((items, rest)) => Some((Arr(items), rest))
  }

  function ReadObject(s: string, lenient: bool): (r: Option<(Json, string)>)
    ensures r.Some? ==> |r.value.1| < |s|
    decreases |s|, 2
  {
    if s != "" && s[0] == '}' then Some((Obj([]), s[1..]))
    else
      match ReadFields(s, lenient)
      case None => None
      case Some((fields, rest)) => Some((Obj(fields), rest))
  }

  /** The literals and numbers. */
  function ReadAtom(s: string): (r: Option<(Json, string)>)
    ensures r.Some? ==> |r.value.1| < |s|
  {
    if "null" <= s then Some((Null, s[4..]))
    else if "true" <= s then Some((Bool(true), s[4..]))
    else if "false" <= s then Some((Bool(false), s[5..]))
    else
      var n := NumberSpan(s);
      if n > 0 && IsNumber(s[..n]) then Some((Num(s[..n]), s[n..])) else None
  }

  function ReadItems(s: string, lenient: bool): (r: Option<(seq<Json>, string)>)
    ensures r.Some? ==> |r.value.1| < |s|
    decreases |s|, 1
  {
    match ReadValue(s, lenient)
    case None => None
    case Some((v, r1)) =>
      var r2 := SkipSpace(r1);
      if r2 == "" then None
      else if r2[0] == ']' then Some(([v], r2[1..]))
      else if r2[0] != ',' then None
      else
        match ReadItems(SkipSpace(r2[1..]), lenient)
        case None => None
        case Some((items, rest)) => Some(([v] + items, rest))
  }

  function ReadFields(s: string, lenient: bool): (r: Option<(seq<Field>, string)>)
    ensures r.Some? ==> |r.value.1| < |s|
    decreases |s|, 1
  {
    match ReadField(s, lenient)
    case None => None
    case Some((field, r1)) =>
      var r2 := SkipSpace(r1);
      if r2 == "" then None
      else if r2[0] == '}' then Some(([field], r2[1..]))
      else if r2[0] != ',' then None
      else
        match ReadFields(SkipSpace(r2[1..]), lenient)
        case None => None
        case Some((fields, rest)) => Some(([field] + fields, rest))
  }

  /** One `"name": value` member. */
  function ReadField(s: string, lenient: bool): (r: Option<(Field, string)>)
    ensures r.Some? ==> |r.value.1| < |s|
    decreases |s|, 0
  {
    if s == "" || s[0] != '\"' then None
    else
      match ReadString(s[1..], lenient)
      case None => None
      case Some((name, r1)) =>
        var r2 := SkipSpace(r1);
        if r2 == "" || r2[0] != ':' then None
        else
          match ReadValue(SkipSpace(r2[1..]), lenient)
          case None => None
          case Some((v, rest)) => Some((Field(name, v), rest))
  }

  /** A whole document: one value with nothing but space around it. */
  function Loads(s: string, lenient: bool): Option<Json> {
    match ReadValue(SkipSpace(s), lenient)
    case None => None
    case Some((v, rest)) => if SkipSpace(rest) == "" then Some(v) else None
  }

  // ---------- reading back what was written ----------

  predicate Writable(v: Json)
    decreases v
  {
    match v
    case Num(text) => IsNumber(text) && NumberSpan(text) == |text|
    case Arr(items) => forall x | x in items :: Writable(x)
    case Obj(fields) => forall f | f in fields :: Writable(f.value)
    case _ => true
  }

  lemma EscapedCharReadBack(c: char, tail: string, raw: bool, lenient: bool)
    requires Escape(c, raw)[0] == '\\'
    ensures ReadString(Escape(c, raw) + tail, lenient) == Prefixed(c, ReadString(tail, lenient))
  {
    var e := Escape(c, raw);
    var text := e + tail;
    EscapeRoundTrip(c, tail);
    assert text[1..] == e[1..] + tail;
    assert text[|e|..] == tail;
  }

  lemma CharReadBack(c: char, tail: string, raw: bool, lenient: bool)
    requires raw ==> lenient
    ensures ReadString(Escape(c, raw) + tail, lenient) == Prefixed(c, ReadString(tail, lenient))
  {
    var e := Escape(c, raw);
    if e[0] == '\\' {
      EscapedCharReadBack(c, tail, raw, lenient);
    } else {
      assert e == [c];
      assert (e + tail)[1..] == tail;
    }
  }

  lemma DumpCharsText(s: string, rest: string, raw: bool)
    requires s != ""
    ensures DumpChars(s, raw) + "\"" + rest == Escape(s[0], raw) + (DumpChars(s[1..], raw) + "\"" + rest)
  {
  }

  lemma EmptyReadBack(rest: string, raw: bool, lenient: bool)
    ensures ReadString(DumpChars("", raw) + "\"" + rest, lenient) == Some(("", rest))
  {
    assert DumpChars("", raw) + "\"" + rest == "\"" + rest;
  }

  lemma {:induction false} StringReadBack(s: string, rest: string, raw: bool, lenient: bool)
    requires raw ==> lenient
    ensures ReadString(DumpChars(s, raw) + "\"" + rest, lenient) == Some((s, rest))
  {
    if s == "" {
      EmptyReadBack(rest, raw, lenient);
    } else {
      StringReadBack(s[1..], rest, raw, lenient);
      CharReadBack(s[0], DumpChars(s[1..], raw) + "\"" + rest, raw, lenient);
      DumpCharsText(s, rest, raw);
      assert s == [s[0]] + s[1..];
    }
  }

  lemma {:induction false} NumberSpanStops(a: string, b: string)
    requires NumberSpan(a) == |a| && (b == "" || !IsNumberChar(b[0]))
    ensures NumberSpan(a + b) == |a|
  {
    if a == "" {
      assert a + b == b;
    } else {
      assert (a + b)[1..] == a[1..] + b;
      NumberSpanStops(a[1..], b);
    }
  }

  /** How a written value starts: never with space, and never with a bracket that closes. */
  lemma DumpStart(v: Json, raw: bool)
    requires Writable(v)
    ensures Dump(v, raw) != ""
    ensures var c := Dump(v, raw)[0]; !IsSpace(c) && c != ']' && c != '}'
  {
  }

  lemma AtomReadBack(v: Json, rest: string, raw: bool)
    requires Writable(v) && (v.Null? || v.Bool? || v.Num?)
    requires rest == "" || !IsNumberChar(rest[0])
    ensures ReadAtom(Dump(v, raw) + rest) == Some((v, rest))
    ensures var c := Dump(v, raw)[0]; c != '\"' && c != '[' && c != '{'
  {
    if v.Num? {
      NumberSpanStops(v.text, rest);
      var s := v.text + rest;
      assert s[..|v.text|] == v.text && s[|v.text|..] == rest;
      assert IsNumberChar(s[0]);
      assert s[0] != 'n' && s[0] != 't' && s[0] != 'f';
    } else if v.Null? {
      assert ("null" + rest)[4..] == rest;
    } else if v.b {
      assert ("true" + rest)[4..] == rest;
      assert ("true" + rest)[0] == 't';
    } else {
      var s := "false" + rest;
      assert s[5..] == rest && s[0] == 'f';
    }
  }

  lemma NoSpaceToSkip(s: string, t: string)
    requires s != "" && s[1..] == t && t != "" && !IsSpace(t[0])
    ensures SkipSpace(s[1..]) == t
  {
  }

  lemma OneSpaceToSkip(s: string, t: string)
    requires |s| >= 2 && !IsSpace(s[0]) && s[1] == ' ' && s[2..] == t && t != "" && !IsSpace(t[0])
    ensures SkipSpace(s) == s && SkipSpace(s[1..]) == t
  {
    assert s[1..][1..] == t;
  }

  lemma StrReadBack(t: string, rest: string, raw: bool, lenient: bool)
    requires raw ==> lenient
    ensures ReadValue(Dump(Str(t), raw) + rest, lenient) == Some((Str(t), rest))
  {
    StringReadBack(t, rest, raw, lenient);
    var s := Dump(Str(t), raw) + rest;
    assert s[1..] == DumpChars(t, raw) + "\"" + rest;
  }

  /** Reading what `Dump` wrote gives the value back, whatever follows it. */
  lemma {:induction false} ValueReadBack(v: Json, rest: string, raw: bool, lenient: bool)
    requires Writable(v) && (raw ==> lenient)
    requires rest == "" || !IsNumberChar(rest[0])
    ensures ReadValue(Dump(v, raw) + rest, lenient) == Some((v, rest))
    decreases v, 2
  {
    var s := Dump(v, raw) + rest;
    match v {
      case Str(t) =>
        StrReadBack(t, rest, raw, lenient);
      case Arr(items) =>
        ArrayReadBack(items, rest, raw, lenient);
      case Obj(fields) =>
        ObjectReadBack(fields, rest, raw, lenient);
      case _ =>
        AtomReadBack(v, rest, raw);
        assert s[0] == Dump(v, raw)[0];
    }
  }

  lemma {:induction false} ArrayReadBack(items: seq<Json>, rest: string, raw: bool, lenient: bool)
    requires (forall x | x in items :: Writable(x)) && (raw ==> lenient)
    ensures ReadValue(Dump(Arr(items), raw) + rest, lenient) == Some((Arr(items), rest))
    decreases items, 1
  {
    var s := Dump(Arr(items), raw) + rest;
    if items == [] {
      NoSpaceToSkip(s, "]" + rest);
      assert ("]" + rest)[1..] == rest;
    } else {
      var body := DumpItems(items, raw) + rest;
      DumpStart(items[0], raw);
      assert body[0] == Dump(items[0], raw)[0];
      NoSpaceToSkip(s, body);
      ItemsReadBack(items, rest, raw, lenient);
      assert ReadValue(s, lenient) == ReadArray(body, lenient);
    }
  }

  lemma {:induction false} ObjectReadBack(fields: seq<Field>, rest: string, raw: bool, lenient: bool)
    requires (forall f | f in fields :: Writable(f.value)) && (raw ==> lenient)
    ensures ReadValue(Dump(Obj(fields), raw) + rest, lenient) == Some((Obj(fields), rest))
    decreases fields, 1
  {
    var s := Dump(Obj(fields), raw) + rest;
    if fields == [] {
      NoSpaceToSkip(s, "}" + rest);
      assert ("}" + rest)[1..] == rest;
    } else {
      var body := DumpFields(fields, raw) + rest;
      assert body[0] == '\"';
      NoSpaceToSkip(s, body);
      FieldsReadBack(fields, rest, raw, lenient);
      assert ReadValue(s, lenient) == ReadObject(body, lenient);
    }
  }

  /** One more element, and one more member. */
  lemma ItemsCons(s: string, v: Json, more: string, items: seq<Json>, rest: string, lenient: bool)
    requires ReadValue(s, lenient) == Some((v, ", " + more))
    requires more != "" && !IsSpace(more[0]) && ReadItems(more, lenient) == Some((items, rest))
    ensures ReadItems(s, lenient) == Some(([v] + items, rest))
  {
    OneSpaceToSkip(", " + more, more);
  }

  lemma FieldsCons(s: string, f: Field, more: string, fields: seq<Field>, rest: string, lenient: bool)
    requires ReadField(s, lenient) == Some((f, ", " + more))
    requires more != "" && !IsSpace(more[0]) && ReadFields(more, lenient) == Some((fields, rest))
    ensures ReadFields(s, lenient) == Some(([f] + fields, rest))
  {
    OneSpaceToSkip(", " + more, more);
  }

  lemma ItemsLast(s: string, v: Json, rest: string, lenient: bool)
    requires ReadValue(s, lenient) == Some((v, "]" + rest))
    ensures ReadItems(s, lenient) == Some(([v], rest))
  {
    assert ("]" + rest)[1..] == rest;
  }

  lemma DumpItemsText(items: seq<Json>, rest: string, raw: bool)
    requires items != []
    ensures DumpItems(items, raw) + rest ==
              Dump(items[0], raw) + if |items| == 1 then "]" + rest else ", " + (DumpItems(items[1..], raw) + rest)
  {
  }

  lemma {:induction false} ItemsReadBack(items: seq<Json>, rest: string, raw: bool, lenient: bool)
    requires items != [] && (forall x | x in items :: Writable(x)) && (raw ==> lenient)
    ensures ReadItems(DumpItems(items, raw) + rest, lenient) == Some((items, rest))
    decreases items, 0
  {
    var v := items[0];
    DumpItemsText(items, rest, raw);
    if |items| == 1 {
      ValueReadBack(v, "]" + rest, raw, lenient);
      ItemsLast(Dump(v, raw) + ("]" + rest), v, rest, lenient);
      assert items == [v];
    } else {
      var more := DumpItems(items[1..], raw) + rest;
      ValueReadBack(v, ", " + more, raw, lenient);
      ItemsReadBack(items[1..], rest, raw, lenient);
      ItemsStart(items[1..], rest, raw);
      ItemsCons(Dump(v, raw) + (", " + more), v, more, items[1..], rest, lenient);
      assert items == [v] + items[1..];
    }
  }

  lemma ItemsStart(items: seq<Json>, rest: string, raw: bool)
    requires items != [] && Writable(items[0])
    ensures var more := DumpItems(items, raw) + rest; more != "" && !IsSpace(more[0])
  {
    DumpStart(items[0], raw);
    assert (DumpItems(items, raw) + rest)[0] == Dump(items[0], raw)[0];
  }

  lemma FieldMade(s: string, name: string, value: string, v: Json, rest: string, lenient: bool)
    requires s != "" && s[0] == '\"' && ReadString(s[1..], lenient) == Some((name, ": " + value))
    requires value != "" && !IsSpace(value[0]) && ReadValue(value, lenient) == Some((v, rest))
    ensures ReadField(s, lenient) == Some((Field(name, v), rest))
  {
    OneSpaceToSkip(": " + value, value);
  }

  function FieldText(f: Field, raw: bool): string { DumpString(f.name, raw) + ": " + Dump(f.value, raw) }

  lemma FieldTextTail(f: Field, rest: string, raw: bool)
    ensures var s := FieldText(f, raw) + rest;
            s[0] == '\"' && s[1..] == DumpChars(f.name, raw) + "\"" + (": " + (Dump(f.value, raw) + rest))
  {
  }

  lemma {:induction false} FieldReadBack(f: Field, rest: string, raw: bool, lenient: bool)
    requires Writable(f.value) && (raw ==> lenient)
    requires rest != "" && !IsNumberChar(rest[0])
    ensures ReadField(FieldText(f, raw) + rest, lenient) == Some((f, rest))
    decreases f, 0
  {
    var value := Dump(f.value, raw) + rest;
    FieldTextTail(f, rest, raw);
    StringReadBack(f.name, ": " + value, raw, lenient);
    DumpStart(f.value, raw);
    assert value[0] == Dump(f.value, raw)[0];
    ValueReadBack(f.value, rest, raw, lenient);
    FieldMade(FieldText(f, raw) + rest, f.name, value, f.value, rest, lenient);
  }

  lemma FieldsLast(s: string, f: Field, rest: string, lenient: bool)
    requires ReadField(s, lenient) == Some((f, "}" + rest))
    ensures ReadFields(s, lenient) == Some(([f], rest))
  {
    assert ("}" + rest)[1..] == rest;
  }

  lemma DumpFieldsText(fields: seq<Field>, rest: string, raw: bool)
    requires fields != []
    ensures DumpFields(fields, raw) + rest ==
              FieldText(fields[0], raw) + if |fields| == 1 then "}" + rest
                                          else ", " + (DumpFields(fields[1..], raw) + rest)
    ensures (DumpFields(fields, raw) + rest)[0] == '\"'
  {
  }

  lemma {:induction false} FieldsReadBack(fields: seq<Field>, rest: string, raw: bool, lenient: bool)
    requires fields != [] && (forall f | f in fields :: Writable(f.value)) && (raw ==> lenient)
    ensures ReadFields(DumpFields(fields, raw) + rest, lenient) == Some((fields, rest))
    decreases fields, 0
  {
    var f := fields[0];
    if |fields| == 1 {
      LastFieldReadBack(f, rest, raw, lenient);
      OneFieldText(fields, rest, raw);
    } else {
      var more := DumpFields(fields[1..], raw) + rest;
      FieldsReadBack(fields[1..], rest, raw, lenient);
      DumpFieldsStart(fields[1..], rest, raw);
      FieldsStep(f, more, fields[1..], rest, raw, lenient);
      MoreFieldsText(fields, rest, raw);
    }
  }

  lemma OneFieldText(fields: seq<Field>, rest: string, raw: bool)
    requires |fields| == 1
    ensures DumpFields(fields, raw) + rest == FieldText(fields[0], raw) + ("}" + rest) && fields == [fields[0]]
  {
    DumpFieldsText(fields, rest, raw);
  }

  lemma MoreFieldsText(fields: seq<Field>, rest: string, raw: bool)
    requires |fields| > 1
    ensures DumpFields(fields, raw) + rest == FieldText(fields[0], raw) + (", " + (DumpFields(fields[1..], raw) + rest))
    ensures fields == [fields[0]] + fields[1..]
  {
    DumpFieldsText(fields, rest, raw);
  }

  lemma DumpFieldsStart(fields: seq<Field>, rest: string, raw: bool)
    requires fields != []
    ensures var s := DumpFields(fields, raw) + rest; s != "" && s[0] == '\"'
  {
    DumpFieldsText(fields, rest, raw);
  }

  lemma {:induction false} LastFieldReadBack(f: Field, rest: string, raw: bool, lenient: bool)
    requires Writable(f.value) && (raw ==> lenient)
    ensures ReadFields(FieldText(f, raw) + ("}" + rest), lenient) == Some(([f], rest))
    decreases f, 1
  {
    FieldReadBack(f, "}" + rest, raw, lenient);
    FieldsLast(FieldText(f, raw) + ("}" + rest), f, rest, lenient);
  }

  lemma {:induction false} FieldsStep(f: Field, more: string, fields: seq<Field>, rest: string, raw: bool,
                                      lenient: bool)
    requires Writable(f.value) && (raw ==> lenient)
    requires more != "" && more[0] == '\"' && ReadFields(more, lenient) == Some((fields, rest))
    ensures ReadFields(FieldText(f, raw) + (", " + more), lenient) == Some(([f] + fields, rest))
    decreases f, 1
  {
    FieldReadBack(f, ", " + more, raw, lenient);
    FieldsCons(FieldText(f, raw) + (", " + more), f, more, fields, rest, lenient);
  }

  /** json.loads(json.dumps(v)) == v, and the lenient reader also takes raw line feeds. */
  lemma LoadsDumps(v: Json, raw: bool, lenient: bool)
    requires Writable(v) && (raw ==> lenient)
    ensures Loads(Dump(v, raw), lenient) == Some(v)
  {
    DumpStart(v, raw);
    ValueReadBack(v, "", raw, lenient);
    assert Dump(v, raw) + "" == Dump(v, raw);
  }
}
