/**
 Pagination cursors: base64 of the JSON object {"id": "...", "sort": ...}.

 Ids are UUIDs (entities) or integers (classifications), both written as text; decoding has
 to tell them apart.
 */
module Cursor {
  import opened Json
  import opened Options
  import opened Text
  import Base64Url

  /** A UUID by its 32 lower-case hexadecimal digits, or an integer key. */
  datatype Id = Uuid(hex: string) | Int(n: int)

  /** What a request gets: an answer, a 400 InvalidCursor, or an exception nobody catches. */
  datatype Result<+T> = Ok(value: T) | InvalidCursor | Uncaught

  // ---------- ids as text ----------

  predicate IsLowerHex(c: char) { '0' <= c <= '9' || 'a' <= c <= 'f' }

  predicate IsUuidHex(h: string) { |h| == 32 && forall c | c in h :: IsLowerHex(c) }

  predicate ValidId(id: Id) { id.Uuid? ==> IsUuidHex(id.hex) }

  function UuidText(h: string): string
    requires |h| == 32
  {
    h[..8] + "-" + h[8..12] + "-" + h[12..16] + "-" + h[16..20] + "-" + h[20..]
  }

  function IdText(id: Id): string
    requires ValidId(id)
  {
    match id
    case Uuid(h) => UuidText(h)
    case Int(n) => IntText(n)
  }

  function WithoutHyphens(s: string): string {
    if s == "" then ""
    else if s[0] == '-' then WithoutHyphens(s[1..])
    else [s[0]] + WithoutHyphens(s[1..])
  }

  /** `UUID(raw)`, which accepts hyphens anywhere, and only then `str(uuid) == raw`. */
  function ReadId(raw: string): Option<Id> {
    var h := WithoutHyphens(raw);
    if IsUuidHex(h) && UuidText(h) == raw then Some(Uuid(h))
    else
      match ParseInt(raw)
      case None => None
      case Some(n) => Some(Int(n))
  }

  lemma {:induction false} WithoutHyphensConcat(a: string, b: string)
    ensures WithoutHyphens(a + b) == WithoutHyphens(a) + WithoutHyphens(b)
  {
    if a == "" {
      assert a + b == b;
    } else {
      WithoutHyphensConcat(a[1..], b);
      assert (a + b)[1..] == a[1..] + b;
    }
  }

  lemma {:induction false} NoHyphenToDrop(s: string)
    requires '-' !in s
    ensures WithoutHyphens(s) == s
  {
    if s != "" {
      assert s[0] in s;
      assert forall c | c in s[1..] :: c in s;
      NoHyphenToDrop(s[1..]);
    }
  }

  lemma DropGroup(a: string, b: string)
    requires '-' !in a
    ensures WithoutHyphens(a + "-" + b) == a + WithoutHyphens(b)
  {
    WithoutHyphensConcat(a + "-", b);
    WithoutHyphensConcat(a, "-");
    NoHyphenToDrop(a);
  }

  lemma GroupsDropHyphens(a: string, b: string, c: string, d: string, e: string)
    requires '-' !in a && '-' !in b && '-' !in c && '-' !in d && '-' !in e
    ensures WithoutHyphens(a + "-" + b + "-" + c + "-" + d + "-" + e) == a + (b + (c + (d + e)))
  {
    NoHyphenToDrop(e);
    DropGroup(d, e);
    DropGroup(c, d + "-" + e);
    DropGroup(b, c + "-" + (d + "-" + e));
    DropGroup(a, b + "-" + (c + "-" + (d + "-" + e)));
    assert a + "-" + b + "-" + c + "-" + d + "-" + e == a + "-" + (b + "-" + (c + "-" + (d + "-" + e)));
  }

  lemma NoHyphenIn(h: string, lo: nat, hi: nat)
    requires IsUuidHex(h) && lo <= hi <= 32
    ensures '-' !in h[lo..hi]
  {
    forall c | c in h[lo..hi] ensures c in h {}
  }

  lemma UuidTextDropsHyphens(h: string)
    requires IsUuidHex(h)
    ensures WithoutHyphens(UuidText(h)) == h
  {
    NoHyphenIn(h, 0, 8);
    NoHyphenIn(h, 8, 12);
    NoHyphenIn(h, 12, 16);
    NoHyphenIn(h, 16, 20);
    NoHyphenIn(h, 20, 32);
    assert h[..8] == h[0..8] && h[20..] == h[20..32];
    GroupsDropHyphens(h[..8], h[8..12], h[12..16], h[16..20], h[20..]);
    assert h == h[..8] + (h[8..12] + (h[12..16] + (h[16..20] + h[20..])));
  }

  lemma UuidRoundTrip(h: string)
    requires IsUuidHex(h)
    ensures ReadId(UuidText(h)) == Some(Uuid(h))
  {
    UuidTextDropsHyphens(h);
  }

  lemma {:induction false} ParseNatText(n: nat)
    ensures ParseNat(NatText(n)) == Some(n)
  {
    if n >= 10 {
      ParseNatText(n / 10);
      assert NatText(n)[..|NatText(n)| - 1] == NatText(n / 10);
    }
  }

  /** However many digits it has, an integer is never taken for a UUID. */
  lemma IntRoundTrip(n: int)
    ensures ReadId(IntText(n)) == Some(Int(n))
  {
    var raw := IntText(n);
    ParseNatText(if n < 0 then -n else n);
    if n < 0 {
      assert raw[1..] == NatText(-n);
    } else {
      assert raw[0] in NatText(n);
    }
    assert forall i | 1 <= i < |raw| :: IsDigit(raw[i]) by {
      forall i | 1 <= i < |raw| ensures IsDigit(raw[i]) {
        assert raw[i] in NatText(if n < 0 then -n else n);
      }
    }
    if |WithoutHyphens(raw)| == 32 {
      UuidTextHyphen(WithoutHyphens(raw));
    }
  }

  lemma UuidTextHyphen(h: string)
    requires |h| == 32
    ensures |UuidText(h)| == 36 && UuidText(h)[8] == '-'
  {
  }

  lemma IdRoundTrip(id: Id)
    requires ValidId(id)
    ensures ReadId(IdText(id)) == Some(id)
  {
    match id {
      case Uuid(h) => UuidRoundTrip(h);
      case Int(n) => IntRoundTrip(n);
    }
  }

  // ---------- ids in order ----------

  function HexNumber(h: string): nat
    requires forall c | c in h :: IsLowerHex(c)
  {
    if h == "" then 0
    else
      assert h[|h| - 1] in h && IsLowerHex(h[|h| - 1]);
      16 * HexNumber(h[..|h| - 1]) + HexValue(h[|h| - 1]).value
  }

  /** The position of an id in ascending id order. */
  function IdNumber(id: Id): int {
    match id
    case Uuid(h) => if IsUuidHex(h) then HexNumber(h) else -1
    case Int(n) => n
  }

  lemma {:induction false} HexNumberInjective(a: string, b: string)
    requires |a| == |b| && (forall c | c in a :: IsLowerHex(c)) && (forall c | c in b :: IsLowerHex(c))
    requires HexNumber(a) == HexNumber(b)
    ensures a == b
  {
    if a != "" {
      var x, y := a[|a| - 1], b[|b| - 1];
      assert x in a && y in b;
      assert HexValue(x).value == HexNumber(a) % 16 && HexValue(y).value == HexNumber(b) % 16;
      assert x == y;
      HexNumberInjective(a[..|a| - 1], b[..|b| - 1]);
      assert a == a[..|a| - 1] + [x] && b == b[..|b| - 1] + [y];
    }
  }

  lemma IdNumberInjective(a: Id, b: Id)
    requires ValidId(a) && ValidId(b) && a.Uuid? == b.Uuid? && IdNumber(a) == IdNumber(b)
    ensures a == b
  {
    if a.Uuid? {
      HexNumberInjective(a.hex, b.hex);
    }
  }

  // ---------- cursors ----------

  function AsciiByte(c: char): Base64Url.Byte
    requires c as int < 128
  {
    c as int
  }

  /** `str.encode` of the ASCII text that `json.dumps` writes. */
  function ToBytes(s: string): seq<Base64Url.Byte>
    requires forall c | c in s :: c as int < 128
  {
    seq<Base64Url.Byte>(|s|, i requires 0 <= i < |s| => assert s[i] in s; AsciiByte(s[i]))
  }

  function FromBytes(b: seq<Base64Url.Byte>): Option<string> {
    if exists x | x in b :: x >= 128 then None
    else Some(seq(|b|, i requires 0 <= i < |b| => b[i] as char))
  }

  function Document(id: Id, sort: Json): Json
    requires ValidId(id)
  {
    Obj([Field("id", Str(IdText(id))), Field("sort", sort)])
  }

  /** A sort key is a string or a number. */
  predicate IsSortKey(sort: Json) {
    sort.Str? || (sort.Num? && Writable(sort))
  }

  lemma HexIsAscii(n: nat)
    requires n < 0x1_0000
    ensures forall c | c in Hex4(n) :: c as int < 128
  {
  }

  lemma {:induction false} DumpCharsIsAscii(s: string)
    ensures forall c | c in DumpChars(s, false) :: c as int < 128
  {
    if s != "" {
      DumpCharsIsAscii(s[1..]);
      var c := s[0];
      if c as int < 0x1_0000 {
        HexIsAscii(c as int);
      } else {
        HexIsAscii(HighUnit(c));
        HexIsAscii(LowUnit(c));
      }
    }
  }

  lemma {:induction false} NumberIsAscii(s: string)
    requires NumberSpan(s) == |s|
    ensures forall c | c in s :: c as int < 128
  {
    if s != "" {
      NumberIsAscii(s[1..]);
      assert s == [s[0]] + s[1..];
    }
  }

  /** Everything `json.dumps` writes is ASCII. */
  lemma {:induction false} DumpIsAscii(v: Json)
    requires Writable(v)
    ensures forall c | c in Dump(v, false) :: c as int < 128
    decreases v, 1
  {
    match v {
      case Num(text) => NumberIsAscii(text);
      case Str(s) => DumpCharsIsAscii(s);
      case Arr(items) => if items != [] { ItemsAreAscii(items); }
      case Obj(fields) => if fields != [] { FieldsAreAscii(fields); }
      case _ =>
    }
  }

  lemma {:induction false} ItemsAreAscii(items: seq<Json>)
    requires items != [] && forall x | x in items :: Writable(x)
    ensures forall c | c in DumpItems(items, false) :: c as int < 128
    decreases items, 0
  {
    DumpIsAscii(items[0]);
    if |items| > 1 {
      ItemsAreAscii(items[1..]);
    }
  }

  lemma {:induction false} FieldsAreAscii(fields: seq<Field>)
    requires fields != [] && forall f | f in fields :: Writable(f.value)
    ensures forall c | c in DumpFields(fields, false) :: c as int < 128
    decreases fields, 0
  {
    DumpCharsIsAscii(fields[0].name);
    DumpIsAscii(fields[0].value);
    if |fields| > 1 {
      FieldsAreAscii(fields[1..]);
    }
  }

  function EncodeCursor(id: Id, sort: Json): string
    requires ValidId(id) && IsSortKey(sort)
  {
    DumpIsAscii(Document(id, sort));
    Base64Url.Encode(ToBytes(Dump(Document(id, sort), false)))
  }

  /** The last member of that name, as a Python dict keeps it. */
  function Lookup(fields: seq<Field>, name: string): Option<Json> {
    if fields == [] then None
    else if fields[|fields| - 1].name == name then Some(fields[|fields| - 1].value)
    else Lookup(fields[..|fields| - 1], name)
  }

  function DecodeCursor(cursor: string): Result<(Id, Json)> {
    match Base64Url.Decode(cursor)
    case None => InvalidCursor
    case Some(bytes) =>
      match FromBytes(bytes)
      case None => InvalidCursor
      case Some(text) =>
        match Loads(text, false)
        case Some(Obj(fields)) => DecodeFields(fields)
        case _ => InvalidCursor
  }

  function DecodeFields(fields: seq<Field>): Result<(Id, Json)> {
    match (Lookup(fields, "id"), Lookup(fields, "sort"))
    case (Some(Str(raw)), Some(sort)) =>
      (match ReadId(raw)
       case Some(id) => Ok((id, sort))
       case None => InvalidCursor)
    case (Some(Num(text)), Some(sort)) =>
      (match ParseInt(text)
       case Some(n) => Ok((Int(n), sort))
       case None => Uncaught)
    case (Some(_), Some(_)) => Uncaught
    case _ => InvalidCursor
  }

  lemma BytesRoundTrip(s: string)
    requires forall c | c in s :: c as int < 128
    ensures FromBytes(ToBytes(s)) == Some(s)
  {
    forall i | 0 <= i < |s| ensures ToBytes(s)[i] == s[i] as int < 128 {
      assert s[i] in s;
    }
    assert FromBytes(ToBytes(s)).value == s;
  }

  lemma DocumentDecodes(id: Id, sort: Json)
    requires ValidId(id) && IsSortKey(sort)
    ensures DecodeFields(Document(id, sort).fields) == Ok((id, sort))
  {
    IdRoundTrip(id);
    var fields := Document(id, sort).fields;
    assert fields[..1] == [Field("id", Str(IdText(id)))];
    assert Lookup(fields, "id") == Lookup(fields[..1], "id") == Some(Str(IdText(id)));
  }

  lemma TextDecodes(text: string, fields: seq<Field>)
    requires (forall c | c in text :: c as int < 128) && text != "" && Loads(text, false) == Some(Obj(fields))
    ensures DecodeCursor(Base64Url.Encode(ToBytes(text))) == DecodeFields(fields)
    ensures Base64Url.Encode(ToBytes(text)) != ""
  {
    Base64Url.DecodeEncode(ToBytes(text));
    BytesRoundTrip(text);
    assert |ToBytes(text)| > 0;
  }

  /** decode_cursor(encode_cursor(id, sort)) == (id, sort). */
  lemma CursorRoundTrip(id: Id, sort: Json)
    requires ValidId(id) && IsSortKey(sort)
    ensures DecodeCursor(EncodeCursor(id, sort)) == Ok((id, sort))
    ensures EncodeCursor(id, sort) != ""
  {
    var doc := Document(id, sort);
    DumpIsAscii(doc);
    LoadsDumps(doc, false, false);
    DumpStart(doc, false);
    TextDecodes(Dump(doc, false), doc.fields);
    DocumentDecodes(id, sort);
  }
}
