/** What a cursor looks like on the wire, and which texts are refused as cursors. */
module CursorFormat {
  import opened Cursor
  import opened Json
  import opened Options
  import opened Text
  import B = Base64Url

  // ---------- what is written ----------

  predicate Printable(s: string) { forall c | c in s :: ' ' <= c <= '~' && c != '\"' && c != '\\' }

  lemma {:induction false} PrintableAsIs(s: string)
    requires Printable(s)
    ensures DumpChars(s, false) == s
  {
    if s != "" {
      assert s[0] in s && forall c | c in s[1..] :: c in s;
      PrintableAsIs(s[1..]);
      assert Escape(s[0], false) == [s[0]];
    }
  }

  lemma IdIsPrintable(id: Id)
    requires ValidId(id)
    ensures Printable(IdText(id))
  {
    match id {
      case Uuid(h) =>
        forall c | c in UuidText(h) ensures c == '-' || c in h {}
      case Int(n) =>
        assert Printable(NatText(if n < 0 then -n else n));
    }
  }

  /** An integer is written without leading zeros, and with a minus sign only if it is negative. */
  lemma {:induction false} NatIsCanonical(n: nat)
    ensures NatText(n)[0] == '0' ==> n == 0 && NatText(n) == "0"
    ensures IntText(n) == NatText(n) && (n > 0 ==> IntText(0 - n) == "-" + NatText(n))
  {
    if n >= 10 {
      NatIsCanonical(n / 10);
      assert NatText(n)[0] == NatText(n / 10)[0];
    }
  }

  lemma Ascii(s: string)
    requires Printable(s)
    ensures forall c | c in s :: c as int < 128
  {
  }

  lemma TwoMembers(name: string, v: Json, other: string, w: Json)
    ensures Dump(Obj([Field(name, v), Field(other, w)]), false) ==
              "{" + (DumpString(name, false) + ": " + Dump(v, false)
                     + (", " + (DumpString(other, false) + ": " + Dump(w, false) + "}")))
  {
    var fields := [Field(name, v), Field(other, w)];
    assert fields[1..] == [Field(other, w)];
    assert DumpFields(fields[1..], false) == DumpString(other, false) + ": " + Dump(w, false) + "}";
    assert DumpFields(fields, false) ==
             DumpString(name, false) + ": " + Dump(v, false) + (", " + DumpFields(fields[1..], false));
  }

  lemma DocumentText(idText: string, sortText: string)
    ensures "{" + ("\"id\"" + ": " + ("\"" + idText + "\"") + (", " + ("\"sort\"" + ": " + sortText + "}")))
         == "{\"id\": \"" + idText + "\", \"sort\": " + sortText + "}"
  {
  }

  lemma Quoted(s: string)
    requires Printable(s)
    ensures DumpString(s, false) == "\"" + s + "\""
  {
    PrintableAsIs(s);
  }

  lemma DocumentWritten(id: Id, sort: Json)
    requires ValidId(id)
    ensures Dump(Document(id, sort), false) == "{\"id\": \"" + IdText(id) + "\", \"sort\": " + Dump(sort, false) + "}"
  {
    IdIsPrintable(id);
    Quoted(IdText(id));
    Quoted("id");
    Quoted("sort");
    TwoMembers("id", Str(IdText(id)), "sort", sort);
    assert "\"" + "id" + "\"" == "\"id\"" && "\"" + "sort" + "\"" == "\"sort\"";
    DocumentText(IdText(id), Dump(sort, false));
  }

  /** The two members, the id always as a string, with `json.dumps`'s separators, in URL-safe base64. */
  lemma WireText(id: Id, sort: Json)
    requires ValidId(id) && IsSortKey(sort)
    ensures var text := "{\"id\": \"" + IdText(id) + "\", \"sort\": " + Dump(sort, false) + "}";
            (forall c | c in text :: c as int < 128) && EncodeCursor(id, sort) == B.Encode(ToBytes(text))
  {
    DumpIsAscii(Document(id, sort));
    DocumentWritten(id, sort);
  }

  // ---------- what is refused ----------

  /** Text that is not base64 is an invalid cursor. */
  lemma NotBase64(cursor: string)
    requires !B.IsBase64(cursor)
    ensures DecodeCursor(cursor) == InvalidCursor
  {
    B.DecodeIff(cursor);
  }

  /** The last member of a name counts. */
  lemma {:induction false} LastMember(fields: seq<Field>, name: string)
    ensures Lookup(fields, name).None? <==> forall f | f in fields :: f.name != name
    ensures forall i |
              0 <= i < |fields| && fields[i].name == name && (forall j | i < j < |fields| :: fields[j].name != name) ::
              Lookup(fields, name) == Some(fields[i].value)
  {
    if fields != [] {
      var rest := fields[..|fields| - 1];
      assert fields == rest + [fields[|fields| - 1]];
      LastMember(rest, name);
    }
  }

  predicate Digits(s: string) { s != "" && forall i | 0 <= i < |s| :: '0' <= s[i] <= '9' }

  predicate IsDecimal(s: string) { Digits(s) || (s != "" && (s[0] == '-' || s[0] == '+') && Digits(s[1..])) }

  lemma {:induction false} NatIff(s: string)
    ensures ParseNat(s).Some? <==> Digits(s)
  {
    if |s| > 1 {
      NatIff(s[..|s| - 1]);
      assert s == s[..|s| - 1] + [s[|s| - 1]];
    }
  }

  lemma IntIff(s: string)
    ensures ParseInt(s).Some? <==> IsDecimal(s)
  {
    NatIff(s);
    if s != "" {
      NatIff(s[1..]);
    }
  }

  ghost predicate IsUuidText(s: string) { exists h :: IsUuidHex(h) && s == UuidText(h) }

  ghost predicate Has(fields: seq<Field>, name: string, v: Json) {
    exists i | 0 <= i < |fields| ::
      fields[i] == Field(name, v) && forall j | i < j < |fields| :: fields[j].name != name
  }

  /** What a cursor with this id member and this sort member decodes to. */
  ghost predicate IdOutcome(id: Json, sort: Json, r: Result<(Id, Json)>) {
    && (id.Str? && !IsUuidText(id.s) && !IsDecimal(id.s) ==> r == InvalidCursor)
    && (forall h | IsUuidHex(h) && id == Str(UuidText(h)) :: r == Ok((Uuid(h), sort)))
    && (forall n | id == Str(IntText(n)) || id == Num(IntText(n)) :: r == Ok((Int(n), sort)))
    && (id.Null? || id.Arr? || id.Obj? ==> r == Uncaught)
  }

  lemma IntTextReads(n: int)
    ensures ParseInt(IntText(n)) == Some(n)
  {
    ParseNatText(if n < 0 then -n else n);
    if n < 0 {
      assert IntText(n)[1..] == NatText(-n);
    } else {
      assert IntText(n)[0] in NatText(n);
    }
  }

  lemma LookedUp(fields: seq<Field>, id: Json, sort: Json)
    requires Has(fields, "id", id) && Has(fields, "sort", sort)
    ensures DecodeFields(fields) ==
              match id
              case Str(raw) => (match ReadId(raw) case Some(x) => Ok((x, sort)) case None => InvalidCursor)
              case Num(text) => (match ParseInt(text) case Some(n) => Ok((Int(n), sort)) case None => Uncaught)
              case _ => Uncaught
  {
    LastMember(fields, "id");
    LastMember(fields, "sort");
  }

  lemma Lacking(fields: seq<Field>)
    requires (forall f | f in fields :: f.name != "id") || (forall f | f in fields :: f.name != "sort")
    ensures DecodeFields(fields) == InvalidCursor
  {
    LastMember(fields, "id");
    LastMember(fields, "sort");
  }

  lemma IdDecodes(fields: seq<Field>, id: Json, sort: Json)
    requires Has(fields, "id", id) && Has(fields, "sort", sort)
    ensures IdOutcome(id, sort, DecodeFields(fields))
  {
    LookedUp(fields, id, sort);
    if id.Str? {
      ReadIdOutcome(id.s);
    }
    forall n | id == Num(IntText(n)) ensures DecodeFields(fields) == Ok((Int(n), sort)) {
      IntTextReads(n);
    }
  }

  /** A text that is not a JSON object is an invalid cursor. */
  lemma NotAnObject(text: string)
    requires (forall c | c in text :: c as int < 128)
    requires Loads(text, false).None? || !Loads(text, false).value.Obj?
    ensures DecodeCursor(B.Encode(ToBytes(text))) == InvalidCursor
  {
    B.DecodeEncode(ToBytes(text));
    BytesRoundTrip(text);
  }

  /**
   An object without an id or without a sort member is an invalid cursor, and so is one whose (last) id
   is a string that is neither a UUID in its canonical form nor a decimal integer; with such an id, or an
   integer, it is that id with the (last) sort member.
   */
  lemma ObjectOutcome(text: string, fields: seq<Field>, id: Json, sort: Json)
    requires (forall c | c in text :: c as int < 128) && Loads(text, false) == Some(Obj(fields))
    ensures var r := DecodeCursor(B.Encode(ToBytes(text)));
            && ((forall f | f in fields :: f.name != "id") || (forall f | f in fields :: f.name != "sort") ==>
                  r == InvalidCursor)
            && (Has(fields, "id", id) && Has(fields, "sort", sort) ==> IdOutcome(id, sort, r))
  {
    B.DecodeEncode(ToBytes(text));
    BytesRoundTrip(text);
    if (forall f | f in fields :: f.name != "id") || (forall f | f in fields :: f.name != "sort") {
      Lacking(fields);
    }
    if Has(fields, "id", id) && Has(fields, "sort", sort) {
      IdDecodes(fields, id, sort);
    }
  }

  lemma ReadIdOutcome(raw: string)
    ensures ReadId(raw).None? <==> !IsUuidText(raw) && !IsDecimal(raw)
    ensures forall h | IsUuidHex(h) && raw == UuidText(h) :: ReadId(raw) == Some(Uuid(h))
    ensures forall n | raw == IntText(n) :: ReadId(raw) == Some(Int(n))
  {
    IntIff(raw);
    forall h | IsUuidHex(h) && raw == UuidText(h) ensures ReadId(raw) == Some(Uuid(h)) {
      UuidRoundTrip(h);
    }
    forall n | raw == IntText(n) ensures ReadId(raw) == Some(Int(n)) {
      IntRoundTrip(n);
    }
  }
}
