/**
 When the brace matcher recovers an object from the prose around it.

 The matcher counts braces inside strings too, so it may cut an object short or run past it.
 Reading is shown to need no look-ahead beyond a value's own text; with that, the replies that
 are recovered are told apart exactly, however the object is written.
 */
module ReplyRecovery {
  import opened Json
  import opened JsonText
  import opened Options
  import opened Text
  import opened JsonRepair

  // ---------- a longer text reads the same value ----------

  lemma TailMore(s: string, t: string)
    requires s != ""
    ensures s + t != "" && (s + t)[0] == s[0] && (s + t)[1..] == s[1..] + t
  {
  }

  lemma {:induction false} SkipSpaceMore(s: string, t: string)
    requires SkipSpace(s) != ""
    ensures SkipSpace(s + t) == SkipSpace(s) + t
  {
    if IsSpace(s[0]) {
      SkipSpaceMore(s[1..], t);
      assert (s + t)[1..] == s[1..] + t;
    }
  }

  lemma HexMore(s: string, t: string)
    requires ReadHex4(s).Some?
    ensures ReadHex4(s + t) == ReadHex4(s)
  {
    assert forall i | 0 <= i < 4 :: (s + t)[i] == s[i];
  }

  lemma UnicodeMore(s: string, t: string)
    requires ReadUnicode(s).Some?
    ensures ReadUnicode(s + t) == ReadUnicode(s)
  {
    HexMore(s, t);
    var n := ReadHex4(s).value;
    if 0xD800 <= n < 0xE000 {
      assert (s + t)[4] == s[4] && (s + t)[5] == s[5];
      assert (s + t)[6..] == s[6..] + t;
      HexMore(s[6..], t);
    }
  }

  lemma UnescapeMore(s: string, t: string)
    requires Unescape(s).Some?
    ensures Unescape(s + t) == Unescape(s)
  {
    assert (s + t)[0] == s[0];
    if LetterMeaning(s[0]).None? {
      assert (s + t)[1..] == s[1..] + t;
      UnicodeMore(s[1..], t);
    }
  }

  lemma {:induction false} StringMore(s: string, t: string, lenient: bool)
    requires ReadString(s, lenient).Some?
    ensures var (x, rest) := ReadString(s, lenient).value; ReadString(s + t, lenient) == Some((x, rest + t))
    decreases |s|
  {
    assert (s + t)[0] == s[0] && (s + t)[1..] == s[1..] + t;
    if s[0] == '\"' {
    } else if s[0] == '\\' {
      UnescapeMore(s[1..], t);
      var n := Unescape(s[1..]).value.1;
      assert (s + t)[1 + n..] == s[1 + n..] + t;
      StringMore(s[1 + n..], t, lenient);
    } else {
      StringMore(s[1..], t, lenient);
    }
  }

  lemma {:induction false} NumberSpanMore(s: string, t: string)
    requires NumberSpan(s) < |s|
    ensures NumberSpan(s + t) == NumberSpan(s)
  {
    if IsNumberChar(s[0]) {
      assert (s + t)[1..] == s[1..] + t;
      NumberSpanMore(s[1..], t);
    }
  }

  lemma WordMore(w: string, s: string, t: string)
    requires w <= s
    ensures w <= s + t && (s + t)[|w|..] == s[|w|..] + t
  {
  }

  lemma NumberMore(s: string, t: string)
    requires s != "" && s[0] != 'n' && s[0] != 't' && s[0] != 'f'
    requires ReadAtom(s).Some? && ReadAtom(s).value.1 != ""
    ensures var (v, rest) := ReadAtom(s).value; ReadAtom(s + t) == Some((v, rest + t))
  {
    var n := NumberSpan(s);
    NumberSpanMore(s, t);
    assert (s + t)[..n] == s[..n] && (s + t)[n..] == s[n..] + t;
    assert (s + t)[0] == s[0];
  }

  lemma AtomMore(s: string, t: string)
    requires ReadAtom(s).Some? && ReadAtom(s).value.1 != ""
    ensures var (v, rest) := ReadAtom(s).value; ReadAtom(s + t) == Some((v, rest + t))
  {
    if "null" <= s {
      WordMore("null", s, t);
    } else if "true" <= s {
      WordMore("true", s, t);
      assert (s + t)[0] == 't';
    } else if "false" <= s {
      WordMore("false", s, t);
      assert (s + t)[0] == 'f';
    } else {
      assert s != "" && IsNumberChar(s[0]);
      NumberMore(s, t);
    }
  }

  /** A value that ends with a delimiter of its own. */
  predicate Delimited(s: string) { s != "" && (s[0] == '\"' || s[0] == '[' || s[0] == '{') }

  /** Reading stops by itself: what follows a value cannot change it. */
  lemma {:induction false} ValueMore(s: string, t: string, lenient: bool)
    requires ReadValue(s, lenient).Some? && (Delimited(s) || ReadValue(s, lenient).value.1 != "")
    ensures var (v, rest) := ReadValue(s, lenient).value; ReadValue(s + t, lenient) == Some((v, rest + t))
    decreases |s|, 0
  {
    assert (s + t)[0] == s[0] && (s + t)[1..] == s[1..] + t;
    if s[0] == '\"' {
      StringMore(s[1..], t, lenient);
    } else if s[0] == '[' {
      SkipSpaceMore(s[1..], t);
      ArrayMore(SkipSpace(s[1..]), t, lenient);
    } else if s[0] == '{' {
      SkipSpaceMore(s[1..], t);
      ObjectMore(SkipSpace(s[1..]), t, lenient);
    } else {
      AtomMore(s, t);
    }
  }

  lemma {:induction false} ArrayMore(s: string, t: string, lenient: bool)
    requires ReadArray(s, lenient).Some?
    ensures var (v, rest) := ReadArray(s, lenient).value; ReadArray(s + t, lenient) == Some((v, rest + t))
    decreases |s|, 2
  {
    if s[0] == ']' {
      assert (s + t)[0] == ']' && (s + t)[1..] == s[1..] + t;
    } else {
      assert (s + t)[0] == s[0];
      ItemsMore(s, t, lenient);
    }
  }

  lemma {:induction false} ObjectMore(s: string, t: string, lenient: bool)
    requires ReadObject(s, lenient).Some?
    ensures var (v, rest) := ReadObject(s, lenient).value; ReadObject(s + t, lenient) == Some((v, rest + t))
    decreases |s|, 2
  {
    if s[0] == '}' {
      assert (s + t)[0] == '}' && (s + t)[1..] == s[1..] + t;
    } else {
      assert (s + t)[0] == s[0];
      FieldsMore(s, t, lenient);
    }
  }

  lemma {:induction false} ItemsMore(s: string, t: string, lenient: bool)
    requires ReadItems(s, lenient).Some?
    ensures var (items, rest) := ReadItems(s, lenient).value; ReadItems(s + t, lenient) == Some((items, rest + t))
    decreases |s|, 1
  {
    var r1 := ReadValue(s, lenient).value.1;
    var r2 := SkipSpace(r1);
    ValueMore(s, t, lenient);
    SkipSpaceMore(r1, t);
    TailMore(r2, t);
    if r2[0] != ']' {
      SkipSpaceMore(r2[1..], t);
      ItemsMore(SkipSpace(r2[1..]), t, lenient);
    }
  }

  lemma {:induction false} FieldsMore(s: string, t: string, lenient: bool)
    requires ReadFields(s, lenient).Some?
    ensures var (fields, rest) := ReadFields(s, lenient).value; ReadFields(s + t, lenient) == Some((fields, rest + t))
    decreases |s|, 1
  {
    var r1 := ReadField(s, lenient).value.1;
    var r2 := SkipSpace(r1);
    FieldMore(s, t, lenient);
    SkipSpaceMore(r1, t);
    TailMore(r2, t);
    if r2[0] != '}' {
      SkipSpaceMore(r2[1..], t);
      FieldsMore(SkipSpace(r2[1..]), t, lenient);
    }
  }

  lemma {:induction false} FieldMore(s: string, t: string, lenient: bool)
    requires ReadField(s, lenient).Some? && ReadField(s, lenient).value.1 != ""
    ensures var (f, rest) := ReadField(s, lenient).value; ReadField(s + t, lenient) == Some((f, rest + t))
    decreases |s|, 0
  {
    assert (s + t)[0] == s[0] && (s + t)[1..] == s[1..] + t;
    StringMore(s[1..], t, lenient);
    var r1 := ReadString(s[1..], lenient).value.1;
    var r2 := SkipSpace(r1);
    SkipSpaceMore(r1, t);
    TailMore(r2, t);
    SkipSpaceMore(r2[1..], t);
    ValueMore(SkipSpace(r2[1..]), t, lenient);
  }

  // ---------- which replies are recovered ----------

  /** `w` is an object's text, in any layout: it starts with a brace and reads as `v` to its end. */
  predicate IsObjectText(w: string, v: Json) {
    w != "" && w[0] == '{' && ReadValue(w, true) == Some((v, ""))
  }

  /** No object text cut off before its end still parses. */
  lemma CutObjectIsLost(w: string, v: Json, k: nat)
    requires IsObjectText(w, v) && k < |w|
    ensures Loads(w[..k], true).None?
  {
    var p, t := w[..k], w[k..];
    assert p + t == w;
    if k > 0 {
      assert p[0] == '{' && SkipSpace(p) == p;
      if ReadValue(p, true).Some? {
        ValueMore(p, t, true);
      }
    }
  }

  /** Text after an object is tolerated exactly when it is space. */
  lemma LongObjectReads(w: string, v: Json, rest: string)
    requires IsObjectText(w, v)
    ensures Loads(w + rest, true) == if SkipSpace(rest) == "" then Some(v) else None
  {
    ValueMore(w, rest, true);
    assert (w + rest)[0] == '{' && SkipSpace(w + rest) == w + rest && "" + rest == rest;
  }

  /** A reply that begins with the object needs no brace matching. */
  lemma LeadingObject(w: string, v: Json, trailing: string)
    requires IsObjectText(w, v)
    ensures ParseReply(w + trailing) == if OnlySpace(trailing) then Parsed(v) else Unparsable
  {
    SpaceIff(trailing);
    assert (w + trailing)[0] == '{';
    TryParseIsLenient(w + trailing);
    LongObjectReads(w, v, trailing);
  }

  lemma FoundAfterProse(prose: string, rest: string)
    requires prose != "" && '{' !in prose && rest != "" && rest[0] == '{'
    ensures ObjectText(prose + rest) == Some(CutAtBrace(rest))
  {
    var s := prose + rest;
    assert s[0] == prose[0] && prose[0] in prose;
    FindFirst(prose, '{', rest);
    assert s[|prose|..] == rest;
  }

  lemma ReplyText(prose: string, w: string, trailing: string)
    requires prose != "" && '{' !in prose && w != "" && w[0] == '{'
    ensures ParseReply(prose + w + trailing) ==
              match Loads(CutAtBrace(w + trailing), true) case Some(v) => Parsed(v) case None => Unparsable
  {
    FoundAfterProse(prose, w + trailing);
    assert prose + w + trailing == prose + (w + trailing);
    TryParseIsLenient(CutAtBrace(w + trailing));
  }

  /** The matcher stops at a closing brace. */
  lemma {:induction false} ClosingEnds(s: string, depth: nat)
    requires Closing(s, depth).Some?
    ensures s[Closing(s, depth).value - 1] == '}'
  {
    if !(s[0] == '}' && depth <= 1) {
      ClosingEnds(s[1..], depth + Brace(s[0]));
    }
  }

  lemma {:induction false} SpaceHasNoBrace(s: string)
    requires SkipSpace(s) == ""
    ensures '}' !in s
  {
    if s != "" {
      SpaceHasNoBrace(s[1..]);
      assert s == [s[0]] + s[1..];
    }
  }

  /** Every proper prefix leaves a brace open. */
  ghost predicate OpenThroughout(w: string) { forall k | 0 < k < |w| :: Depth(w[..k]) > 0 }

  /** Where the matcher stops, if not before the end of `w`. */
  lemma StopsAtOrBeyond(w: string, trailing: string)
    requires w != "" && w[0] == '{'
    ensures var n := Closing(w + trailing, 0);
            && (OpenThroughout(w) <==> n.None? || |w| <= n.value)
            && (OpenThroughout(w) ==> (Depth(w) == 0 <==> n == Some(|w|)))
  {
    var s := w + trailing;
    assert s[0] == '{';
    ClosingIsShortest(s, 0);
    assert forall k | 0 < k <= |w| :: s[..k] == w[..k];
    assert w[..|w|] == w;
    var n := Closing(s, 0);
    if n.Some? && n.value < |w| {
      assert Depth(w[..n.value]) == 0;
    }
  }

  /**
   After prose without an opening brace, an object is recovered exactly when its own braces, those
   in its strings included, stay open up to its end, and either close there or only space follows.
   What comes back is never a different value.
   */
  lemma RecoveredIff(prose: string, w: string, v: Json, trailing: string)
    requires IsObjectText(w, v) && prose != "" && '{' !in prose
    ensures ParseReply(prose + w + trailing) ==
              if OpenThroughout(w) && (Depth(w) == 0 || OnlySpace(trailing)) then Parsed(v) else Unparsable
  {
    SpaceIff(trailing);
    var s := w + trailing;
    ReplyText(prose, w, trailing);
    StopsAtOrBeyond(w, trailing);
    match Closing(s, 0) {
      case None =>
        LongObjectReads(w, v, trailing);
      case Some(n) =>
        if n < |w| {
          assert s[..n] == w[..n];
          CutObjectIsLost(w, v, n);
        } else {
          KeptBeyond(w, v, trailing, n);
        }
    }
  }

  /** What the matcher keeps when it stops at the end of an object or beyond. */
  lemma KeptBeyond(w: string, v: Json, trailing: string, n: nat)
    requires IsObjectText(w, v) && Closing(w + trailing, 0) == Some(n) && |w| <= n
    ensures Loads((w + trailing)[..n], true) == if n == |w| then Some(v) else None
    ensures n > |w| ==> SkipSpace(trailing) != ""
  {
    var s, more := w + trailing, trailing[..n - |w|];
    assert s[..n] == w + more;
    LongObjectReads(w, v, more);
    if n > |w| {
      ClosingEnds(s, 0);
      assert s[n - 1] == more[n - 1 - |w|] == '}' && more[n - 1 - |w|] == trailing[n - 1 - |w|];
      if SkipSpace(more) == "" {
        SpaceHasNoBrace(more);
      }
      if SkipSpace(trailing) == "" {
        SpaceHasNoBrace(trailing);
      }
    }
  }

  // ---------- objects written by json.dumps ----------

  /** What `json.dumps` writes, also with raw line feeds in its strings, is an object text. */
  lemma WrittenObject(fields: seq<Field>, raw: bool)
    requires Writable(Obj(fields))
    ensures IsObjectText(Dump(Obj(fields), raw), Obj(fields))
  {
    ObjectReadBack(fields, "", raw, true);
    assert Dump(Obj(fields), raw) + "" == Dump(Obj(fields), raw);
  }

  lemma BraceFieldText()
    ensures Dump(Obj([Field("a", Str("}"))]), false) == "{\"a\": \"}\"}"
  {
    var fields := [Field("a", Str("}"))];
    assert DumpChars("}", false) == "}" && DumpChars("a", false) == "a" by {
      assert "}"[1..] == "" && "a"[1..] == "";
    }
    assert DumpFields(fields, false) == "\"a\": \"}\"" + "}";
  }

  lemma BraceInStringDepth()
    ensures Depth("{\"a\": \"}") == 0
  {
    var s := "{\"a\": \"}";
    assert s[..7] == "{\"a\": \"" && "{\"a\": \""[1..] == "\"a\": \"";
    NoBracesDepth("\"a\": \"");
    DepthTail("{\"a\": \"");
  }

  /** A closing brace in a string, and the object is lost. */
  lemma BraceInStringLoses(trailing: string)
    ensures IsObjectText("{\"a\": \"}\"}", Obj([Field("a", Str("}"))]))
    ensures ParseReply("x" + "{\"a\": \"}\"}" + trailing) == Unparsable
  {
    var w, v := "{\"a\": \"}\"}", Obj([Field("a", Str("}"))]);
    BraceFieldText();
    WrittenObject([Field("a", Str("}"))], false);
    CutInString(w, v, trailing);
  }

  lemma CutInString(w: string, v: Json, trailing: string)
    requires IsObjectText(w, v) && |w| > 8 && w[..8] == "{\"a\": \"}"
    ensures ParseReply("x" + w + trailing) == Unparsable
  {
    BraceInStringDepth();
    RecoveredIff("x", w, v, trailing);
  }

  lemma {:induction false} NoBracesDepth(s: string)
    requires NoBraces(s)
    ensures Depth(s) == 0
  {
    if s != "" {
      assert s[|s| - 1] in s;
      assert forall c | c in s[..|s| - 1] :: c in s;
      NoBracesDepth(s[..|s| - 1]);
    }
  }

  // ---------- objects without braces in their strings ----------

  predicate NoBraces(s: string) { '{' !in s && '}' !in s }

  /** No string and no member name of the value holds a brace. */
  predicate BraceFree(v: Json)
    decreases v
  {
    match v
    case Str(s) => NoBraces(s)
    case Arr(items) => forall x | x in items :: BraceFree(x)
    case Obj(fields) => forall f | f in fields :: FieldBraceFree(f)
    case _ => true
  }

  predicate FieldBraceFree(f: Field)
    decreases f
  {
    NoBraces(f.name) && BraceFree(f.value)
  }

  /**
   Reading went on from `s` to its end part `rest`; and, if `free`, the matcher went with it from
   `d` open braces to `k`, and stopped there if that is none.
   */
  predicate Passes(s: string, rest: string, d: nat, k: nat, free: bool) {
    && |rest| <= |s| && s[|s| - |rest|..] == rest
    && (free ==> Closing(s, d) == if k == 0 then Some(|s| - |rest|) else Plus(|s| - |rest|, Closing(rest, k)))
  }

  lemma PassesOn(a: string, b: string, c: string, d: nat, m: nat, k: nat, first: bool, second: bool)
    requires Passes(a, b, d, m, first) && Passes(b, c, m, k, second) && m > 0
    ensures Passes(a, c, d, k, first && second)
  {
    assert a[|a| - |c|..] == a[|a| - |b|..][|b| - |c|..];
  }

  lemma CharPasses(s: string, d: nat)
    requires s != "" && (d > 0 || s[0] == '{')
    ensures Passes(s, s[1..], d, d + Brace(s[0]), true)
  {
  }

  lemma {:induction false} PlainPasses(s: string, n: nat, d: nat)
    requires n <= |s| && NoBraces(s[..n]) && d > 0
    ensures Passes(s, s[n..], d, d, true)
  {
    if n > 0 {
      assert s[0] == s[..n][0] && s[0] in s[..n];
      assert forall c | c in s[1..][..n - 1] :: c in s[..n];
      PlainPasses(s[1..], n - 1, d);
      CharPasses(s, d);
      assert s[1..][n - 1..] == s[n..];
      PassesOn(s, s[1..], s[n..], d, d, d, true, true);
    }
  }

  lemma {:induction false} SpacePasses(s: string, d: nat)
    requires d > 0
    ensures Passes(s, SkipSpace(s), d, d, true)
  {
    if s != "" && IsSpace(s[0]) {
      SpacePasses(s[1..], d);
      CharPasses(s, d);
      PassesOn(s, s[1..], SkipSpace(s), d, d, d, true, true);
    }
  }

  /** A character that is no brace, and the space after it. */
  lemma SeparatorPasses(s: string, d: nat)
    requires s != "" && d + Brace(s[0]) > 0 && (d > 0 || s[0] == '{')
    ensures Passes(s, SkipSpace(s[1..]), d, d + Brace(s[0]), true)
  {
    CharPasses(s, d);
    SpacePasses(s[1..], d + Brace(s[0]));
    PassesOn(s, s[1..], SkipSpace(s[1..]), d, d + Brace(s[0]), d + Brace(s[0]), true, true);
  }

  lemma HexNoBraces(s: string)
    requires ReadHex4(s).Some?
    ensures NoBraces(s[..4])
  {
    assert forall i | 0 <= i < 4 :: HexValue(s[i]).Some?;
  }

  lemma UnicodeNoBraces(s: string)
    requires ReadUnicode(s).Some?
    ensures NoBraces(s[..ReadUnicode(s).value.1])
  {
    HexNoBraces(s);
    if ReadUnicode(s).value.1 == 10 {
      HexNoBraces(s[6..]);
      assert s[..10] == s[..4] + [s[4], s[5]] + s[6..][..4];
    }
  }

  lemma UnescapeNoBraces(s: string)
    requires Unescape(s).Some?
    ensures NoBraces(s[..Unescape(s).value.1])
  {
    if LetterMeaning(s[0]).None? {
      UnicodeNoBraces(s[1..]);
      var n := ReadUnicode(s[1..]).value.1;
      assert s[..n + 1] == [s[0]] + s[1..][..n];
    }
  }

  lemma EscapePasses(s: string, d: nat)
    requires s != "" && s[0] == '\\' && Unescape(s[1..]).Some? && d > 0
    ensures var n := Unescape(s[1..]).value.1; Passes(s, s[1 + n..], d, d, true)
  {
    var n := Unescape(s[1..]).value.1;
    UnescapeNoBraces(s[1..]);
    assert s[..1 + n] == ['\\'] + s[1..][..n];
    PlainPasses(s, 1 + n, d);
  }

  /** One more character of a string's content `t`: after its escape, or after itself. */
  lemma EscapedCharPasses(s: string, next: string, rest: string, t: string, d: nat)
    requires t != "" && d > 0 && Passes(s, next, d, d, true) && Passes(next, rest, d, d, NoBraces(t[1..]))
    ensures Passes(s, rest, d, d, NoBraces(t))
  {
    PassesOn(s, next, rest, d, d, d, true, NoBraces(t[1..]));
    assert forall c | c in t[1..] :: c in t;
  }

  lemma PlainCharPasses(s: string, rest: string, t: string, d: nat)
    requires s != "" && t != "" && t[0] == s[0] && d > 0 && Passes(s[1..], rest, d, d, NoBraces(t[1..]))
    ensures Passes(s, rest, d, d, NoBraces(t))
  {
    if NoBraces(t) {
      assert t[0] in t;
      CharPasses(s, d);
      EscapedCharPasses(s, s[1..], rest, t, d);
    }
  }

  lemma {:induction false} StringPasses(s: string, lenient: bool, d: nat)
    requires ReadString(s, lenient).Some? && d > 0
    ensures var (t, rest) := ReadString(s, lenient).value; Passes(s, rest, d, d, NoBraces(t))
    decreases |s|
  {
    var (t, rest) := ReadString(s, lenient).value;
    if s[0] == '\"' {
      CharPasses(s, d);
    } else if s[0] == '\\' {
      var next := s[1 + Unescape(s[1..]).value.1..];
      EscapePasses(s, d);
      StringPasses(next, lenient, d);
      EscapedCharPasses(s, next, rest, t, d);
    } else {
      StringPasses(s[1..], lenient, d);
      PlainCharPasses(s, rest, t, d);
    }
  }

  lemma {:induction false} NumberNoBraces(s: string)
    ensures NoBraces(s[..NumberSpan(s)])
  {
    if s != "" && IsNumberChar(s[0]) {
      NumberNoBraces(s[1..]);
      var n := NumberSpan(s[1..]);
      assert s[..1 + n] == [s[0]] + s[1..][..n];
    }
  }

  lemma AtomPasses(s: string, d: nat)
    requires ReadAtom(s).Some? && d > 0
    ensures Passes(s, ReadAtom(s).value.1, d, d, true)
  {
    NumberNoBraces(s);
    var n := if "null" <= s || "true" <= s then 4 else if "false" <= s then 5 else NumberSpan(s);
    assert NoBraces(s[..n]);
    PlainPasses(s, n, d);
  }

  /** A value closes every brace it opens and no other. */
  lemma {:induction false} ValuePasses(s: string, lenient: bool, d: nat)
    requires ReadValue(s, lenient).Some? && (d > 0 || s[0] == '{')
    ensures var (v, rest) := ReadValue(s, lenient).value; Passes(s, rest, d, d, BraceFree(v))
    decreases |s|, 0
  {
    var (v, rest) := ReadValue(s, lenient).value;
    if s[0] == '\"' {
      CharPasses(s, d);
      StringPasses(s[1..], lenient, d);
      PassesOn(s, s[1..], rest, d, d, d, true, BraceFree(v));
    } else if s[0] == '[' {
      SeparatorPasses(s, d);
      ArrayPasses(SkipSpace(s[1..]), lenient, d);
      PassesOn(s, SkipSpace(s[1..]), rest, d, d, d, true, BraceFree(v));
    } else if s[0] == '{' {
      SeparatorPasses(s, d);
      ObjectPasses(SkipSpace(s[1..]), lenient, d);
      PassesOn(s, SkipSpace(s[1..]), rest, d, d + 1, d, true, BraceFree(v));
    } else {
      AtomPasses(s, d);
    }
  }

  lemma {:induction false} ArrayPasses(s: string, lenient: bool, d: nat)
    requires ReadArray(s, lenient).Some? && d > 0
    ensures var (v, rest) := ReadArray(s, lenient).value; Passes(s, rest, d, d, BraceFree(v))
    decreases |s|, 3
  {
    if s[0] == ']' {
      CharPasses(s, d);
    } else {
      ItemsPass(s, lenient, d);
    }
  }

  /** Just before `rest`, `s` has a closing brace. */
  predicate ClosedBefore(s: string, rest: string) { |rest| < |s| && s[|s| - |rest| - 1] == '}' }

  lemma {:induction false} ObjectPasses(s: string, lenient: bool, d: nat)
    requires ReadObject(s, lenient).Some?
    ensures var (v, rest) := ReadObject(s, lenient).value;
            Passes(s, rest, d + 1, d, BraceFree(v)) && ClosedBefore(s, rest)
    decreases |s|, 3
  {
    if s[0] == '}' {
      CharPasses(s, d + 1);
    } else {
      FieldsPass(s, lenient, d);
    }
  }

  /** An element or a member, and the space after it. */
  lemma {:induction false} ValueAndSpacePass(s: string, lenient: bool, d: nat)
    requires ReadValue(s, lenient).Some? && d > 0
    ensures var (v, rest) := ReadValue(s, lenient).value; Passes(s, SkipSpace(rest), d, d, BraceFree(v))
    decreases |s|, 1
  {
    var (v, rest) := ReadValue(s, lenient).value;
    ValuePasses(s, lenient, d);
    SpacePasses(rest, d);
    PassesOn(s, rest, SkipSpace(rest), d, d, d, BraceFree(v), true);
  }

  lemma {:induction false} FieldAndSpacePass(s: string, lenient: bool, d: nat)
    requires ReadField(s, lenient).Some? && d > 0
    ensures var (f, rest) := ReadField(s, lenient).value; Passes(s, SkipSpace(rest), d, d, FieldBraceFree(f))
    decreases |s|, 1
  {
    var (f, rest) := ReadField(s, lenient).value;
    FieldPasses(s, lenient, d);
    SpacePasses(rest, d);
    PassesOn(s, rest, SkipSpace(rest), d, d, d, FieldBraceFree(f), true);
  }

  lemma ItemsBraceFree(v: Json, more: seq<Json>)
    ensures BraceFree(Arr([v] + more)) <==> BraceFree(v) && BraceFree(Arr(more))
  {
    assert v in [v] + more && forall x | x in more :: x in [v] + more;
  }

  lemma FieldsBraceFree(f: Field, more: seq<Field>)
    ensures BraceFree(Obj([f] + more)) <==> FieldBraceFree(f) && BraceFree(Obj(more))
  {
    assert f in [f] + more && forall x | x in more :: x in [f] + more;
  }

  lemma PassesThrough(s: string, r2: string, r3: string, rest: string, d: nat, k: nat, first: bool, more: bool)
    requires Passes(s, r2, d, d, first) && Passes(r2, r3, d, d, true) && Passes(r3, rest, d, k, more) && d > 0
    ensures Passes(s, rest, d, k, first && more)
    ensures ClosedBefore(r3, rest) ==> ClosedBefore(s, rest)
  {
    PassesOn(s, r2, r3, d, d, d, first, true);
    PassesOn(s, r3, rest, d, d, k, first, more);
    if ClosedBefore(r3, rest) {
      ClosedToo(s, r3, rest);
    }
  }

  lemma {:induction false} ItemsPass(s: string, lenient: bool, d: nat)
    requires ReadItems(s, lenient).Some? && d > 0
    ensures var (items, rest) := ReadItems(s, lenient).value; Passes(s, rest, d, d, BraceFree(Arr(items)))
    decreases |s|, 2
  {
    var v := ReadValue(s, lenient).value.0;
    var r2 := SkipSpace(ReadValue(s, lenient).value.1);
    ValueAndSpacePass(s, lenient, d);
    if r2[0] == ']' {
      LastPasses(s, r2, d, d, BraceFree(v));
      ItemsBraceFree(v, []);
      assert [v] + [] == [v];
    } else {
      MoreItemsPass(s, r2, v, lenient, d);
    }
  }

  lemma LastPasses(s: string, r2: string, d: nat, k: nat, first: bool)
    requires Passes(s, r2, d, d, first) && d > 0 && r2 != "" && k == d + Brace(r2[0])
    ensures Passes(s, r2[1..], d, k, first)
    ensures r2[0] == '}' ==> ClosedBefore(s, r2[1..])
  {
    CharPasses(r2, d);
    PassesOn(s, r2, r2[1..], d, d, k, first, true);
    assert s[|s| - |r2|..][0] == s[|s| - |r2|];
  }

  lemma {:induction false} MoreItemsPass(s: string, r2: string, v: Json, lenient: bool, d: nat)
    requires r2 != "" && r2[0] == ',' && |r2| < |s| && Passes(s, r2, d, d, BraceFree(v)) && d > 0
    requires ReadItems(SkipSpace(r2[1..]), lenient).Some?
    ensures var (more, rest) := ReadItems(SkipSpace(r2[1..]), lenient).value;
            Passes(s, rest, d, d, BraceFree(Arr([v] + more)))
    decreases |s|, 0
  {
    var r3 := SkipSpace(r2[1..]);
    ItemsPass(r3, lenient, d);
    var (more, rest) := ReadItems(r3, lenient).value;
    CommaPasses(s, r2, r3, rest, d, d, BraceFree(v), BraceFree(Arr(more)));
    ItemsBraceFree(v, more);
  }

  /** Past a comma to what the rest of the list passes. */
  lemma CommaPasses(s: string, r2: string, r3: string, rest: string, d: nat, k: nat, first: bool, more: bool)
    requires r2 != "" && r2[0] == ',' && r3 == SkipSpace(r2[1..]) && d > 0
    requires Passes(s, r2, d, d, first) && Passes(r3, rest, d, k, more)
    ensures Passes(s, rest, d, k, first && more)
    ensures ClosedBefore(r3, rest) ==> ClosedBefore(s, rest)
  {
    SeparatorPasses(r2, d);
    PassesThrough(s, r2, r3, rest, d, k, first, more);
  }

  lemma LastFieldPasses(s: string, r2: string, f: Field, d: nat)
    requires r2 != "" && r2[0] == '}' && Passes(s, r2, d + 1, d + 1, FieldBraceFree(f))
    ensures Passes(s, r2[1..], d + 1, d, BraceFree(Obj([f]))) && ClosedBefore(s, r2[1..])
  {
    LastPasses(s, r2, d + 1, d, FieldBraceFree(f));
    FieldsBraceFree(f, []);
    assert [f] + [] == [f];
  }

  lemma {:induction false} FieldsPass(s: string, lenient: bool, d: nat)
    requires ReadFields(s, lenient).Some?
    ensures var (fields, rest) := ReadFields(s, lenient).value;
            Passes(s, rest, d + 1, d, BraceFree(Obj(fields))) && ClosedBefore(s, rest)
    decreases |s|, 2
  {
    var f := ReadField(s, lenient).value.0;
    var r2 := SkipSpace(ReadField(s, lenient).value.1);
    FieldAndSpacePass(s, lenient, d + 1);
    if r2[0] == '}' {
      LastFieldPasses(s, r2, f, d);
    } else {
      MoreFieldsPass(s, r2, f, lenient, d);
    }
  }

  lemma {:induction false} MoreFieldsPass(s: string, r2: string, f: Field, lenient: bool, d: nat)
    requires r2 != "" && r2[0] == ',' && |r2| < |s| && Passes(s, r2, d + 1, d + 1, FieldBraceFree(f))
    requires ReadFields(SkipSpace(r2[1..]), lenient).Some?
    ensures var (more, rest) := ReadFields(SkipSpace(r2[1..]), lenient).value;
            Passes(s, rest, d + 1, d, BraceFree(Obj([f] + more))) && ClosedBefore(s, rest)
    decreases |s|, 0
  {
    var r3 := SkipSpace(r2[1..]);
    FieldsPass(r3, lenient, d);
    var (more, rest) := ReadFields(r3, lenient).value;
    CommaPasses(s, r2, r3, rest, d + 1, d, FieldBraceFree(f), BraceFree(Obj(more)));
    FieldsBraceFree(f, more);
  }

  lemma ClosedToo(a: string, b: string, c: string)
    requires |b| <= |a| && a[|a| - |b|..] == b && ClosedBefore(b, c)
    ensures ClosedBefore(a, c)
  {
    assert b[|b| - |c| - 1] == a[|a| - |b|..][|b| - |c| - 1];
  }

  /** A member's name in its quotes, and the space after it. */
  lemma NamePasses(s: string, lenient: bool, d: nat)
    requires s != "" && s[0] == '\"' && ReadString(s[1..], lenient).Some? && d > 0
    ensures var (name, r1) := ReadString(s[1..], lenient).value; Passes(s, SkipSpace(r1), d, d, NoBraces(name))
  {
    var (name, r1) := ReadString(s[1..], lenient).value;
    CharPasses(s, d);
    StringPasses(s[1..], lenient, d);
    PassesOn(s, s[1..], r1, d, d, d, true, NoBraces(name));
    SpacePasses(r1, d);
    PassesOn(s, r1, SkipSpace(r1), d, d, d, NoBraces(name), true);
  }

  lemma {:induction false} FieldPasses(s: string, lenient: bool, d: nat)
    requires ReadField(s, lenient).Some? && d > 0
    ensures var (f, rest) := ReadField(s, lenient).value; Passes(s, rest, d, d, FieldBraceFree(f))
    decreases |s|, 0
  {
    var (f, rest) := ReadField(s, lenient).value;
    var r2 := SkipSpace(ReadString(s[1..], lenient).value.1);
    var r3 := SkipSpace(r2[1..]);
    NamePasses(s, lenient, d);
    SeparatorPasses(r2, d);
    PassesOn(s, r2, r3, d, d, d, NoBraces(f.name), true);
    ValuePasses(r3, lenient, d);
    PassesOn(s, r3, rest, d, d, d, NoBraces(f.name), BraceFree(f.value));
  }

  /** However an object is laid out, it survives any prose around it if its strings hold no braces. */
  lemma ObjectRecovered(prose: string, w: string, v: Json, trailing: string)
    requires IsObjectText(w, v) && BraceFree(v) && prose != "" && '{' !in prose
    ensures ParseReply(prose + w + trailing) == Parsed(v)
  {
    ValueMore(w, trailing, true);
    assert "" + trailing == trailing;
    ValuePasses(w + trailing, true, 0);
    assert (w + trailing)[..|w|] == w;
    ReplyText(prose, w, trailing);
    LongObjectReads(w, v, "");
    assert w + "" == w;
  }

  // ---------- space and code fences around the object ----------

  lemma ObjectEnds(w: string, v: Json)
    requires IsObjectText(w, v)
    ensures |w| >= 2 && w[|w| - 1] == '}'
  {
    ObjectPasses(SkipSpace(w[1..]), true, 0);
    SpacePasses(w[1..], 1);
  }

  /** An opening fence, with a language or none, and on a line of its own or not. */
  predicate OpensFence(lang: string, feed: string) { lang in {"", "json"} && feed in {"", "\n"} }

  lemma FenceOpens(lang: string, feed: string, rest: string)
    requires OpensFence(lang, feed)
    requires feed == "" ==> !StartsWith(rest, "\n") && (lang == "" ==> !StartsWith(rest, "json"))
    ensures var s := "```" + lang + feed + rest;
            StartsWith(s, "```") && AfterFence(s) == rest
  {
    var s := "```" + lang + feed + rest;
    assert s[..3] == "```" && s[3..] == lang + (feed + rest);
    if lang == "json" {
      assert s[3..][..4] == "json" && s[7..] == feed + rest;
    } else {
      assert s[3..] == feed + rest;
      assert feed == "\n" ==> (feed + rest)[0] == '\n';
    }
    if feed == "\n" {
      assert (feed + rest)[..1] == "\n" && (feed + rest)[1..] == rest;
    } else {
      assert feed + rest == rest;
    }
  }

  lemma FenceCloses(body: string, close: string)
    requires close in {"", "```", "\n```"}
    requires close == "" ==> !EndsWith(body, "```")
    requires close == "```" ==> !EndsWith(body, "\n")
    ensures var rest := body + close;
            body == if !EndsWith(rest, "```") then rest
                    else if EndsWith(rest[..|rest| - 3], "\n") then rest[..|rest| - 4] else rest[..|rest| - 3]
  {
    var rest := body + close;
    if close == "" {
      assert rest == body;
    } else {
      assert rest[|rest| - 3..] == "```";
      if close == "```" {
        assert rest[..|rest| - 3] == body;
      } else {
        assert rest[..|rest| - 3] == body + "\n" && (body + "\n")[|body|..] == "\n" && rest[..|rest| - 4] == body;
      }
    }
  }

  /** Any code fence around any text is taken off, and nothing else. */
  lemma FenceIsRemoved(lang: string, feed: string, body: string, close: string)
    requires OpensFence(lang, feed) && close in {"", "```", "\n```"}
    requires feed == "" ==> !StartsWith(body + close, "\n") && (lang == "" ==> !StartsWith(body + close, "json"))
    requires close == "" ==> !EndsWith(body, "```")
    requires close == "```" ==> !EndsWith(body, "\n")
    ensures Unfenced("```" + lang + feed + body + close) == body
  {
    var s := "```" + lang + feed + (body + close);
    assert "```" + lang + feed + body + close == s;
    FenceOpens(lang, feed, body + close);
    FenceCloses(body, close);
    assert body + close == AfterFence(s);
    var rest := body + close;
    assert EndsWith(rest, "```") && EndsWith(rest[..|rest| - 3], "\n") ==>
             rest[..|rest| - 3][..|rest[..|rest| - 3]| - 1] == rest[..|rest| - 4];
  }

  /** A text that does not start with a fence is searched for an object as it is, but for the space around. */
  lemma UnfencedReply(space: char -> bool, response: string)
    requires var t := Strip(space, response); |t| < 3 || t[..3] != "```"
    ensures ParseReply(Cleaned(space, response)) == ParseReply(Strip(space, response))
  {
  }

  lemma PaddedObject(space: char -> bool, before: string, w: string, after: string)
    requires w != "" && w[0] == '{' && w[|w| - 1] == '}' && !space('{') && !space('}')
    requires forall c | c in before + after :: space(c)
    ensures Cleaned(space, before + w + after) == w
  {
    StripPads(space, before, w, after);
    assert |w| >= 3 ==> w[..3][0] == w[0];
  }

  lemma StartsWithBrace(s: string)
    requires s != "" && s[0] == '{'
    ensures !StartsWith(s, "\n") && !StartsWith(s, "json")
  {
    assert s[..1][0] == '{';
    assert |s| >= 4 ==> s[..4][0] == '{';
  }

  lemma FencedBody(lang: string, feed: string, body: string, close: string)
    requires OpensFence(lang, feed) && close in {"", "```", "\n```"} && body != "" && body[0] == '{'
    requires close == "" ==> !EndsWith(body, "```")
    requires close == "```" ==> !EndsWith(body, "\n")
    ensures Unfenced("```" + lang + feed + body + close) == body
  {
    StartsWithBrace(body + close);
    FenceIsRemoved(lang, feed, body, close);
  }

  lemma FencedLine(lang: string, feed: string, w: string, left: string)
    requires OpensFence(lang, feed) && w != "" && w[0] == '{'
    ensures Unfenced("```" + lang + feed + w + (left + "\n") + "```") == w + left
  {
    var open := "```" + lang + feed;
    FencedBody(lang, feed, w + left, "\n```");
    FeedMoves(open, w, left);
  }

  lemma FeedMoves(open: string, w: string, left: string)
    ensures open + w + (left + "\n") + "```" == open + (w + left) + "\n```"
  {
    assert (left + "\n") + "```" == left + "\n```";
  }

  lemma FencedInline(lang: string, feed: string, w: string, pad: string, close: string)
    requires OpensFence(lang, feed) && w != "" && w[0] == '{' && w[|w| - 1] == '}'
    requires (close == "" && pad == "") || (close == "```" && (pad == "" || pad[|pad| - 1] != '\n'))
    ensures Unfenced("```" + lang + feed + w + pad + close) == w + pad
  {
    var open := "```" + lang + feed;
    LastOf(w, pad);
    FencedBody(lang, feed, w + pad, close);
    assert open + w + pad == open + (w + pad);
  }

  /** An object's text in any fence, with space before the closing one: only that space can be left. */
  lemma FencedText(lang: string, feed: string, w: string, pad: string, close: string) returns (left: string)
    requires OpensFence(lang, feed) && close in {"", "```"} && (close == "" ==> pad == "")
    requires SkipSpace(pad) == "" && w != "" && w[0] == '{' && w[|w| - 1] == '}'
    ensures SkipSpace(left) == "" && Unfenced("```" + lang + feed + w + pad + close) == w + left
  {
    var n := |pad|;
    if n > 0 && pad[n - 1] == '\n' {
      left := pad[..n - 1];
      assert pad == left + "\n";
      SpacePrefix(pad, n - 1);
      FencedLine(lang, feed, w, left);
    } else {
      left := pad;
      FencedInline(lang, feed, w, pad, close);
    }
  }

  lemma LastOf(w: string, pad: string)
    requires w != "" && w[|w| - 1] == '}'
    ensures pad == "" ==> !EndsWith(w + pad, "```") && !EndsWith(w + pad, "\n")
    ensures pad != "" && pad[|pad| - 1] != '\n' ==> !EndsWith(w + pad, "\n")
  {
    var s := w + pad;
    if EndsWith(s, "\n") {
      assert s[|s| - 1] == s[|s| - 1..][0] == '\n';
    }
    if EndsWith(s, "```") {
      assert s[|s| - 1] == s[|s| - 3..][2] == '`';
    }
  }

  lemma {:induction false} SpacePrefix(s: string, n: nat)
    requires SkipSpace(s) == "" && n <= |s|
    ensures SkipSpace(s[..n]) == ""
  {
    if n > 0 {
      SpacePrefix(s[1..], n - 1);
      assert s[..n][1..] == s[1..][..n - 1];
    }
  }

  /**
   An object alone, or in a code fence with or without a language, with or without a line feed after
   it, with a closing fence or none, and with any space around, is recovered whatever its strings hold.
   */
  lemma FencedObjectRecovered(space: char -> bool, before: string, lang: string, feed: string, w: string, v: Json,
                              pad: string, close: string, after: string)
    requires IsObjectText(w, v) && (forall c | c in before + after :: space(c))
    requires !space('{') && !space('}') && !space('`')
    requires OpensFence(lang, feed) && close in {"", "```"} && OnlySpace(pad) && (close == "" ==> pad == "")
    ensures ParseReply(Cleaned(space, before + w + after)) == Parsed(v)
    ensures ParseReply(Cleaned(space, before + ("```" + lang + feed + w + pad + close) + after)) == Parsed(v)
  {
    ObjectEnds(w, v);
    PaddedObject(space, before, w, after);
    LeadingObject(w, v, "");
    assert w + "" == w;
    var s := "```" + lang + feed + w + pad + close;
    assert s[0] == '`' && s[|s| - 1] == (if close == "" then '}' else '`');
    StripPads(space, before, s, after);
    SpaceIff(pad);
    var left := FencedText(lang, feed, w, pad, close);
    SpaceIff(left);
    LeadingObject(w, v, left);
  }
}
