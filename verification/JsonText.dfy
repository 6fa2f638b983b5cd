/** The small print of JSON text: white space, control characters, numbers (RFC 8259, sections 2, 6 and 7). */
module JsonText {
  import opened Json
  import opened Options
  import opened Text

  // ---------- white space ----------

  /** Blanks, tabs, line feeds and carriage returns, and nothing else. */
  predicate OnlySpace(s: string) { forall c | c in s :: c == ' ' || c == '\t' || c == '\n' || c == '\r' }

  lemma {:induction false} SpaceIff(s: string)
    ensures SkipSpace(s) == "" <==> OnlySpace(s)
  {
    if s != "" {
      SpaceIff(s[1..]);
      assert s[0] in s && forall c | c in s :: c == s[0] || c in s[1..];
      assert forall c | c in s[1..] :: c in s;
    }
  }

  /** Space before a text does not matter. */
  lemma {:induction false} SpaceBefore(a: string, s: string)
    requires OnlySpace(a)
    ensures SkipSpace(a + s) == SkipSpace(s)
  {
    if a == "" {
      assert a + s == s;
    } else {
      assert a[0] in a && forall c | c in a[1..] :: c in a;
      SpaceBefore(a[1..], s);
      assert (a + s)[1..] == a[1..] + s;
    }
  }

  // ---------- control characters in strings ----------

  /** Nothing that ends the string, starts an escape or is a control character. */
  predicate Ordinary(s: string) { forall c | c in s :: c >= ' ' && c != '\"' && c != '\\' }

  /** A control character in a string is refused, but for the line feed when reading leniently. */
  lemma {:induction false} ControlCharacter(a: string, c: char, b: string)
    requires Ordinary(a) && c < ' '
    ensures ReadString(a + [c] + b, false).None?
    ensures ReadString(a + [c] + b, true) ==
              if c != '\n' then None
              else match ReadString(b, true)
                   case None => None
                   case Some((t, rest)) => Some((a + "\n" + t, rest))
  {
    var s := a + [c] + b;
    if a == "" {
      assert s[0] == c && s[1..] == b;
      if ReadString(b, true).Some? {
        assert "" + "\n" + ReadString(b, true).value.0 == [c] + ReadString(b, true).value.0 || c != '\n';
      }
    } else {
      assert a[0] in a && forall x | x in a[1..] :: x in a;
      assert s[0] == a[0] && s[1..] == a[1..] + [c] + b;
      ControlCharacter(a[1..], c, b);
      if c == '\n' && ReadString(b, true).Some? {
        var t := ReadString(b, true).value.0;
        assert [a[0]] + (a[1..] + "\n" + t) == a + "\n" + t;
      }
    }
  }

  // ---------- escapes ----------

  /** The escapes of one letter, and no others. */
  lemma LetterEscapes(letter: char, rest: string)
    requires letter != 'u'
    ensures Unescape([letter] + rest) ==
              if letter in {'\"', '\\', '/'} then Some((letter, 1))
              else if letter == 'b' then Some((8 as char, 1))
              else if letter == 'f' then Some((12 as char, 1))
              else if letter == 'n' then Some((10 as char, 1))
              else if letter == 'r' then Some((13 as char, 1))
              else if letter == 't' then Some((9 as char, 1))
              else None
  {
  }

  /** Hexadecimal digits in order, in small letters or capitals. */
  lemma HexDigits(c: char)
    ensures HexValue('0') == Some(0) && HexValue('a') == Some(10) && HexValue('A') == Some(10)
    ensures HexValue(c).Some? <==> '0' <= c <= '9' || 'a' <= c <= 'f' || 'A' <= c <= 'F'
    ensures '0' <= c < '9' || 'a' <= c < 'f' || 'A' <= c < 'F' ==>
              HexValue((c as int + 1) as char) == Some(HexValue(c).value + 1)
  {
  }

  /** Four hexadecimal digits are a character, unless they are one half of a pair of surrogates. */
  lemma CodeEscape(a: char, b: char, c: char, d: char, rest: string)
    requires HexValue(a).Some? && HexValue(b).Some? && HexValue(c).Some? && HexValue(d).Some?
    ensures var n := 4096 * HexValue(a).value + 256 * HexValue(b).value + 16 * HexValue(c).value + HexValue(d).value;
            && (n < 0xD800 || n > 0xDFFF ==> Unescape("u" + [a, b, c, d] + rest) == Some((n as char, 5)))
            && (0xDC00 <= n <= 0xDFFF ==> Unescape("u" + [a, b, c, d] + rest) == None)
            && (0xD800 <= n <= 0xDBFF && !("\\u" <= rest) ==> Unescape("u" + [a, b, c, d] + rest) == None)
  {
    var s := "u" + [a, b, c, d] + rest;
    var t := s[1..];
    assert t == [a, b, c, d] + rest && t[0] == a && t[1] == b && t[2] == c && t[3] == d;
    if |t| >= 6 && t[4] == '\\' && t[5] == 'u' {
      assert rest[0] == t[4] && rest[1] == t[5];
    }
  }

  // ---------- numbers ----------

  predicate Digits(s: string) { s != "" && forall c | c in s :: '0' <= c <= '9' }

  /** A single zero, or digits without a leading zero. */
  predicate Integer(s: string) { s == "0" || (Digits(s) && s[0] != '0') }

  predicate Fraction(s: string) { s == "" || (s[0] == '.' && Digits(s[1..])) }

  predicate Exponent(s: string) {
    s == "" ||
    ((s[0] == 'e' || s[0] == 'E') &&
     (Digits(s[1..]) || (|s| > 1 && (s[1] == '+' || s[1] == '-') && Digits(s[2..]))))
  }

  /** minus sign, integer, fraction, exponent. */
  ghost predicate Number(s: string) {
    exists sign: string, i: string, f: string, e: string ::
      s == sign + i + f + e && (sign == "" || sign == "-") && Integer(i) && Fraction(f) && Exponent(e)
  }

  lemma {:induction false} SpanOf(a: string, b: string)
    requires (forall c | c in a :: '0' <= c <= '9') && (b == "" || !('0' <= b[0] <= '9'))
    ensures DigitSpan(a + b) == |a|
  {
    if a == "" {
      assert a + b == b;
    } else {
      assert a[0] in a && forall c | c in a[1..] :: c in a;
      assert (a + b)[1..] == a[1..] + b;
      SpanOf(a[1..], b);
    }
  }

  lemma {:induction false} SpanIsDigits(s: string)
    ensures var n := DigitSpan(s);
            (forall c | c in s[..n] :: '0' <= c <= '9') && (n < |s| ==> !('0' <= s[n] <= '9'))
  {
    if s != "" && IsDigit(s[0]) {
      SpanIsDigits(s[1..]);
      var n := DigitSpan(s[1..]);
      assert s[..1 + n] == [s[0]] + s[1..][..n];
    }
  }

  lemma AllDigits(s: string)
    ensures s != "" && DigitSpan(s) == |s| <==> Digits(s)
  {
    SpanIsDigits(s);
    assert s[..|s|] == s;
    if Digits(s) {
      SpanOf(s, "");
      assert s + "" == s;
    }
  }

  lemma ExponentIff(s: string)
    ensures IsExponent(s) <==> Exponent(s)
  {
    if s != "" {
      AllDigits(s[1..]);
      if |s| > 1 {
        AllDigits(s[2..]);
        assert s[1] == s[1..][0];
        assert Digits(s[1..]) ==> s[1] in s[1..];
      }
    }
  }

  lemma FractionRead(s: string) returns (f: string, e: string)
    requires IsFraction(s)
    ensures s == f + e && Fraction(f) && Exponent(e)
  {
    if s != "" && s[0] == '.' {
      var n := DigitSpan(s[1..]);
      f, e := s[..1 + n], s[1 + n..];
      SpanIsDigits(s[1..]);
      ExponentIff(e);
      assert f[1..] == s[1..][..n];
    } else {
      f, e := "", s;
      ExponentIff(s);
    }
  }

  lemma FractionWritten(f: string, e: string)
    requires Fraction(f) && Exponent(e)
    ensures IsFraction(f + e)
  {
    ExponentIff(e);
    if f == "" {
      assert f + e == e;
    } else {
      var s := f + e;
      SpanOf(f[1..], e);
      assert s[0] == '.' && s[1..] == f[1..] + e && s[|f|..] == e;
    }
  }

  /** The reader's numbers are those of the grammar. */
  lemma NumberIff(s: string)
    ensures IsNumber(s) <==> Number(s)
  {
    if IsNumber(s) {
      NumberRead(s);
    }
    if Number(s) {
      var sign: string, i: string, f: string, e: string :|
        s == sign + i + f + e && (sign == "" || sign == "-") && Integer(i) && Fraction(f) && Exponent(e);
      NumberWritten(sign, i, f, e);
    }
  }

  lemma IntegerRead(d: string)
    requires DigitSpan(d) > 0 && (DigitSpan(d) > 1 ==> d[0] != '0')
    ensures Integer(d[..DigitSpan(d)])
  {
    var i := d[..DigitSpan(d)];
    SpanIsDigits(d);
    assert i[0] == d[0];
    assert |i| == 1 && i[0] == '0' ==> i == "0";
  }

  lemma NumberMade(sign: string, i: string, f: string, e: string)
    requires (sign == "" || sign == "-") && Integer(i) && Fraction(f) && Exponent(e)
    ensures Number(sign + i + f + e)
  {
  }

  lemma Apart(sign: string, d: string, n: nat, f: string, e: string)
    requires n <= |d| && d[n..] == f + e
    ensures sign + d == sign + d[..n] + f + e
  {
  }

  lemma NumberRead(s: string)
    requires IsNumber(s)
    ensures Number(s)
  {
    var sign := if s != "" && s[0] == '-' then "-" else "";
    var d := s[|sign|..];
    assert s == sign + d;
    IntegerRead(d);
    var f, e := FractionRead(d[DigitSpan(d)..]);
    Apart(sign, d, DigitSpan(d), f, e);
    NumberMade(sign, d[..DigitSpan(d)], f, e);
  }

  lemma Unsigned(sign: string, d: string)
    requires (sign == "" || sign == "-") && d != "" && d[0] != '-'
    ensures var s := sign + d; (if s != "" && s[0] == '-' then s[1..] else s) == d
  {
  }

  lemma IntegerSpan(i: string, tail: string)
    requires Integer(i) && (tail == "" || !('0' <= tail[0] <= '9'))
    ensures DigitSpan(i + tail) == |i| && '0' <= i[0] <= '9' && (|i| > 1 ==> i[0] != '0')
    ensures (i + tail)[0] == i[0] && (i + tail)[|i|..] == tail
  {
    assert Digits(i) && i[0] in i;
    SpanOf(i, tail);
  }

  lemma Regrouped(sign: string, i: string, f: string, e: string)
    ensures sign + i + f + e == sign + (i + (f + e))
  {
  }

  /** The text after the digits does not go on with one. */
  lemma TailStart(f: string, e: string)
    requires Fraction(f) && Exponent(e)
    ensures f + e == "" || !('0' <= (f + e)[0] <= '9')
  {
    assert f == "" ==> f + e == e;
  }

  lemma UnsignedNumber(i: string, tail: string)
    requires Integer(i) && IsFraction(tail) && (tail == "" || !('0' <= tail[0] <= '9'))
    ensures i + tail != "" && (i + tail)[0] != '-'
    ensures DigitSpan(i + tail) > 0 && (DigitSpan(i + tail) > 1 ==> (i + tail)[0] != '0')
    ensures IsFraction((i + tail)[DigitSpan(i + tail)..])
  {
    IntegerSpan(i, tail);
  }

  lemma NumberWritten(sign: string, i: string, f: string, e: string)
    requires (sign == "" || sign == "-") && Integer(i) && Fraction(f) && Exponent(e)
    ensures IsNumber(sign + i + f + e)
  {
    var d := i + (f + e);
    FractionWritten(f, e);
    TailStart(f, e);
    UnsignedNumber(i, f + e);
    Unsigned(sign, d);
    Regrouped(sign, i, f, e);
  }
}
