/** URL-safe base64 with padding (RFC 4648, section 5), over bytes given as integers. */
module Base64Url {
  import opened Options

  type Byte = x: int | 0 <= x < 256
  type Sextet = x: int | 0 <= x < 64

  function Digit(n: Sextet): char {
    if n < 26 then ('A' as int + n) as char
    else if n < 52 then ('a' as int + n - 26) as char
    else if n < 62 then ('0' as int + n - 52) as char
    else if n == 62 then '-'
    else '_'
  }

  function Value(c: char): Option<Sextet> {
    if 'A' <= c <= 'Z' then Some(c as int - 'A' as int)
    else if 'a' <= c <= 'z' then Some(c as int - 'a' as int + 26)
    else if '0' <= c <= '9' then Some(c as int - '0' as int + 52)
    else if c == '-' then Some(62)
    else if c == '_' then Some(63)
    else None
  }

  function Encode(b: seq<Byte>): string {
    if |b| == 0 then ""
    else if |b| == 1 then [Digit(b[0] / 4), Digit(b[0] % 4 * 16), '=', '=']
    else if |b| == 2 then
      [Digit(b[0] / 4), Digit(b[0] % 4 * 16 + b[1] / 16), Digit(b[1] % 16 * 4), '=']
    else
      [Digit(b[0] / 4), Digit(b[0] % 4 * 16 + b[1] / 16),
       Digit(b[1] % 16 * 4 + b[2] / 64), Digit(b[2] % 64)] + Encode(b[3..])
  }

  function Decode(s: string): Option<seq<Byte>>
    decreases |s|, 0
  {
    if s == "" then Some([])
    else if |s| < 4 then None
    else
      match (Value(s[0]), Value(s[1]))
      case (Some(w), Some(x)) => DecodeTail(w, x, s[2], s[3], s[4..])
      case _ => None
  }

  /** The last two characters of a quad, with what follows the quad. */
  function DecodeTail(w: Sextet, x: Sextet, c: char, d: char, rest: string): Option<seq<Byte>>
    decreases |rest|, 1
  {
    var first: Byte := w * 4 + x / 16;
    if c == '=' then (if d == '=' && rest == "" then Some([first]) else None)
    else
      match Value(c)
      case None => None
      case Some(y) =>
        var second: Byte := x % 16 * 16 + y / 4;
        if d == '=' then (if rest == "" then Some([first, second]) else None)
        else
          match Value(d)
          case None => None
          case Some(z) =>
            var third: Byte := y % 4 * 64 + z;
            match Decode(rest)
            case None => None
            case Some(more) => Some([first, second, third] + more)
  }

  lemma DigitRoundTrip(n: Sextet)
    ensures Value(Digit(n)) == Some(n) && Digit(n) != '='
  {
  }

  lemma ThreeBytes(a: Byte, b: Byte, c: Byte)
    ensures a == a / 4 * 4 + (a % 4 * 16 + b / 16) / 16
    ensures b == (a % 4 * 16 + b / 16) % 16 * 16 + (b % 16 * 4 + c / 64) / 4
    ensures c == (b % 16 * 4 + c / 64) % 4 * 64 + c % 64
  {
  }

  lemma QuadRoundTrip(a: Byte, b: Byte, c: Byte, rest: string, more: seq<Byte>)
    requires Decode(rest) == Some(more)
    ensures Decode([Digit(a / 4), Digit(a % 4 * 16 + b / 16), Digit(b % 16 * 4 + c / 64), Digit(c % 64)] + rest)
            == Some([a, b, c] + more)
  {
    var w, x, y, z := a / 4, a % 4 * 16 + b / 16, b % 16 * 4 + c / 64, c % 64;
    DigitRoundTrip(w);
    DigitRoundTrip(x);
    DigitRoundTrip(y);
    DigitRoundTrip(z);
    ThreeBytes(a, b, c);
    assert DecodeTail(w, x, Digit(y), Digit(z), rest) == Some([a, b, c] + more);
    var s := [Digit(w), Digit(x), Digit(y), Digit(z)] + rest;
    assert s[4..] == rest;
  }

  lemma OneByte(a: Byte)
    ensures Decode(Encode([a])) == Some([a])
  {
    DigitRoundTrip(a / 4);
    DigitRoundTrip(a % 4 * 16);
    assert DecodeTail(a / 4, a % 4 * 16, '=', '=', "") == Some([a]);
  }

  lemma TwoBytes(a: Byte, b: Byte)
    ensures Decode(Encode([a, b])) == Some([a, b])
  {
    var w, x, y := a / 4, a % 4 * 16 + b / 16, b % 16 * 4;
    DigitRoundTrip(w);
    DigitRoundTrip(x);
    DigitRoundTrip(y);
    ThreeBytes(a, b, 0);
    assert DecodeTail(w, x, Digit(y), '=', "") == Some([a, b]);
    var s := [Digit(w), Digit(x), Digit(y), '='];
    assert Encode([a, b]) == s && s[4..] == "";
  }

  lemma {:induction false} DecodeEncode(b: seq<Byte>)
    ensures Decode(Encode(b)) == Some(b)
    ensures b != [] ==> Encode(b) != ""
  {
    if |b| > 2 {
      DecodeEncode(b[3..]);
      QuadRoundTrip(b[0], b[1], b[2], Encode(b[3..]), b[3..]);
      assert b == [b[0], b[1], b[2]] + b[3..];
    } else if |b| == 2 {
      TwoBytes(b[0], b[1]);
      assert b == [b[0], b[1]];
    } else if |b| == 1 {
      OneByte(b[0]);
      assert b == [b[0]];
    }
  }

  // ---------- the format itself ----------

  /** The digits in order: A to Z, a to z, 0 to 9, hyphen, underscore. */
  lemma AlphabetLaw(n: Sextet)
    ensures Digit(0) == 'A' && Digit(25) == 'Z' && Digit(26) == 'a' && Digit(51) == 'z'
    ensures Digit(52) == '0' && Digit(61) == '9' && Digit(62) == '-' && Digit(63) == '_'
    ensures n < 61 && n != 25 && n != 51 ==> Digit(n + 1) as int == Digit(n) as int + 1
  {
  }

  /** Three bytes are one number of 24 bits, and four digits are the same number, most significant first. */
  lemma GroupLayout(b: seq<Byte>) returns (w: Sextet, x: Sextet, y: Sextet, z: Sextet)
    requires |b| >= 3
    ensures var i: int, j: int, k: int := b[0], b[1], b[2];
            var p: int, q: int, r: int, t: int := w, x, y, z;
            65536 * i + 256 * j + k == 262144 * p + 4096 * q + 64 * r + t
    ensures Encode(b) == [Digit(w), Digit(x), Digit(y), Digit(z)] + Encode(b[3..])
  {
    w, x, y, z := b[0] / 4, b[0] % 4 * 16 + b[1] / 16, b[1] % 16 * 4 + b[2] / 64, b[2] % 64;
  }

  /** One or two bytes are filled up with zero bits, and the missing digits written as `=`. */
  lemma TailLayout(b: seq<Byte>) returns (w: Sextet, x: Sextet, y: Sextet)
    requires 1 <= |b| <= 2
    ensures var i: int, p: int, q: int, r: int := b[0], w, x, y;
            if |b| == 1 then 16 * i == 64 * p + q && Encode(b) == [Digit(w), Digit(x), '=', '=']
            else
              var j: int := b[1];
              4 * (256 * i + j) == 4096 * p + 64 * q + r && Encode(b) == [Digit(w), Digit(x), Digit(y), '=']
  {
    var second: Byte := if |b| == 2 then b[1] else 0;
    w, x, y := b[0] / 4, b[0] % 4 * 16 + second / 16, second % 16 * 4;
  }

  predicate InAlphabet(c: char) {
    'A' <= c <= 'Z' || 'a' <= c <= 'z' || '0' <= c <= '9' || c == '-' || c == '_'
  }

  /** All digits but the last `pad` are of the alphabet, and those are `=`. */
  ghost predicate PaddedBy(s: string, pad: nat) {
    && pad <= |s| && (forall i | 0 <= i < |s| - pad :: InAlphabet(s[i]))
    && (forall i | |s| - pad <= i < |s| :: s[i] == '=')
  }

  /** Whole groups of four, with at most two `=` at the very end. */
  ghost predicate IsBase64(s: string) {
    |s| % 4 == 0 && (PaddedBy(s, 0) || (s != "" && (PaddedBy(s, 1) || PaddedBy(s, 2))))
  }

  lemma PaddedTail(s: string, pad: nat)
    requires |s| >= 8 && pad <= 2
    ensures PaddedBy(s, pad) <==>
              (forall i | 0 <= i < 4 :: InAlphabet(s[i])) && PaddedBy(s[4..], pad)
  {
    assert forall i | 4 <= i < |s| :: s[i] == s[4..][i - 4];
    if PaddedBy(s[4..], pad) && forall i | 0 <= i < 4 :: InAlphabet(s[i]) {
      forall i | 0 <= i < |s| - pad ensures InAlphabet(s[i]) {
        if i >= 4 {
          assert s[i] == s[4..][i - 4];
        }
      }
    }
  }

  lemma LastQuad(s: string)
    requires |s| == 4
    ensures Decode(s).Some? <==>
              InAlphabet(s[0]) && InAlphabet(s[1]) &&
              ((s[2] == '=' && s[3] == '=') || (InAlphabet(s[2]) && (s[3] == '=' || InAlphabet(s[3]))))
  {
    assert s[4..] == "" && Decode("") == Some([]);
  }

  lemma QuadThenRest(s: string)
    requires |s| >= 8
    ensures Decode(s).Some? <==> (forall i | 0 <= i < 4 :: InAlphabet(s[i])) && Decode(s[4..]).Some?
  {
    assert (forall i | 0 <= i < 4 :: InAlphabet(s[i])) <==>
             InAlphabet(s[0]) && InAlphabet(s[1]) && InAlphabet(s[2]) && InAlphabet(s[3]);
  }

  /** Exactly the texts of that form are decoded. */
  lemma {:induction false} DecodeIff(s: string)
    ensures Decode(s).Some? <==> IsBase64(s)
    decreases |s|
  {
    if |s| == 4 {
      LastQuad(s);
    } else if |s| >= 8 {
      DecodeIff(s[4..]);
      PaddedTail(s, 0);
      PaddedTail(s, 1);
      PaddedTail(s, 2);
      QuadThenRest(s);
    } else if |s| > 4 {
      BadLength(s);
    }
  }

  lemma BadLength(s: string)
    requires 4 < |s| < 8
    ensures Decode(s).None?
  {
    assert |s[4..]| < 4 && s[4..] != "" && Decode(s[4..]).None?;
  }
}
