/**
 Rendering of ProseMirror documents to HTML, checked against a scanner that strips tags and keeps
 a stack of open elements.
 */
module ProseMirror {
  import opened Options
  import T = Text

  datatype Mark = Bold | Italic | Link(href: Option<string>) | Code | OtherMark

  datatype Kind =
    | Paragraph | Heading(level: int) | HardBreak | BulletList | OrderedList | ListItem
    | Blockquote | HorizontalRule | CodeBlock | OtherKind

  /** `text` of an element is the text attribute that only code blocks use. */
  datatype Node =
    | Text(text: string, marks: seq<Mark>)
    | Element(kind: Kind, content: seq<Node>, text: string)

  // ---------- rendering ----------

  function EscapeChar(c: char): string {
    if c == '&' then "&amp;"
    else if c == '<' then "&lt;"
    else if c == '>' then "&gt;"
    else if c == '"' then "&quot;"
    else if c == '\'' then "&#x27;"
    else [c]
  }

  function EscapeHtml(s: string): string {
    if s == "" then "" else EscapeChar(s[0]) + EscapeHtml(s[1..])
  }

  function LowerChar(c: char): char {
    if 'A' <= c <= 'Z' then (c as int - 'A' as int + 'a' as int) as char else c
  }

  function Lower(s: string): (r: string)
    ensures |r| == |s|
  {
    seq(|s|, i requires 0 <= i < |s| => LowerChar(s[i]))
  }

  predicate Dangerous(space: char -> bool, href: string) {
    var s := Lower(T.Strip(space, href));
    T.StartsWith(s, "javascript:") || T.StartsWith(s, "data:") || T.StartsWith(s, "vbscript:")
  }

  function SafeHref(space: char -> bool, href: Option<string>): (r: string)
    ensures r == "#" || (Some(r) == href && r != "" && !Dangerous(space, r))
    ensures href.Some? && href.value != "" && !Dangerous(space, href.value) ==> r == href.value
  {
    if href.None? || href.value == "" || Dangerous(space, href.value) then "#" else href.value
  }

  /** The text begins with the scheme, in any mixture of capitals and small letters. */
  predicate HasScheme(s: string, scheme: string) {
    |scheme| <= |s| &&
    forall i | 0 <= i < |scheme| ::
      s[i] == scheme[i] || ('a' <= scheme[i] <= 'z' && s[i] as int + 32 == scheme[i] as int)
  }

  lemma LowerScheme(s: string, scheme: string)
    requires forall i | 0 <= i < |scheme| :: !('A' <= scheme[i] <= 'Z')
    ensures T.StartsWith(Lower(s), scheme) <==> HasScheme(s, scheme)
  {
    if |scheme| <= |s| {
      assert forall i | 0 <= i < |scheme| :: Lower(s)[..|scheme|][i] == LowerChar(s[i]);
      if HasScheme(s, scheme) {
        assert Lower(s)[..|scheme|] == scheme;
      }
      if T.StartsWith(Lower(s), scheme) {
        assert forall i | 0 <= i < |scheme| :: LowerChar(s[i]) == scheme[i];
      }
    }
  }

  /** Exactly the hrefs that start, after any space, with one of three schemes are replaced, and empty ones. */
  lemma SafeHrefIff(space: char -> bool, href: Option<string>)
    ensures SafeHref(space, href) ==
              if href.None? || href.value == "" then "#"
              else
                var s := T.Strip(space, href.value);
                if HasScheme(s, "javascript:") || HasScheme(s, "data:") || HasScheme(s, "vbscript:") then "#"
                else href.value
  {
    if href.Some? {
      var s := T.Strip(space, href.value);
      LowerScheme(s, "javascript:");
      LowerScheme(s, "data:");
      LowerScheme(s, "vbscript:");
    }
  }

  function Wrap(name: string, attrs: string, inner: string): string {
    "<" + name + attrs + ">" + inner + "</" + name + ">"
  }

  function HrefAttr(href: string): string { " href=\"" + href + "\"" }

  function WrapMark(space: char -> bool, inner: string, mark: Mark): string {
    match mark
    case Bold => Wrap("strong", "", inner)
    case Italic => Wrap("em", "", inner)
    case Link(href) => Wrap("a", HrefAttr(SafeHref(space, href)), inner)
    case Code => Wrap("code", "", inner)
    case OtherMark => inner
  }

  /** The marks from the first, innermost, to the last. */
  function Marked(space: char -> bool, inner: string, marks: seq<Mark>): string {
    if marks == [] then inner
    else WrapMark(space, Marked(space, inner, marks[..|marks| - 1]), marks[|marks| - 1])
  }

  method MarkText(space: char -> bool, text: string, marks: seq<Mark>) returns (marked: string)
    ensures marked == Marked(space, EscapeHtml(text), marks)
  {
    marked := EscapeHtml(text);
    for i := 0 to |marks|
      invariant marked == Marked(space, EscapeHtml(text), marks[..i])
    {
      assert marks[..i + 1][..i] == marks[..i];
      marked := WrapMark(space, marked, marks[i]);
    }
    assert marks[..|marks|] == marks;
  }

  function Render(space: char -> bool, n: Node): string
    decreases n, 1
  {
    match n
    case Text(text, marks) => Marked(space, EscapeHtml(text), marks)
    case Element(kind, content, text) =>
      match kind
      case Paragraph => Wrap("p", "", RenderAll(space, content))
      case Heading(level) => Wrap("h" + T.IntText(level), "", RenderAll(space, content))
      case HardBreak => "<br>"
      case BulletList => Wrap("ul", "", RenderItems(space, content))
      case OrderedList => Wrap("ol", "", RenderItems(space, content))
      case ListItem => RenderAll(space, content)
      case Blockquote => Wrap("blockquote", "", RenderAll(space, content))
      case HorizontalRule => "<hr>"
      case CodeBlock => Wrap("pre", "", Wrap("code", "", EscapeHtml(text)))
      case OtherKind => RenderAll(space, content)
  }

  function RenderAll(space: char -> bool, ns: seq<Node>): string
    decreases ns, 0
  {
    if ns == [] then "" else Render(space, ns[0]) + RenderAll(space, ns[1..])
  }

  function RenderItems(space: char -> bool, ns: seq<Node>): string
    decreases ns, 0
  {
    if ns == [] then "" else Wrap("li", "", Render(space, ns[0])) + RenderItems(space, ns[1..])
  }

  // ---------- the text of a document ----------

  /** The text that is rendered, in document order. */
  function Visible(n: Node): string
    decreases n, 1
  {
    match n
    case Text(text, _) => text
    case Element(kind, content, text) =>
      if kind == CodeBlock then text
      else if kind == HardBreak || kind == HorizontalRule then ""
      else VisibleAll(content)
  }

  function VisibleAll(ns: seq<Node>): string
    decreases ns, 0
  {
    if ns == [] then "" else Visible(ns[0]) + VisibleAll(ns[1..])
  }

  /** Every text node and every code block's text, wherever they are. */
  function FullText(n: Node): string
    decreases n, 1
  {
    match n
    case Text(text, _) => text
    case Element(kind, content, text) => (if kind == CodeBlock then text else "") + FullTextAll(content)
  }

  function FullTextAll(ns: seq<Node>): string
    decreases ns, 0
  {
    if ns == [] then "" else FullText(ns[0]) + FullTextAll(ns[1..])
  }

  /** No code block, line break or rule has text nodes under it. */
  predicate NothingUnderLeaves(n: Node)
    decreases n, 1
  {
    match n
    case Text(_, _) => true
    case Element(kind, content, _) =>
      if IsLeaf(kind) then FullTextAll(content) == ""
      else NothingUnderLeavesAll(content)
  }

  predicate NothingUnderLeavesAll(ns: seq<Node>)
    decreases ns, 0
  {
    ns != [] ==> NothingUnderLeaves(ns[0]) && NothingUnderLeavesAll(ns[1..])
  }

  // ---------- the scanner ----------

  /** A tag up to the `>` that ends it; one inside double quotes does not. */
  function ReadTag(s: string, quoted: bool): (r: Option<(string, string)>)
    ensures r.Some? ==> |r.value.1| < |s|
  {
    if s == "" then None
    else if s[0] == '>' && !quoted then Some(("", s[1..]))
    else
      match ReadTag(s[1..], if s[0] == '"' then !quoted else quoted)
      case None => None
      case Some((body, rest)) => Some((s[..1] + body, rest))
  }

  function Name(body: string): string {
    if body == "" || body[0] == ' ' then "" else body[..1] + Name(body[1..])
  }

  /** The open elements after a tag: br and hr are void, and a closing tag must match. */
  function AfterTag(body: string, stack: seq<string>): Option<seq<string>> {
    if body != "" && body[0] == '/' then
      if stack != [] && stack[0] == body[1..] then Some(stack[1..]) else None
    else if Name(body) == "br" || Name(body) == "hr" then Some(stack)
    else Some([Name(body)] + stack)
  }

  function Prepend(text: string, r: Option<(string, seq<string>)>): Option<(string, seq<string>)> {
    match r
    case None => None
    case Some((more, stack)) => Some((text + more, stack))
  }

  /** The text between the tags, and the elements still open. */
  function Scan(s: string, stack: seq<string>): Option<(string, seq<string>)>
    decreases |s|
  {
    if s == "" then Some(("", stack))
    else if s[0] != '<' then Prepend(s[..1], Scan(s[1..], stack))
    else
      match ReadTag(s[1..], false)
      case None => None
      case Some((body, rest)) =>
        match AfterTag(body, stack)
        case None => None
        case Some(after) => Scan(rest, after)
  }

  /** The entity a string starts with, as the character it stands for and its length. */
  function Entity(s: string): (r: Option<(char, nat)>)
    ensures r.Some? ==> 0 < r.value.1 <= |s|
  {
    if T.StartsWith(s, "&amp;") then Some(('&', 5))
    else if T.StartsWith(s, "&lt;") then Some(('<', 4))
    else if T.StartsWith(s, "&gt;") then Some(('>', 4))
    else if T.StartsWith(s, "&quot;") then Some(('"', 6))
    else if T.StartsWith(s, "&#x27;") then Some(('\'', 6))
    else None
  }

  function Unescape(s: string): string
    decreases |s|
  {
    if s == "" then ""
    else
      match Entity(s)
      case Some((c, n)) => [c] + Unescape(s[n..])
      case None => s[..1] + Unescape(s[1..])
  }

  // ---------- escaping ----------

  lemma EscapedEntity(c: char, rest: string)
    requires |EscapeChar(c)| > 1
    ensures Entity(EscapeChar(c) + rest) == Some((c, |EscapeChar(c)|))
  {
    var s := EscapeChar(c) + rest;
    assert s[..|EscapeChar(c)|] == EscapeChar(c);
    assert s[0] == '&' && s[1] == EscapeChar(c)[1];
  }

  lemma PlainEntity(c: char, rest: string)
    requires c != '&'
    ensures Entity([c] + rest).None?
  {
    assert ([c] + rest)[0] == c;
  }

  lemma UnescapeEntity(s: string, c: char, n: nat)
    requires Entity(s) == Some((c, n))
    ensures Unescape(s) == [c] + Unescape(s[n..])
  {
  }

  lemma UnescapePlain(c: char, rest: string)
    requires c != '&'
    ensures Unescape([c] + rest) == [c] + Unescape(rest)
  {
    PlainEntity(c, rest);
    assert ([c] + rest)[..1] == [c] && ([c] + rest)[1..] == rest;
  }

  lemma UnescapeJoined(e: string, c: char, rest: string)
    requires Entity(e + rest) == Some((c, |e|))
    ensures Unescape(e + rest) == [c] + Unescape(rest)
  {
    UnescapeEntity(e + rest, c, |e|);
    assert (e + rest)[|e|..] == rest;
  }

  lemma UnescapeChar(c: char, rest: string)
    ensures Unescape(EscapeChar(c) + rest) == [c] + Unescape(rest)
  {
    if |EscapeChar(c)| > 1 {
      EscapedEntity(c, rest);
      UnescapeJoined(EscapeChar(c), c, rest);
    } else {
      UnescapePlain(c, rest);
    }
  }

  lemma {:induction false} UnescapeEscape(s: string)
    ensures Unescape(EscapeHtml(s)) == s
  {
    if s != "" {
      UnescapeChar(s[0], EscapeHtml(s[1..]));
      UnescapeEscape(s[1..]);
    }
  }

  lemma {:induction false} EscapeConcat(a: string, b: string)
    ensures EscapeHtml(a + b) == EscapeHtml(a) + EscapeHtml(b)
  {
    if a == "" {
      assert a + b == b;
    } else {
      assert (a + b)[0] == a[0] && (a + b)[1..] == a[1..] + b;
      EscapeConcat(a[1..], b);
    }
  }

  lemma {:induction false} EscapedIsPlain(s: string)
    ensures '<' !in EscapeHtml(s) && '"' !in EscapeHtml(s)
  {
    if s != "" {
      EscapedIsPlain(s[1..]);
    }
  }

  // ---------- neutral pieces of HTML ----------

  /** Wherever it stands, the piece adds `text` and leaves the open elements as they were. */
  ghost predicate Neutral(piece: string, text: string) {
    forall rest, stack :: Scan(piece + rest, stack) == Prepend(text, Scan(rest, stack))
  }

  lemma PrependNothing(r: Option<(string, seq<string>)>)
    ensures Prepend("", r) == r
  {
    if r.Some? {
      assert "" + r.value.0 == r.value.0;
    }
  }

  lemma PrependTwice(x: string, y: string, r: Option<(string, seq<string>)>)
    ensures Prepend(x, Prepend(y, r)) == Prepend(x + y, r)
  {
    if r.Some? {
      assert x + (y + r.value.0) == x + y + r.value.0;
    }
  }

  lemma NeutralNothing()
    ensures Neutral("", "")
  {
    forall rest, stack ensures Scan("" + rest, stack) == Prepend("", Scan(rest, stack)) {
      assert "" + rest == rest;
      PrependNothing(Scan(rest, stack));
    }
  }

  lemma NeutralConcat(a: string, x: string, b: string, y: string)
    requires Neutral(a, x) && Neutral(b, y)
    ensures Neutral(a + b, x + y)
  {
    forall rest, stack ensures Scan(a + b + rest, stack) == Prepend(x + y, Scan(rest, stack)) {
      assert a + b + rest == a + (b + rest);
      assert Scan(a + (b + rest), stack) == Prepend(x, Scan(b + rest, stack));
      PrependTwice(x, y, Scan(rest, stack));
    }
  }

  lemma {:induction false} NeutralPlain(t: string)
    requires '<' !in t
    ensures Neutral(t, t)
  {
    if t == "" {
      NeutralNothing();
    } else {
      NeutralPlain(t[1..]);
      forall rest, stack ensures Scan(t + rest, stack) == Prepend(t, Scan(rest, stack)) {
        assert (t + rest)[0] == t[0] && (t + rest)[1..] == t[1..] + rest;
        PrependTwice((t + rest)[..1], t[1..], Scan(rest, stack));
        assert (t + rest)[..1] + t[1..] == t;
      }
    }
  }

  /** The body of a tag: quotes balance, and no `>` stands outside them. */
  predicate TagBody(body: string, quoted: bool) {
    if body == "" then !quoted
    else (body[0] == '>' ==> quoted) && TagBody(body[1..], if body[0] == '"' then !quoted else quoted)
  }

  /** A tag is read up to its own end exactly when its quotes and `>` are in order. */
  lemma {:induction false} ReadTagBody(body: string, rest: string, quoted: bool)
    ensures ReadTag(body + ">" + rest, quoted) == Some((body, rest)) <==> TagBody(body, quoted)
  {
    var s := body + ">" + rest;
    if body == "" {
      assert s[0] == '>' && s[1..] == rest;
    } else {
      assert s[0] == body[0] && s[1..] == body[1..] + ">" + rest;
      ReadTagBody(body[1..], rest, if body[0] == '"' then !quoted else quoted);
      assert s[..1] + body[1..] == body;
      assert body[1..] == (s[..1] + body[1..])[1..];
      var r := ReadTag(s[1..], if body[0] == '"' then !quoted else quoted);
      if r.Some? && s[..1] + r.value.0 == body {
        assert r.value.0 == (s[..1] + r.value.0)[1..];
      }
    }
  }

  lemma ScanTag(body: string, rest: string, stack: seq<string>)
    requires TagBody(body, false)
    ensures Scan("<" + body + ">" + rest, stack) ==
              if AfterTag(body, stack).Some? then Scan(rest, AfterTag(body, stack).value) else None
  {
    var s := "<" + body + ">" + rest;
    assert s[0] == '<' && s[1..] == body + ">" + rest;
    ReadTagBody(body, rest, false);
  }

  /** An element name: no quote, no tag end, no space, and not void. */
  predicate GoodName(name: string) {
    && name != "" && name[0] != '/' && name != "br" && name != "hr"
    && forall i | 0 <= i < |name| :: name[i] != '"' && name[i] != '>' && name[i] != ' '
  }

  lemma {:induction false} PlainBody(name: string, quoted: bool, tail: string)
    requires forall i | 0 <= i < |name| :: name[i] != '"' && (name[i] == '>' ==> quoted)
    requires TagBody(tail, quoted)
    ensures TagBody(name + tail, quoted)
  {
    if name == "" {
      assert name + tail == tail;
    } else {
      assert (name + tail)[0] == name[0] && (name + tail)[1..] == name[1..] + tail;
      PlainBody(name[1..], quoted, tail);
    }
  }

  lemma {:induction false} NameOf(name: string, attrs: string)
    requires forall i | 0 <= i < |name| :: name[i] != ' '
    requires attrs == "" || attrs[0] == ' '
    ensures Name(name + attrs) == name
  {
    if name == "" {
      assert name + attrs == attrs;
    } else {
      assert (name + attrs)[0] == name[0] && (name + attrs)[1..] == name[1..] + attrs;
      NameOf(name[1..], attrs);
    }
  }

  lemma NeutralWrap(name: string, attrs: string, inner: string, text: string)
    requires GoodName(name) && TagBody(attrs, false) && (attrs == "" || attrs[0] == ' ')
    requires Neutral(inner, text)
    ensures Neutral(Wrap(name, attrs, inner), text)
  {
    forall rest, stack ensures Scan(Wrap(name, attrs, inner) + rest, stack) == Prepend(text, Scan(rest, stack)) {
      NeutralAt(inner, text, Close(name, rest), [name] + stack);
      WrapScan(name, attrs, inner, text, rest, stack);
    }
  }

  function Close(name: string, rest: string): string { "<" + ("/" + name) + ">" + rest }

  lemma NeutralAt(piece: string, text: string, rest: string, stack: seq<string>)
    requires Neutral(piece, text)
    ensures Scan(piece + rest, stack) == Prepend(text, Scan(rest, stack))
  {
  }

  lemma WrapScan(name: string, attrs: string, inner: string, text: string, rest: string, stack: seq<string>)
    requires GoodName(name) && TagBody(attrs, false) && (attrs == "" || attrs[0] == ' ')
    requires Scan(inner + Close(name, rest), [name] + stack) == Prepend(text, Scan(Close(name, rest), [name] + stack))
    ensures Scan(Wrap(name, attrs, inner) + rest, stack) == Prepend(text, Scan(rest, stack))
  {
    WrapText(name, attrs, inner, rest);
    OpenTag(name, attrs, inner + Close(name, rest), stack);
    CloseTag(name, rest, stack);
  }

  lemma WrapText(name: string, attrs: string, inner: string, rest: string)
    ensures Wrap(name, attrs, inner) + rest == "<" + (name + attrs) + ">" + (inner + Close(name, rest))
  {
  }

  lemma OpenTag(name: string, attrs: string, rest: string, stack: seq<string>)
    requires GoodName(name) && TagBody(attrs, false) && (attrs == "" || attrs[0] == ' ')
    ensures Scan("<" + (name + attrs) + ">" + rest, stack) == Scan(rest, [name] + stack)
  {
    PlainBody(name, false, attrs);
    NameOf(name, attrs);
    ScanTag(name + attrs, rest, stack);
    assert (name + attrs)[0] == name[0];
  }

  lemma CloseTag(name: string, rest: string, stack: seq<string>)
    requires GoodName(name)
    ensures Scan(Close(name, rest), [name] + stack) == Scan(rest, stack)
  {
    PlainBody("/" + name, false, "");
    assert "/" + name + "" == "/" + name;
    ScanTag("/" + name, rest, [name] + stack);
    assert ("/" + name)[1..] == name && ([name] + stack)[1..] == stack;
  }

  lemma NeutralVoid(name: string)
    requires name == "br" || name == "hr"
    ensures Neutral("<" + name + ">", "")
  {
    forall rest, stack ensures Scan("<" + name + ">" + rest, stack) == Prepend("", Scan(rest, stack)) {
      PlainBody(name, false, "");
      assert name + "" == name;
      NameOf(name, "");
      ScanTag(name, rest, stack);
      PrependNothing(Scan(rest, stack));
    }
  }

  // ---------- documents ----------

  predicate IsLeaf(kind: Kind) { kind == CodeBlock || kind == HardBreak || kind == HorizontalRule }

  /** Every href that is rendered, as it is written, has the property. */
  predicate EveryHref(space: char -> bool, n: Node, p: string -> bool)
    decreases n, 1
  {
    match n
    case Text(_, marks) => forall i | 0 <= i < |marks| && marks[i].Link? :: p(SafeHref(space, marks[i].href))
    case Element(kind, content, _) => IsLeaf(kind) || EveryHrefIn(space, content, p)
  }

  predicate EveryHrefIn(space: char -> bool, ns: seq<Node>, p: string -> bool)
    decreases ns, 0
  {
    ns != [] ==> EveryHref(space, ns[0], p) && EveryHrefIn(space, ns[1..], p)
  }

  /** The href is written unescaped: the tag must still be read up to its own end. */
  predicate Fits(href: string) { TagBody(HrefAttr(href), false) }

  predicate HrefFits(space: char -> bool, mark: Mark) { mark.Link? ==> Fits(SafeHref(space, mark.href)) }

  predicate HrefsFit(space: char -> bool, n: Node) { EveryHref(space, n, Fits) }

  predicate HrefsFitAll(space: char -> bool, ns: seq<Node>) { EveryHrefIn(space, ns, Fits) }

  function Quotes(s: string): nat { if s == "" then 0 else (if s[0] == '"' then 1 else 0) + Quotes(s[1..]) }

  lemma {:induction false} QuotesConcat(a: string, b: string)
    ensures Quotes(a + b) == Quotes(a) + Quotes(b)
  {
    if a == "" {
      assert a + b == b;
    } else {
      assert (a + b)[0] == a[0] && (a + b)[1..] == a[1..] + b;
      QuotesConcat(a[1..], b);
    }
  }

  lemma {:induction false} TagBodyParity(body: string, quoted: bool)
    requires TagBody(body, quoted)
    ensures Quotes(body) % 2 == if quoted then 1 else 0
  {
    if body != "" {
      TagBodyParity(body[1..], if body[0] == '"' then !quoted else quoted);
    }
  }

  lemma HrefAttrQuotes(href: string)
    ensures Quotes(HrefAttr(href)) == Quotes(href) + 2
  {
    NoQuotes(" href=");
    QuotesConcat(" href=", "\"" + href + "\"");
    assert HrefAttr(href) == " href=" + ("\"" + href + "\"");
    QuotesConcat("\"" + href, "\"");
    QuotesConcat("\"", href);
    OneQuote();
  }

  lemma OneQuote()
    ensures Quotes("\"") == 1
  {
    assert Quotes("") == 0;
  }

  lemma OddQuotesDoNotFit(href: string)
    requires Quotes(href) % 2 == 1
    ensures !TagBody(HrefAttr(href), false)
  {
    HrefAttrQuotes(href);
    if TagBody(HrefAttr(href), false) {
      TagBodyParity(HrefAttr(href), false);
    }
  }

  /** Without a double quote every href fits; with an odd number of them none does. */
  lemma QuotesDecide(space: char -> bool, href: string)
    ensures '"' !in href ==> HrefFits(space, Link(Some(href)))
    ensures SafeHref(space, Some(href)) == href && Quotes(href) % 2 == 1 ==> !HrefFits(space, Link(Some(href)))
  {
    if '"' !in href {
      HrefAttrBody(SafeHref(space, Some(href)));
    }
    if Quotes(href) % 2 == 1 {
      OddQuotesDoNotFit(href);
    }
  }

  lemma {:induction false} NoQuotes(s: string)
    requires '"' !in s
    ensures Quotes(s) == 0
  {
    if s != "" {
      NoQuotes(s[1..]);
    }
  }

  lemma HrefAttrBody(href: string)
    requires '"' !in href
    ensures TagBody(HrefAttr(href), false)
  {
    assert TagBody("", false) && TagBody("\"", true);
    PlainBody(href, true, "\"");
    assert TagBody("\"" + (href + "\""), false) by {
      assert ("\"" + (href + "\""))[1..] == href + "\"";
    }
    PlainBody(" href=", false, "\"" + (href + "\""));
    assert HrefAttr(href) == " href=" + ("\"" + (href + "\""));
  }

  lemma MarkIsNeutral(space: char -> bool, inner: string, text: string, mark: Mark)
    requires Neutral(inner, text)
    requires HrefFits(space, mark)
    ensures Neutral(WrapMark(space, inner, mark), text)
  {
    match mark
    case Bold => NeutralWrap("strong", "", inner, text);
    case Italic => NeutralWrap("em", "", inner, text);
    case Link(href) =>
      NeutralWrap("a", HrefAttr(SafeHref(space, href)), inner, text);
    case Code => NeutralWrap("code", "", inner, text);
    case OtherMark =>
  }

  lemma {:induction false} MarkedIsNeutral(space: char -> bool, inner: string, text: string, marks: seq<Mark>)
    requires Neutral(inner, text)
    requires forall i | 0 <= i < |marks| :: HrefFits(space, marks[i])
    ensures Neutral(Marked(space, inner, marks), text)
  {
    if marks != [] {
      MarkedIsNeutral(space, inner, text, marks[..|marks| - 1]);
      MarkIsNeutral(space, Marked(space, inner, marks[..|marks| - 1]), text, marks[|marks| - 1]);
    }
  }

  lemma EscapedIsNeutral(s: string)
    ensures Neutral(EscapeHtml(s), EscapeHtml(s))
  {
    EscapedIsPlain(s);
    NeutralPlain(EscapeHtml(s));
  }

  lemma HeadingName(level: int)
    ensures GoodName("h" + T.IntText(level))
  {
    var name := "h" + T.IntText(level);
    assert level >= 0 ==> T.IntText(level) == T.NatText(level);
    assert level < 0 ==> T.IntText(level) == "-" + T.NatText(-level);
    forall i | 0 <= i < |name| ensures name[i] != '"' && name[i] != '>' && name[i] != ' ' {
      assert name[i] == 'h' || name[i] == '-' || T.IsDigit(name[i]) by {
        if i > 0 {
          assert name[i] in T.IntText(level);
        }
      }
    }
    assert name[1] == '-' || T.IsDigit(name[1]);
  }

  lemma VoidIsNeutral(name: string, piece: string)
    requires (name == "br" || name == "hr") && piece == "<" + name + ">"
    ensures Neutral(piece, EscapeHtml(""))
  {
    NeutralVoid(name);
  }

  lemma CodeBlockIsNeutral(text: string)
    ensures Neutral(Wrap("pre", "", Wrap("code", "", EscapeHtml(text))), EscapeHtml(text))
  {
    EscapedIsNeutral(text);
    NeutralWrap("code", "", EscapeHtml(text), EscapeHtml(text));
    NeutralWrap("pre", "", Wrap("code", "", EscapeHtml(text)), EscapeHtml(text));
  }

  /** An element, given what its content and its items render to. */
  lemma ElementIsNeutral(space: char -> bool, kind: Kind, content: seq<Node>, text: string)
    requires !IsLeaf(kind) && kind != BulletList && kind != OrderedList ==>
               Neutral(RenderAll(space, content), EscapeHtml(VisibleAll(content)))
    requires kind == BulletList || kind == OrderedList ==>
        Neutral(RenderItems(space, content), EscapeHtml(VisibleAll(content)))
    ensures Neutral(Render(space, Element(kind, content, text)), EscapeHtml(Visible(Element(kind, content, text))))
  {
    var x := EscapeHtml(VisibleAll(content));
    match kind
    case Paragraph => NeutralWrap("p", "", RenderAll(space, content), x);
    case Heading(level) =>
      HeadingName(level);
      NeutralWrap("h" + T.IntText(level), "", RenderAll(space, content), x);
    case BulletList => NeutralWrap("ul", "", RenderItems(space, content), x);
    case OrderedList => NeutralWrap("ol", "", RenderItems(space, content), x);
    case Blockquote => NeutralWrap("blockquote", "", RenderAll(space, content), x);
    case ListItem =>
    case OtherKind =>
    case _ => LeafIsNeutral(space, kind, content, text);
  }

  lemma LeafIsNeutral(space: char -> bool, kind: Kind, content: seq<Node>, text: string)
    requires IsLeaf(kind)
    ensures Neutral(Render(space, Element(kind, content, text)), EscapeHtml(Visible(Element(kind, content, text))))
  {
    match kind
    case HardBreak => VoidIsNeutral("br", "<br>");
    case HorizontalRule => VoidIsNeutral("hr", "<hr>");
    case CodeBlock => CodeBlockIsNeutral(text);
  }

  /**
   Wherever a rendered document stands, the scanner reads exactly its visible text, escaped, and
   leaves the stack of open elements as it was.
   */
  lemma {:induction false} RenderIsNeutral(space: char -> bool, n: Node)
    requires HrefsFit(space, n)
    ensures Neutral(Render(space, n), EscapeHtml(Visible(n)))
    decreases n, 1
  {
    match n
    case Text(text, marks) =>
      EscapedIsNeutral(text);
      MarkedIsNeutral(space, EscapeHtml(text), EscapeHtml(text), marks);
    case Element(kind, content, text) =>
      if !IsLeaf(kind) {
        RenderAllIsNeutral(space, content);
        RenderItemsIsNeutral(space, content);
      }
      ElementIsNeutral(space, kind, content, text);
  }

  lemma {:induction false} RenderAllIsNeutral(space: char -> bool, ns: seq<Node>)
    requires HrefsFitAll(space, ns)
    ensures Neutral(RenderAll(space, ns), EscapeHtml(VisibleAll(ns)))
    decreases ns, 0
  {
    if ns == [] {
      NeutralNothing();
    } else {
      RenderIsNeutral(space, ns[0]);
      RenderAllIsNeutral(space, ns[1..]);
      NeutralConcat(Render(space, ns[0]), EscapeHtml(Visible(ns[0])), RenderAll(space, ns[1..]),
          EscapeHtml(VisibleAll(ns[1..])));
      EscapeConcat(Visible(ns[0]), VisibleAll(ns[1..]));
    }
  }

  lemma {:induction false} RenderItemsIsNeutral(space: char -> bool, ns: seq<Node>)
    requires HrefsFitAll(space, ns)
    ensures Neutral(RenderItems(space, ns), EscapeHtml(VisibleAll(ns)))
    decreases ns, 0
  {
    if ns == [] {
      NeutralNothing();
    } else {
      var item, x := Wrap("li", "", Render(space, ns[0])), EscapeHtml(Visible(ns[0]));
      RenderIsNeutral(space, ns[0]);
      NeutralWrap("li", "", Render(space, ns[0]), x);
      RenderItemsIsNeutral(space, ns[1..]);
      NeutralConcat(item, x, RenderItems(space, ns[1..]), EscapeHtml(VisibleAll(ns[1..])));
      EscapeConcat(Visible(ns[0]), VisibleAll(ns[1..]));
    }
  }

  /** A document on its own: every tag is closed, and unescaping what is left gives the visible text. */
  lemma RenderedDocument(space: char -> bool, ns: seq<Node>)
    requires HrefsFitAll(space, ns)
    ensures var scanned := Scan(RenderAll(space, ns), []);
            scanned.Some? && scanned.value.1 == [] && Unescape(scanned.value.0) == VisibleAll(ns)
  {
    RenderAllIsNeutral(space, ns);
    NeutralAt(RenderAll(space, ns), EscapeHtml(VisibleAll(ns)), "", []);
    assert RenderAll(space, ns) + "" == RenderAll(space, ns);
    assert EscapeHtml(VisibleAll(ns)) + "" == EscapeHtml(VisibleAll(ns));
    UnescapeEscape(VisibleAll(ns));
  }

  // ---------- exactly which links are rendered right ----------

  /** The node alone: every tag closed, and its text, escaped, between them. */
  predicate RendersAs(space: char -> bool, n: Node, text: string) {
    Scan(Render(space, n), []) == Some((EscapeHtml(text), []))
  }

  /** Where a tag body holds a `>` outside its quotes. */
  function EndIn(body: string, quoted: bool): (r: Option<nat>)
    ensures r.Some? ==> r.value < |body| && body[r.value] == '>'
  {
    if body == "" then None
    else if body[0] == '>' && !quoted then Some(0)
    else
      match EndIn(body[1..], if body[0] == '"' then !quoted else quoted)
      case None => None
      case Some(i) => Some(i + 1)
  }

  lemma {:induction false} ReadTagCut(body: string, rest: string, quoted: bool)
    requires EndIn(body, quoted).Some?
    ensures var i := EndIn(body, quoted).value;
            ReadTag(body + rest, quoted) == Some((body[..i], body[i + 1..] + rest))
  {
    assert (body + rest)[0] == body[0] && (body + rest)[1..] == body[1..] + rest;
    if body[0] == '>' && !quoted {
      assert body[..0] == "";
    } else {
      var i := EndIn(body, quoted).value;
      ReadTagCut(body[1..], rest, if body[0] == '"' then !quoted else quoted);
      assert (body + rest)[..1] + body[1..][..i - 1] == body[..i];
    }
  }

  lemma {:induction false} NoEndInQuotes(rest: string)
    requires '"' !in rest
    ensures ReadTag(rest, true).None?
  {
    if rest != "" {
      assert rest[0] in rest;
      NoEndInQuotes(rest[1..]);
    }
  }

  /** A body that stays quoted swallows what follows. */
  lemma {:induction false} ReadTagOverruns(body: string, rest: string, quoted: bool)
    requires EndIn(body, quoted).None? && !TagBody(body, quoted) && '"' !in rest
    ensures ReadTag(body + rest, quoted).None?
  {
    if body == "" {
      assert body + rest == rest;
      NoEndInQuotes(rest);
    } else {
      assert (body + rest)[0] == body[0] && (body + rest)[1..] == body[1..] + rest;
      ReadTagOverruns(body[1..], rest, if body[0] == '"' then !quoted else quoted);
    }
  }

  /** Without a `>`, a tag body is in order exactly when its quotes are paired. */
  lemma {:induction false} PairedQuotes(body: string, quoted: bool)
    requires '>' !in body
    ensures TagBody(body, quoted) <==> (Quotes(body) % 2 == 1) == quoted
    ensures EndIn(body, quoted).None?
  {
    if body != "" {
      assert body[0] in body;
      PairedQuotes(body[1..], if body[0] == '"' then !quoted else quoted);
    }
  }

  lemma {:induction false} TagBodyHasNoEnd(body: string, quoted: bool)
    requires TagBody(body, quoted)
    ensures EndIn(body, quoted).None?
  {
    if body != "" {
      TagBodyHasNoEnd(body[1..], if body[0] == '"' then !quoted else quoted);
    }
  }

  lemma LinkText(attrs: string, inner: string)
    ensures Wrap("a", attrs, inner)[0] == '<'
    ensures Wrap("a", attrs, inner)[1..] == ("a" + attrs) + (">" + inner + "</a>")
  {
  }

  /** A link whose tag swallows its text is never closed. */
  lemma OverrunLink(attrs: string, inner: string)
    requires EndIn("a" + attrs, false).None? && !TagBody("a" + attrs, false) && '"' !in inner
    ensures Scan(Wrap("a", attrs, inner), []).None?
  {
    LinkText(attrs, inner);
    assert '"' !in ">" + inner + "</a>";
    ReadTagOverruns("a" + attrs, ">" + inner + "</a>", false);
  }

  lemma ShownText(shown: string)
    requires '<' !in shown
    ensures Scan(shown + Close("a", ""), ["a"]) == Some((shown, []))
  {
    NeutralPlain(shown);
    NeutralAt(shown, shown, Close("a", ""), ["a"]);
    CloseTag("a", "", []);
    assert shown + "" == shown;
  }

  lemma CutTag(attrs: string, i: nat)
    requires 1 < i <= |attrs| && attrs[0] == ' '
    ensures AfterTag(("a" + attrs)[..i], []) == Some(["a"])
  {
    assert ("a" + attrs)[..i] == "a" + attrs[..i - 1];
    NameOf("a", attrs[..i - 1]);
    assert ["a"] + [] == ["a"];
  }

  lemma ScanFrom(s: string, body: string, rest: string, stack: seq<string>, after: seq<string>)
    requires s != "" && s[0] == '<' && ReadTag(s[1..], false) == Some((body, rest))
    requires AfterTag(body, stack) == Some(after)
    ensures Scan(s, stack) == Scan(rest, after)
  {
  }

  lemma ShownRest(attrs: string, i: nat, inner: string)
    requires i < |"a" + attrs| && i > 0
    ensures ("a" + attrs)[i + 1..] == attrs[i..]
    ensures ("a" + attrs)[i + 1..] + (">" + inner + "</a>") == (attrs[i..] + ">" + inner) + Close("a", "")
  {
  }

  /** A link whose tag ends early shows the rest of it as text. */
  lemma CutLink(attrs: string, inner: string)
    requires EndIn("a" + attrs, false).Some? && EndIn("a" + attrs, false).value > 1 && attrs[0] == ' '
    requires '<' !in attrs && '<' !in inner
    ensures var i := EndIn("a" + attrs, false).value;
            Scan(Wrap("a", attrs, inner), []) == Some((("a" + attrs)[i + 1..] + ">" + inner, []))
  {
    var i := EndIn("a" + attrs, false).value;
    LinkText(attrs, inner);
    ReadTagCut("a" + attrs, ">" + inner + "</a>", false);
    CutTag(attrs, i);
    ShownRest(attrs, i, inner);
    ScanFrom(Wrap("a", attrs, inner), ("a" + attrs)[..i], (attrs[i..] + ">" + inner) + Close("a", ""), [], ["a"]);
    ShownText(attrs[i..] + ">" + inner);
  }

  /** What an href is to its tag: everything before it is plain up to the opening quote. */
  lemma HrefAfter(plain: string, href: string, body: string)
    requires '"' !in plain && '>' !in plain && body == plain + "\"" + href + "\""
    ensures TagBody(body, false) <==> TagBody(href + "\"", true)
    ensures EndIn(body, false) == match EndIn(href + "\"", true) case None => None case Some(i) => Some(i + |plain| + 1)
  {
    var quoted := "\"" + (href + "\"");
    assert body == plain + quoted;
    Skip(plain, quoted);
    assert quoted[0] == '"' && quoted[1..] == href + "\"";
  }

  lemma HrefTexts(href: string)
    ensures "a" + HrefAttr(href) == "a href=" + "\"" + href + "\""
    ensures HrefAttr(href) == " href=" + "\"" + href + "\""
  {
  }

  lemma HrefBody(href: string)
    ensures EndIn("a" + HrefAttr(href), false) ==
              match EndIn(href + "\"", true) case None => None case Some(i) => Some(i + 8)
    ensures TagBody("a" + HrefAttr(href), false) <==> TagBody(href + "\"", true)
    ensures TagBody(HrefAttr(href), false) <==> TagBody(href + "\"", true)
  {
    HrefTexts(href);
    HrefAfter("a href=", href, "a" + HrefAttr(href));
    HrefAfter(" href=", href, HrefAttr(href));
  }

  /** Characters that neither quote nor end. */
  lemma {:induction false} Skip(plain: string, body: string)
    requires '"' !in plain && '>' !in plain
    ensures TagBody(plain + body, false) <==> TagBody(body, false)
    ensures EndIn(plain + body, false) ==
              match EndIn(body, false) case None => None case Some(i) => Some(|plain| + i)
  {
    if plain == "" {
      assert plain + body == body;
    } else {
      assert plain[0] in plain;
      assert (plain + body)[0] == plain[0] && (plain + body)[1..] == plain[1..] + body;
      Skip(plain[1..], body);
    }
  }

  lemma UnfitLink(href: string, inner: string)
    requires !TagBody(HrefAttr(href), false) && ('<' !in href || '>' !in href)
    requires '<' !in inner && '"' !in inner
    ensures Scan(Wrap("a", HrefAttr(href), inner), []) != Some((inner, []))
  {
    HrefBody(href);
    if EndIn("a" + HrefAttr(href), false).None? {
      OverrunLink(HrefAttr(href), inner);
    } else {
      var i := EndIn(href + "\"", true).value;
      assert (href + "\"")[i] == '>' && (href + "\"")[i] in href + "\"";
      assert '>' in href && '<' !in HrefAttr(href);
      CutLink(HrefAttr(href), inner);
      var shown := ("a" + HrefAttr(href))[i + 9..] + ">" + inner;
      assert |shown| > |inner|;
    }
  }

  /**
   A link text is rendered right exactly when its href fits, for every href that does not hold both
   angle brackets; one with both may close and reopen the link unseen.
   */
  lemma LinkRendersIff(space: char -> bool, text: string, href: Option<string>)
    requires '<' !in SafeHref(space, href) || '>' !in SafeHref(space, href)
    ensures RendersAs(space, Text(text, [Link(href)]), text) <==> HrefFits(space, Link(href))
  {
    var n := Text(text, [Link(href)]);
    OneMark(space, text, Link(href));
    EscapedIsPlain(text);
    if HrefFits(space, Link(href)) {
      RenderIsNeutral(space, n);
      NeutralAt(Render(space, n), EscapeHtml(text), "", []);
      assert Render(space, n) + "" == Render(space, n) && EscapeHtml(text) + "" == EscapeHtml(text);
    } else {
      UnfitLink(SafeHref(space, href), EscapeHtml(text));
    }
  }

  lemma ReopenedText(inner: string)
    ensures Wrap("a", HrefAttr("\"></a><a href=\""), inner)
         == Wrap("a", HrefAttr(""), "") + Wrap("a", HrefAttr(""), inner)
  {
  }

  lemma TwoLinks(attrs: string, inner: string)
    requires TagBody(attrs, false) && attrs != "" && attrs[0] == ' ' && Neutral(inner, inner)
    ensures Scan(Wrap("a", attrs, "") + Wrap("a", attrs, inner), []) == Some((inner, []))
  {
    var first, second := Wrap("a", attrs, ""), Wrap("a", attrs, inner);
    NeutralNothing();
    NeutralWrap("a", attrs, "", "");
    NeutralWrap("a", attrs, inner, inner);
    NeutralConcat(first, "", second, inner);
    NeutralAt(first + second, "" + inner, "", []);
    assert first + second + "" == first + second;
    assert "" + inner + "" == inner;
  }

  /** Both angle brackets: this href does not fit, and yet the text is all there is to see. */
  lemma ReopenedLinkRenders(text: string)
    ensures var href := "\"></a><a href=\"";
            && !TagBody(HrefAttr(href), false)
            && Scan(Wrap("a", HrefAttr(href), EscapeHtml(text)), []) == Some((EscapeHtml(text), []))
  {
    HrefAttrBody("");
    EscapedIsNeutral(text);
    ReopenedText(EscapeHtml(text));
    TwoLinks(HrefAttr(""), EscapeHtml(text));
    ReopenedHrefEnds();
  }

  lemma ReopenedHrefEnds()
    ensures !TagBody(HrefAttr("\"></a><a href=\""), false)
  {
    var rest := "\"></a><a href=\"" + "\"";
    HrefBody("\"></a><a href=\"");
    assert rest[0] == '"' && rest[1..][0] == '>';
    assert EndIn(rest[1..], false) == Some(0);
    assert EndIn(rest, true) == Some(1);
    if TagBody(rest, true) {
      TagBodyHasNoEnd(rest, true);
    }
  }

  lemma OneMark(space: char -> bool, text: string, mark: Mark)
    ensures Render(space, Text(text, [mark])) == WrapMark(space, EscapeHtml(text), mark)
  {
    assert [mark][..0] == [];
    assert Marked(space, EscapeHtml(text), []) == EscapeHtml(text);
  }

  /** Without a closing angle bracket in the href: exactly when its double quotes are even in number. */
  lemma LinkRendersIffQuotesPaired(space: char -> bool, text: string, href: Option<string>)
    requires '>' !in SafeHref(space, href)
    ensures RendersAs(space, Text(text, [Link(href)]), text) <==> Quotes(SafeHref(space, href)) % 2 == 0
  {
    LinkRendersIff(space, text, href);
    PairedQuotes(HrefAttr(SafeHref(space, href)), false);
    HrefAttrQuotes(SafeHref(space, href));
  }

  lemma OneQuoteOverruns(inner: string)
    requires '"' !in inner
    ensures Scan(Wrap("a", HrefAttr("\""), inner), []).None?
  {
    OneQuote();
    HrefAttrQuotes("\"");
    PairedQuotes(HrefAttr("\""), false);
    HrefBody("\"");
    PairedQuotes("a" + HrefAttr("\""), false);
    OverrunLink(HrefAttr("\""), inner);
  }

  lemma OneQuoteIsSafe(space: char -> bool)
    ensures SafeHref(space, Some("\"")) == "\""
  {
    assert |T.Strip(space, "\"")| <= 1;
  }

  /** A document that is not rendered right: one quote in an href, and the link is never closed. */
  lemma OneQuoteLosesDocument(space: char -> bool, text: string)
    ensures Scan(RenderAll(space, [Text(text, [Link(Some("\""))])]), []).None?
  {
    var n := Text(text, [Link(Some("\""))]);
    OneQuoteIsSafe(space);
    OneMark(space, text, Link(Some("\"")));
    EscapedIsPlain(text);
    OneQuoteOverruns(EscapeHtml(text));
    RenderOne(space, n);
  }

  lemma RenderOne(space: char -> bool, n: Node)
    ensures RenderAll(space, [n]) == Render(space, n)
  {
    assert [n][1..] == [];
    assert Render(space, n) + "" == Render(space, n);
  }

  // ---------- what is not rendered ----------

  /** All text is visible exactly when no code block, line break or rule has text under it. */
  lemma {:induction false} AllVisibleIff(n: Node)
    ensures |Visible(n)| <= |FullText(n)|
    ensures Visible(n) == FullText(n) <==> NothingUnderLeaves(n)
    ensures Visible(n) == FullText(n) <==> |Visible(n)| == |FullText(n)|
    decreases n, 1
  {
    match n
    case Text(_, _) =>
    case Element(kind, content, text) =>
      if !IsLeaf(kind) {
        AllVisibleIffAll(content);
        assert "" + FullTextAll(content) == FullTextAll(content);
      }
  }

  lemma {:induction false} AllVisibleIffAll(ns: seq<Node>)
    ensures |VisibleAll(ns)| <= |FullTextAll(ns)|
    ensures VisibleAll(ns) == FullTextAll(ns) <==> NothingUnderLeavesAll(ns)
    ensures VisibleAll(ns) == FullTextAll(ns) <==> |VisibleAll(ns)| == |FullTextAll(ns)|
    decreases ns, 0
  {
    if ns != [] {
      AllVisibleIff(ns[0]);
      AllVisibleIffAll(ns[1..]);
    }
  }

  /**
   A document whose hrefs fit: stripping its tags and unescaping gives all its text nodes and
   code-block texts in document order exactly when none stands under a code block, break or rule.
   */
  lemma DocumentTextIff(space: char -> bool, ns: seq<Node>)
    requires HrefsFitAll(space, ns)
    ensures var scanned := Scan(RenderAll(space, ns), []);
            && scanned.Some? && scanned.value.1 == []
            && (Unescape(scanned.value.0) == FullTextAll(ns) <==> NothingUnderLeavesAll(ns))
  {
    RenderedDocument(space, ns);
    AllVisibleIffAll(ns);
  }

  lemma FullTextOne(n: Node)
    ensures FullTextAll([n]) == FullText(n)
  {
    assert [n][1..] == [];
    assert FullText(n) + "" == FullText(n);
  }

  lemma EmptyCodeBlock(space: char -> bool, content: seq<Node>)
    ensures Render(space, Element(CodeBlock, content, "")) == "<pre><code></code></pre>"
  {
    assert EscapeHtml("") == "";
  }

  /** The usual shape of a code block, with its text in a child, is rendered empty. */
  lemma CodeBlockChildIsLost(space: char -> bool, text: string)
    ensures var ns := [Element(CodeBlock, [Text(text, [])], "")];
            RenderAll(space, ns) == "<pre><code></code></pre>" && FullTextAll(ns) == text
  {
    var n := Element(CodeBlock, [Text(text, [])], "");
    FullTextOne(Text(text, []));
    FullTextOne(n);
    assert FullText(n) == "" + text == text;
    RenderOne(space, n);
    EmptyCodeBlock(space, [Text(text, [])]);
  }
}
