/**
 Which documents with links are rendered right.

 An href is written unescaped, so a double quote in it can make its tag swallow what follows, up to
 a later tag that puts the quotes in order again.  A rendered document is taken as the list of its
 tags and of the texts between them, and the scanner is followed over that list.
 */
module DocumentLinks {
  import opened Options
  import opened ProseMirror
  import T = Text

  datatype Token = Chars(text: string) | Tag(body: string)

  function TokenText(t: Token): string {
    match t
    case Chars(text) => text
    case Tag(body) => "<" + body + ">"
  }

  function Flat(ts: seq<Token>): string {
    if ts == [] then "" else TokenText(ts[0]) + Flat(ts[1..])
  }

  function Width(ts: seq<Token>): nat {
    if ts == [] then 0 else (if ts[0].Chars? then |ts[0].text| else 0) + Width(ts[1..])
  }

  /** What a tag does to the number of open elements. */
  function Change(body: string): int {
    if body != "" && body[0] == '/' then -1 else if Name(body) == "br" || Name(body) == "hr" then 0 else 1
  }

  function Balance(ts: seq<Token>): int {
    if ts == [] then 0 else (if ts[0].Tag? then Change(ts[0].body) else 0) + Balance(ts[1..])
  }

  predicate Odd(t: Token) { t.Tag? && Quotes(t.body) % 2 == 1 }

  predicate NoneOdd(ts: seq<Token>) { forall t | t in ts :: !Odd(t) }

  /** Opening tags, and then some text. */
  predicate LeadsToText(ts: seq<Token>) {
    ts != [] &&
    match ts[0]
    case Chars(text) => text != ""
    case Tag(body) => Change(body) == 1 && LeadsToText(ts[1..])
  }

  /** A text is escaped, a tag holds no `>`, and only a link may have odd quotes. */
  predicate TokenOk(t: Token) {
    match t
    case Chars(text) => '<' !in text && '"' !in text
    case Tag(body) => '>' !in body && (Odd(t) ==> "a " <= body)
  }

  predicate Sound(ts: seq<Token>) { ts != [] ==> TokenOk(ts[0]) && Sound(ts[1..]) }

  /** And each link with odd quotes has some text in it. */
  predicate Good(ts: seq<Token>) {
    ts != [] ==> TokenOk(ts[0]) && Good(ts[1..]) && (Odd(ts[0]) ==> LeadsToText(ts[1..]))
  }

  lemma {:induction false} GoodIsSound(ts: seq<Token>)
    requires Good(ts)
    ensures Sound(ts)
  {
    if ts != [] {
      GoodIsSound(ts[1..]);
    }
  }

  // ---------- putting token lists together ----------

  lemma {:induction false} TextConcat(a: seq<Token>, b: seq<Token>)
    ensures Flat(a + b) == Flat(a) + Flat(b)
    ensures Width(a + b) == Width(a) + Width(b) && Balance(a + b) == Balance(a) + Balance(b)
  {
    if a == [] {
      assert a + b == b;
    } else {
      assert (a + b)[0] == a[0] && (a + b)[1..] == a[1..] + b;
      TextConcat(a[1..], b);
    }
  }

  lemma {:induction false} GoodConcat(a: seq<Token>, b: seq<Token>)
    ensures LeadsToText(a) ==> LeadsToText(a + b)
    ensures Good(a) && Good(b) ==> Good(a + b)
  {
    if a == [] {
      assert a + b == b;
    } else {
      assert (a + b)[0] == a[0] && (a + b)[1..] == a[1..] + b;
      GoodConcat(a[1..], b);
    }
  }

  lemma FlatConcat(a: seq<Token>, b: seq<Token>)
    ensures Flat(a + b) == Flat(a) + Flat(b)
    ensures Width(a + b) == Width(a) + Width(b) && Balance(a + b) == Balance(a) + Balance(b)
    ensures LeadsToText(a) ==> LeadsToText(a + b)
    ensures Good(a) && Good(b) ==> Good(a + b)
    ensures NoneOdd(a + b) <==> NoneOdd(a) && NoneOdd(b)
  {
    TextConcat(a, b);
    GoodConcat(a, b);
    assert forall t :: t in a + b <==> t in a || t in b;
  }

  // ---------- the scanner on tokens ----------

  /** What reading a tag gives once a stretch of text is put before it. */
  function Longer(s: string, r: Option<(string, string)>): Option<(string, string)> {
    match r
    case None => None
    case Some((body, rest)) => Some((s + body, rest))
  }

  lemma LongerTwice(c: char, s: string, r: Option<(string, string)>)
    ensures Longer([c], Longer(s, r)) == Longer([c] + s, r)
  {
    if r.Some? {
      assert [c] + (s + r.value.0) == [c] + s + r.value.0;
    }
  }

  lemma LongerByNothing(r: Option<(string, string)>)
    ensures Longer("", r) == r
  {
    if r.Some? {
      assert "" + r.value.0 == r.value.0;
    }
  }

  lemma ReadTagStep(s: string, quoted: bool)
    requires s != "" && !(s[0] == '>' && !quoted)
    ensures ReadTag(s, quoted) == Longer([s[0]], ReadTag(s[1..], if s[0] == '"' then !quoted else quoted))
  {
    assert s[..1] == [s[0]];
  }

  /** Whether the quotes are open after `s`. */
  predicate QuotedAfter(s: string, quoted: bool) { (Quotes(s) % 2 == 1) != quoted }

  lemma QuotedStep(s: string, quoted: bool)
    requires s != ""
    ensures QuotedAfter(s, quoted) == QuotedAfter(s[1..], if s[0] == '"' then !quoted else quoted)
  {
  }

  lemma {:induction false} Through(s: string, rest: string, quoted: bool)
    requires EndIn(s, quoted).None?
    ensures ReadTag(s + rest, quoted) == Longer(s, ReadTag(rest, QuotedAfter(s, quoted)))
  {
    if s == "" {
      assert s + rest == rest;
      LongerByNothing(ReadTag(rest, quoted));
    } else {
      var next := if s[0] == '"' then !quoted else quoted;
      Through(s[1..], rest, next);
      QuotedStep(s, quoted);
      ThroughStep(s, rest, quoted, ReadTag(rest, QuotedAfter(s, quoted)));
    }
  }

  lemma ThroughStep(s: string, rest: string, quoted: bool, r: Option<(string, string)>)
    requires s != "" && !(s[0] == '>' && !quoted)
    requires ReadTag(s[1..] + rest, if s[0] == '"' then !quoted else quoted) == Longer(s[1..], r)
    ensures ReadTag(s + rest, quoted) == Longer(s, r)
  {
    assert (s + rest)[0] == s[0] && (s + rest)[1..] == s[1..] + rest;
    ReadTagStep(s + rest, quoted);
    LongerTwice(s[0], s[1..], r);
    assert [s[0]] + s[1..] == s;
  }

  lemma {:induction false} NoEnd(s: string, quoted: bool)
    requires '>' !in s || (quoted && '"' !in s)
    ensures EndIn(s, quoted).None?
  {
    if s != "" {
      assert s[0] in s;
      NoEnd(s[1..], if s[0] == '"' then !quoted else quoted);
    }
  }

  /** A tag that goes on in quotes. */
  function AfterOdd(ts: seq<Token>): (r: Option<seq<Token>>)
    ensures r.Some? ==> |r.value| < |ts|
  {
    if ts == [] then None else if Odd(ts[0]) then Some(ts[1..]) else AfterOdd(ts[1..])
  }

  lemma SwallowOne(t: Token, rest: string)
    requires TokenOk(t)
    ensures var read := ReadTag(TokenText(t) + rest, true);
            if Odd(t) then read.Some? && read.value.1 == rest
            else read.Some? == ReadTag(rest, true).Some? &&
                 (read.Some? ==> read.value.1 == ReadTag(rest, true).value.1)
  {
    match t
    case Chars(text) =>
      NoEnd(text, true);
      NoQuotes(text);
      Through(text, rest, true);
    case Tag(body) =>
      var s := "<" + body;
      assert TokenText(t) + rest == s + (">" + rest);
      NoEnd(s, true);
      assert Quotes(s) == Quotes(body) by {
        assert s[0] == '<' && s[1..] == body;
      }
      Through(s, ">" + rest, true);
      assert (">" + rest)[0] == '>' && (">" + rest)[1..] == rest;
  }

  /** What a tag with odd quotes swallows: everything up to the next one. */
  lemma {:induction false} Swallowed(ts: seq<Token>)
    requires Sound(ts)
    ensures var read, after := ReadTag(Flat(ts), true), AfterOdd(ts);
            match after
            case None => read.None?
            case Some(r) =>
              && read.Some? && read.value.1 == Flat(r) && (Good(ts) ==> Good(r)) && Width(r) <= Width(ts)
              && (LeadsToText(ts) && Width(r) == Width(ts) ==> Balance(ts) > Balance(r))
  {
    if ts != [] {
      SwallowOne(ts[0], Flat(ts[1..]));
      if !Odd(ts[0]) {
        Swallowed(ts[1..]);
      }
    }
  }

  lemma OddTagRead(body: string, ts: seq<Token>)
    requires TokenOk(Tag(body)) && Odd(Tag(body)) && Sound(ts)
    ensures var read := ReadTag(body + (">" + Flat(ts)), false);
            match AfterOdd(ts)
            case None => read.None?
            case Some(r) => read.Some? && read.value.1 == Flat(r) && body <= read.value.0
  {
    var rest := ">" + Flat(ts);
    NoEnd(body, false);
    Through(body, rest, false);
    Swallowed(ts);
    assert rest[0] == '>' && rest[1..] == Flat(ts);
  }

  lemma TagSplits(body: string, rest: string)
    ensures var s := "<" + body + ">" + rest; s[0] == '<' && s[1..] == body + (">" + rest)
  {
  }

  lemma LinkOpens(body: string, read: string, stack: seq<string>)
    requires "a " <= body <= read
    ensures AfterTag(read, stack) == Some(["a"] + stack)
  {
    LinkName(read);
  }

  lemma OddTagScan(body: string, ts: seq<Token>, stack: seq<string>)
    requires TokenOk(Tag(body)) && Odd(Tag(body)) && Sound(ts)
    ensures var s := "<" + body + ">" + Flat(ts);
            match AfterOdd(ts)
            case None => Scan(s, stack).None?
            case Some(r) => Scan(s, stack) == Scan(Flat(r), ["a"] + stack)
  {
    var s := "<" + body + ">" + Flat(ts);
    TagSplits(body, Flat(ts));
    OddTagRead(body, ts);
    if AfterOdd(ts).Some? {
      var read := ReadTag(s[1..], false).value.0;
      LinkOpens(body, read, stack);
      ScanFrom(s, read, Flat(AfterOdd(ts).value), stack, ["a"] + stack);
    }
  }

  lemma LinkName(body: string)
    requires "a " <= body
    ensures Name(body) == "a" && body[0] == 'a'
  {
    assert body[0] == "a "[0] && body[1] == "a "[1];
    assert Name(body[1..]) == "";
  }

  lemma EvenTagScan(body: string, rest: string, stack: seq<string>)
    requires '>' !in body && !Odd(Tag(body))
    ensures Scan("<" + body + ">" + rest, stack) ==
              if AfterTag(body, stack).Some? then Scan(rest, AfterTag(body, stack).value) else None
    ensures AfterTag(body, stack).Some? ==> |AfterTag(body, stack).value| == |stack| + Change(body)
  {
    PairedQuotes(body, false);
    ScanTag(body, rest, stack);
  }

  /**
   The scanner never shows more than the texts.  If it shows all of them and ends with nothing open,
   then no more tags close than open, and no tag has swallowed another if as many close as open.
   */
  lemma {:induction false} ScanTokens(ts: seq<Token>, stack: seq<string>)
    requires Good(ts) && Scan(Flat(ts), stack).Some? && Scan(Flat(ts), stack).value.1 == []
    ensures var shown := Scan(Flat(ts), stack).value.0;
            && |shown| <= Width(ts)
            && (|shown| == Width(ts) ==>
                  |stack| + Balance(ts) >= 0 && (|stack| + Balance(ts) == 0 ==> NoneOdd(ts)))
    decreases |ts|
  {
    if ts != [] {
      GoodIsSound(ts[1..]);
      match ts[0] {
        case Chars(text) =>
          NeutralPlain(text);
          NeutralAt(text, text, Flat(ts[1..]), stack);
          ScanTokens(ts[1..], stack);
        case Tag(body) =>
          if Odd(ts[0]) {
            OddTagScan(body, ts[1..], stack);
            Swallowed(ts[1..]);
            var r := AfterOdd(ts[1..]).value;
            ScanTokens(r, ["a"] + stack);
            LinkName(body);
          } else {
            EvenTagScan(body, Flat(ts[1..]), stack);
            ScanTokens(ts[1..], AfterTag(body, stack).value);
          }
      }
    }
  }

  // ---------- the tokens of a rendered document ----------

  /** The text is that of the tokens: all that open close, with `width` characters between them. */
  ghost predicate Made(s: string, ts: seq<Token>, width: nat, paired: bool) {
    Flat(ts) == s && Good(ts) && Balance(ts) == 0 && Width(ts) == width && (NoneOdd(ts) <==> paired)
  }

  lemma MadeConcat(a: string, x: seq<Token>, w: nat, p: bool, b: string, y: seq<Token>, v: nat, q: bool)
    requires Made(a, x, w, p) && Made(b, y, v, q)
    ensures Made(a + b, x + y, w + v, p && q)
  {
    FlatConcat(x, y);
  }

  lemma OneToken(t: Token)
    ensures Flat([t]) == TokenText(t) && NoneOdd([t]) == !Odd(t)
    ensures Balance([t]) == (if t.Tag? then Change(t.body) else 0)
    ensures Width([t]) == (if t.Chars? then |t.text| else 0)
  {
    assert [t][1..] == [];
    assert TokenText(t) + "" == TokenText(t);
    assert t in [t];
  }

  lemma MadeText(text: string) returns (ts: seq<Token>)
    ensures Made(EscapeHtml(text), ts, |EscapeHtml(text)|, true) && (text != "" ==> LeadsToText(ts))
  {
    ts := [Chars(EscapeHtml(text))];
    EscapedIsPlain(text);
    OneToken(ts[0]);
    assert ts[1..] == [];
  }

  lemma MadeVoid(name: string) returns (ts: seq<Token>)
    requires name == "br" || name == "hr"
    ensures Made("<" + name + ">", ts, 0, true)
  {
    ts := [Tag(name)];
    OneToken(ts[0]);
    NameOf(name, "");
    assert name + "" == name && ts[1..] == [];
    NoQuotes(name);
  }

  lemma OpensAndCloses(name: string, attrs: string)
    requires GoodName(name) && (attrs == "" || attrs[0] == ' ') && '>' !in attrs
    ensures Change(name + attrs) == 1 && Change("/" + name) == -1
    ensures '>' !in name + attrs && '>' !in "/" + name
    ensures Quotes(name + attrs) == Quotes(attrs) && Quotes("/" + name) == 0
  {
    NameOf(name, attrs);
    assert (name + attrs)[0] == name[0];
    assert '"' !in name;
    NoQuotes(name);
    NoQuotes("/" + name);
    QuotesConcat(name, attrs);
  }

  /** Two tags around the tokens. */
  lemma Enclosed(open: Token, ts: seq<Token>, close: Token, width: nat)
    requires Good(ts) && Balance(ts) == 0 && Width(ts) == width && open.Tag? && close.Tag?
    requires '>' !in open.body && '>' !in close.body && !Odd(close)
    requires Odd(open) ==> "a " <= open.body && LeadsToText(ts)
    requires Change(open.body) == 1 && Change(close.body) == -1
    ensures var r := [open] + (ts + [close]);
            && Good(r) && Balance(r) == 0 && Width(r) == width && (NoneOdd(r) <==> NoneOdd(ts) && !Odd(open))
            && Flat(r) == TokenText(open) + (Flat(ts) + TokenText(close))
            && (LeadsToText(ts) ==> LeadsToText(r))
  {
    var r := [open] + (ts + [close]);
    OneToken(open);
    OneToken(close);
    FlatConcat(ts, [close]);
    FlatConcat([open], ts + [close]);
    assert Good([close]) by {
      assert [close][1..] == [];
    }
    assert r[0] == open && r[1..] == ts + [close];
  }

  lemma LinkStart(attrs: string)
    requires attrs != "" && attrs[0] == ' '
    ensures "a " <= "a" + attrs
  {
  }

  lemma WrapTokens(name: string, attrs: string, inner: string)
    ensures Wrap(name, attrs, inner) == TokenText(Tag(name + attrs)) + (inner + TokenText(Tag("/" + name)))
  {
  }

  lemma MadeWrap(name: string, attrs: string, inner: string, ts: seq<Token>, width: nat, paired: bool)
      returns (r: seq<Token>)
    requires GoodName(name) && (attrs == "" || attrs[0] == ' ') && '>' !in attrs && Made(inner, ts, width, paired)
    requires Quotes(attrs) % 2 == 1 ==> name == "a" && LeadsToText(ts)
    ensures Made(Wrap(name, attrs, inner), r, width, paired && Quotes(attrs) % 2 == 0)
    ensures LeadsToText(ts) ==> LeadsToText(r)
  {
    var open, close := Tag(name + attrs), Tag("/" + name);
    OpensAndCloses(name, attrs);
    if Quotes(attrs) % 2 == 1 {
      LinkStart(attrs);
    }
    Enclosed(open, ts, close, width);
    WrapTokens(name, attrs, inner);
    r := [open] + (ts + [close]);
  }

  predicate Plain(href: string) { '>' !in href }

  predicate Paired(href: string) { Quotes(href) % 2 == 0 }

  /** Every rendered text with a link on it has some characters. */
  predicate LinksShow(n: Node)
    decreases n, 1
  {
    match n
    case Text(text, marks) => text == "" ==> forall mark | mark in marks :: !mark.Link?
    case Element(kind, content, _) => IsLeaf(kind) || LinksShowIn(content)
  }

  predicate LinksShowIn(ns: seq<Node>)
    decreases ns, 0
  {
    ns != [] ==> LinksShow(ns[0]) && LinksShowIn(ns[1..])
  }

  lemma LinkAttr(href: string)
    requires Plain(href)
    ensures '>' !in HrefAttr(href) && HrefAttr(href)[0] == ' ' && GoodName("a")
    ensures Quotes(HrefAttr(href)) % 2 == 0 <==> Paired(href)
  {
    HrefAttrQuotes(href);
  }

  lemma MadeLink(inner: string, ts: seq<Token>, width: nat, paired: bool, href: string) returns (r: seq<Token>)
    requires Made(inner, ts, width, paired) && Plain(href) && LeadsToText(ts)
    ensures Made(Wrap("a", HrefAttr(href), inner), r, width, paired && Paired(href)) && LeadsToText(r)
  {
    LinkAttr(href);
    r := MadeWrap("a", HrefAttr(href), inner, ts, width, paired);
  }

  lemma MadeMark(space: char -> bool, inner: string, ts: seq<Token>, width: nat, paired: bool, mark: Mark)
      returns (r: seq<Token>)
    requires Made(inner, ts, width, paired)
    requires mark.Link? ==> Plain(SafeHref(space, mark.href)) && LeadsToText(ts)
    ensures Made(WrapMark(space, inner, mark), r, width, paired && (mark.Link? ==> Paired(SafeHref(space, mark.href))))
    ensures LeadsToText(ts) ==> LeadsToText(r)
  {
    match mark
    case Bold => r := MadeWrap("strong", "", inner, ts, width, paired);
    case Italic => r := MadeWrap("em", "", inner, ts, width, paired);
    case Code => r := MadeWrap("code", "", inner, ts, width, paired);
    case OtherMark => r := ts;
    case Link(href) => r := MadeLink(inner, ts, width, paired, SafeHref(space, href));
  }

  lemma LastMark(space: char -> bool, text: string, marks: seq<Mark>, p: string -> bool)
    requires marks != []
    ensures var first, last := marks[..|marks| - 1], marks[|marks| - 1];
            && (EveryHref(space, Text(text, marks), p) <==>
                  EveryHref(space, Text(text, first), p) && (last.Link? ==> p(SafeHref(space, last.href))))
            && (LinksShow(Text(text, marks)) ==> LinksShow(Text(text, first)) && (last.Link? ==> text != ""))
  {
    var first, last := marks[..|marks| - 1], marks[|marks| - 1];
    assert last in marks && forall mark | mark in first :: mark in marks;
    assert forall i | 0 <= i < |first| :: first[i] == marks[i];
  }

  lemma {:induction false} MadeMarked(space: char -> bool, text: string, marks: seq<Mark>) returns (ts: seq<Token>)
    requires EveryHref(space, Text(text, marks), Plain) && LinksShow(Text(text, marks))
    ensures Made(Marked(space, EscapeHtml(text), marks), ts, |EscapeHtml(text)|,
                 EveryHref(space, Text(text, marks), Paired))
    ensures text != "" ==> LeadsToText(ts)
    decreases |marks|
  {
    if marks == [] {
      ts := MadeText(text);
    } else {
      var first, last := marks[..|marks| - 1], marks[|marks| - 1];
      LastMark(space, text, marks, Plain);
      LastMark(space, text, marks, Paired);
      var inner := MadeMarked(space, text, first);
      ts := MadeMark(space, Marked(space, EscapeHtml(text), first), inner, |EscapeHtml(text)|,
                     EveryHref(space, Text(text, first), Paired), last);
    }
  }

  lemma MadeLeaf(space: char -> bool, n: Node) returns (ts: seq<Token>)
    requires n.Element? && IsLeaf(n.kind)
    ensures Made(Render(space, n), ts, |EscapeHtml(Visible(n))|, true)
  {
    match n.kind
    case HardBreak => ts := MadeVoid("br");
    case HorizontalRule => ts := MadeVoid("hr");
    case CodeBlock =>
      var width := |EscapeHtml(n.text)|;
      ts := MadeText(n.text);
      ts := MadeWrap("code", "", EscapeHtml(n.text), ts, width, true);
      ts := MadeWrap("pre", "", Wrap("code", "", EscapeHtml(n.text)), ts, width, true);
  }

  lemma {:induction false} MadeNode(space: char -> bool, n: Node) returns (ts: seq<Token>)
    requires EveryHref(space, n, Plain) && LinksShow(n)
    ensures Made(Render(space, n), ts, |EscapeHtml(Visible(n))|, EveryHref(space, n, Paired))
    decreases n, 1
  {
    match n {
      case Text(text, marks) =>
        ts := MadeMarked(space, text, marks);
      case Element(kind, content, _) =>
        if IsLeaf(kind) {
          ts := MadeLeaf(space, n);
        } else {
          ts := MadeElement(space, n, content);
        }
    }
  }

  lemma MadeBlock(name: string, inner: string, ts: seq<Token>, width: nat, paired: bool) returns (r: seq<Token>)
    requires GoodName(name) && Made(inner, ts, width, paired)
    ensures Made(Wrap(name, "", inner), r, width, paired)
  {
    r := MadeWrap(name, "", inner, ts, width, paired);
  }

  /** What an element other than a list or a leaf makes of its content. */
  lemma MadeAround(space: char -> bool, n: Node, ts: seq<Token>, width: nat, paired: bool) returns (r: seq<Token>)
    requires n.Element? && !IsLeaf(n.kind) && n.kind != BulletList && n.kind != OrderedList
    requires Made(RenderAll(space, n.content), ts, width, paired)
    ensures Made(Render(space, n), r, width, paired)
  {
    var inner := RenderAll(space, n.content);
    match n.kind
    case Paragraph => r := MadeBlock("p", inner, ts, width, paired);
    case Blockquote => r := MadeBlock("blockquote", inner, ts, width, paired);
    case Heading(level) =>
      HeadingName(level);
      r := MadeBlock("h" + T.IntText(level), inner, ts, width, paired);
    case _ => r := ts;
  }

  lemma {:induction false} MadeElement(space: char -> bool, n: Node, content: seq<Node>) returns (ts: seq<Token>)
    requires n.Element? && n.content == content && !IsLeaf(n.kind)
    requires EveryHrefIn(space, content, Plain) && LinksShowIn(content)
    ensures Made(Render(space, n), ts, |EscapeHtml(Visible(n))|, EveryHref(space, n, Paired))
    decreases content, 1
  {
    var width, paired := |EscapeHtml(VisibleAll(content))|, EveryHrefIn(space, content, Paired);
    if n.kind == BulletList || n.kind == OrderedList {
      ts := MadeItems(space, content);
      ts := MadeBlock(if n.kind == BulletList then "ul" else "ol", RenderItems(space, content), ts, width, paired);
    } else {
      ts := MadeAll(space, content);
      ts := MadeAround(space, n, ts, width, paired);
    }
  }

  lemma WidthsAdd(a: string, b: string)
    ensures |EscapeHtml(a + b)| == |EscapeHtml(a)| + |EscapeHtml(b)|
  {
    EscapeConcat(a, b);
  }

  lemma {:induction false} MadeAll(space: char -> bool, ns: seq<Node>) returns (ts: seq<Token>)
    requires EveryHrefIn(space, ns, Plain) && LinksShowIn(ns)
    ensures Made(RenderAll(space, ns), ts, |EscapeHtml(VisibleAll(ns))|, EveryHrefIn(space, ns, Paired))
    decreases ns, 0
  {
    if ns == [] {
      ts := [];
    } else {
      var first := MadeNode(space, ns[0]);
      var more := MadeAll(space, ns[1..]);
      ts := first + more;
      MadeConcat(Render(space, ns[0]), first, |EscapeHtml(Visible(ns[0]))|, EveryHref(space, ns[0], Paired),
                 RenderAll(space, ns[1..]), more, |EscapeHtml(VisibleAll(ns[1..]))|,
                 EveryHrefIn(space, ns[1..], Paired));
      WidthsAdd(Visible(ns[0]), VisibleAll(ns[1..]));
    }
  }

  lemma {:induction false} MadeItems(space: char -> bool, ns: seq<Node>) returns (ts: seq<Token>)
    requires EveryHrefIn(space, ns, Plain) && LinksShowIn(ns)
    ensures Made(RenderItems(space, ns), ts, |EscapeHtml(VisibleAll(ns))|, EveryHrefIn(space, ns, Paired))
    decreases ns, 0
  {
    if ns == [] {
      ts := [];
    } else {
      var width, paired := |EscapeHtml(Visible(ns[0]))|, EveryHref(space, ns[0], Paired);
      var first := MadeNode(space, ns[0]);
      first := MadeWrap("li", "", Render(space, ns[0]), first, width, paired);
      var more := MadeItems(space, ns[1..]);
      ts := first + more;
      MadeConcat(Wrap("li", "", Render(space, ns[0])), first, width, paired,
                 RenderItems(space, ns[1..]), more, |EscapeHtml(VisibleAll(ns[1..]))|,
                 EveryHrefIn(space, ns[1..], Paired));
      WidthsAdd(Visible(ns[0]), VisibleAll(ns[1..]));
    }
  }

  // ---------- the result ----------

  lemma PlainFits(href: string)
    requires Plain(href)
    ensures Fits(href) <==> Paired(href)
  {
    PairedQuotes(HrefAttr(href), false);
    HrefAttrQuotes(href);
  }

  lemma {:induction false} PairedFit(space: char -> bool, n: Node)
    requires EveryHref(space, n, Plain) && EveryHref(space, n, Paired)
    ensures HrefsFit(space, n)
    decreases n, 1
  {
    match n
    case Text(_, marks) =>
      forall i | 0 <= i < |marks| && marks[i].Link? ensures Fits(SafeHref(space, marks[i].href)) {
        PlainFits(SafeHref(space, marks[i].href));
      }
    case Element(kind, content, _) =>
      if !IsLeaf(kind) {
        PairedFitIn(space, content);
      }
  }

  lemma {:induction false} PairedFitIn(space: char -> bool, ns: seq<Node>)
    requires EveryHrefIn(space, ns, Plain) && EveryHrefIn(space, ns, Paired)
    ensures HrefsFitAll(space, ns)
    decreases ns, 0
  {
    if ns != [] {
      PairedFit(space, ns[0]);
      PairedFitIn(space, ns[1..]);
    }
  }

  /** Every tag is closed, and what is shown is the visible text, escaped, in document order. */
  predicate RendersRight(space: char -> bool, ns: seq<Node>) {
    Scan(RenderAll(space, ns), []) == Some((EscapeHtml(VisibleAll(ns)), []))
  }

  /**
   A document whose hrefs hold no `>`, and whose links have text, is rendered right exactly when
   every href that is rendered has an even number of double quotes.
   */
  lemma DocumentRendersIff(space: char -> bool, ns: seq<Node>)
    requires EveryHrefIn(space, ns, Plain) && LinksShowIn(ns)
    ensures RendersRight(space, ns) <==> EveryHrefIn(space, ns, Paired)
  {
    var s, x := RenderAll(space, ns), EscapeHtml(VisibleAll(ns));
    var ts := MadeAll(space, ns);
    if RendersRight(space, ns) {
      ScanTokens(ts, []);
    }
    if EveryHrefIn(space, ns, Paired) {
      PairedFitIn(space, ns);
      RenderAllIsNeutral(space, ns);
      NeutralAt(s, x, "", []);
      assert s + "" == s && x + "" == x;
    }
  }

  lemma HiddenLink(body: string)
    requires TokenOk(Tag(body)) && Odd(Tag(body))
    ensures var link := "<" + body + "></a>"; Scan(link + (link + ""), []) == Some(("", []))
  {
    var ts := [Tag("/a"), Tag(body), Tag("/a")];
    var link := "<" + body + "></a>";
    assert ts[1..] == [Tag(body), Tag("/a")] && ts[1..][1..] == [Tag("/a")];
    OneToken(Tag("/a"));
    assert TokenText(Tag("/a")) == "</a>";
    assert Flat(ts) == "</a>" + ("<" + body + ">" + "</a>");
    assert link + (link + "") == "<" + body + ">" + Flat(ts);
    NoQuotes("/a");
    assert AfterOdd(ts) == Some([Tag("/a")]);
    assert Sound([Tag("/a")]) && Sound(ts[1..]);
    OddTagScan(body, ts, []);
    CloseTag("a", "", []);
    assert Close("a", "") == "</a>" && ["a"] + [] == ["a"];
  }

  lemma NothingVisible(n: Node)
    requires n.Text? && n.text == ""
    ensures EscapeHtml(VisibleAll([n, n])) == ""
  {
    assert [n, n][1..] == [n] && [n][1..] == [];
    assert VisibleAll([n]) == "" && VisibleAll([n, n]) == "";
  }

  lemma OneQuoteBody()
    ensures var t := Tag("a" + HrefAttr("\"")); TokenOk(t) && Odd(t) && !Paired("\"")
  {
    OneQuote();
    HrefAttrQuotes("\"");
    OpensAndCloses("a", HrefAttr("\""));
    LinkStart(HrefAttr("\""));
  }

  /** Links without text can hide one another: two hrefs with one quote each, and nothing is missing. */
  lemma EmptyLinksPairUp(space: char -> bool)
    ensures var n := Text("", [Link(Some("\""))]);
            RendersRight(space, [n, n]) && !EveryHrefIn(space, [n, n], Paired)
  {
    var n, body := Text("", [Link(Some("\""))]), "a" + HrefAttr("\"");
    OneQuoteIsSafe(space);
    OneMark(space, "", Link(Some("\"")));
    OneQuoteBody();
    assert Render(space, n) == "<" + body + "></a>";
    assert [n, n][1..] == [n];
    RenderOne(space, n);
    HiddenLink(body);
    assert Render(space, n) + "" == Render(space, n);
    NothingVisible(n);
  }
}
