/**
 Which elements a rendered document has: a reader that keeps the tags around every character, against
 a description of the document that writes no HTML.
 */
module RenderedElements {
  import opened Options
  import opened ProseMirror
  import T = Text

  /** A character, or an element without content, with the tags around it, innermost first. */
  datatype Shown = Char(c: char, inside: seq<string>) | Empty(name: string, inside: seq<string>)

  function Put(before: seq<Shown>, r: Option<seq<Shown>>): Option<seq<Shown>> {
    match r
    case None => None
    case Some(after) => Some(before + after)
  }

  /** Reads HTML; a closing tag must close the innermost open one, and in the end all are closed. */
  function Seen(s: string, stack: seq<string>): Option<seq<Shown>>
    decreases |s|
  {
    if s == "" then (if stack == [] then Some([]) else None)
    else if s[0] != '<' then Put([Char(s[0], stack)], Seen(s[1..], stack))
    else
      match ReadTag(s[1..], false)
      case None => None
      case Some((body, rest)) =>
        if body != "" && body[0] == '/' then
          if stack != [] && Name(stack[0]) == body[1..] then Seen(rest, stack[1..]) else None
        else if body == "br" || body == "hr" then Put([Empty(body, stack)], Seen(rest, stack))
        else Seen(rest, [body] + stack)
  }

  // ---------- what there is to see in a document ----------

  function Chars(text: string, inside: seq<string>): seq<Shown> {
    if text == "" then [] else [Char(text[0], inside)] + Chars(text[1..], inside)
  }

  function MarkTag(space: char -> bool, mark: Mark): seq<string> {
    match mark
    case Bold => ["strong"]
    case Italic => ["em"]
    case Link(href) => ["a href=\"" + SafeHref(space, href) + "\""]
    case Code => ["code"]
    case OtherMark => []
  }

  function MarkTags(space: char -> bool, marks: seq<Mark>): seq<string> {
    if marks == [] then [] else MarkTag(space, marks[0]) + MarkTags(space, marks[1..])
  }

  /** The tag of an element, if it has one. */
  function ElementTags(kind: Kind): seq<string> {
    match kind
    case Paragraph => ["p"]
    case Heading(level) => ["h" + T.IntText(level)]
    case BulletList => ["ul"]
    case OrderedList => ["ol"]
    case Blockquote => ["blockquote"]
    case CodeBlock => ["code", "pre"]
    case _ => []
  }

  /** A text is inside its marks, the first innermost; every child of a list is an item. */
  function Look(space: char -> bool, n: Node, around: seq<string>): seq<Shown>
    decreases n, 1
  {
    match n
    case Text(text, marks) => Chars(EscapeHtml(text), MarkTags(space, marks) + around)
    case Element(kind, content, text) =>
      if kind == HardBreak then [Empty("br", around)]
      else if kind == HorizontalRule then [Empty("hr", around)]
      else if kind == CodeBlock then Chars(EscapeHtml(text), ElementTags(kind) + around)
      else if kind == BulletList || kind == OrderedList then
        LookAll(space, content, ["li"] + ElementTags(kind) + around)
      else LookAll(space, content, ElementTags(kind) + around)
  }

  function LookAll(space: char -> bool, ns: seq<Node>, around: seq<string>): seq<Shown>
    decreases ns, 0
  {
    if ns == [] then [] else Look(space, ns[0], around) + LookAll(space, ns[1..], around)
  }

  // ---------- the rendering shows exactly that ----------

  lemma PutTwice(a: seq<Shown>, b: seq<Shown>, r: Option<seq<Shown>>)
    ensures Put(a, Put(b, r)) == Put(a + b, r)
  {
    if r.Some? {
      assert a + (b + r.value) == a + b + r.value;
    }
  }

  lemma PutNothing(r: Option<seq<Shown>>)
    ensures Put([], r) == r
  {
    if r.Some? {
      assert [] + r.value == r.value;
    }
  }

  lemma SeenTag(body: string, rest: string, stack: seq<string>)
    requires TagBody(body, false)
    ensures Seen("<" + body + ">" + rest, stack) ==
              if body != "" && body[0] == '/' then
                if stack != [] && Name(stack[0]) == body[1..] then Seen(rest, stack[1..]) else None
              else if body == "br" || body == "hr" then Put([Empty(body, stack)], Seen(rest, stack))
              else Seen(rest, [body] + stack)
  {
    var s := "<" + body + ">" + rest;
    assert s[0] == '<' && s[1..] == body + ">" + rest;
    ReadTagBody(body, rest, false);
  }

  lemma {:induction false} CharsSeen(text: string, rest: string, stack: seq<string>)
    requires '<' !in text
    ensures Seen(text + rest, stack) == Put(Chars(text, stack), Seen(rest, stack))
  {
    if text == "" {
      assert text + rest == rest;
      PutNothing(Seen(rest, stack));
    } else {
      assert (text + rest)[0] == text[0] && (text + rest)[1..] == text[1..] + rest;
      assert text[0] in text;
      CharsSeen(text[1..], rest, stack);
      PutTwice([Char(text[0], stack)], Chars(text[1..], stack), Seen(rest, stack));
    }
  }

  /** Around what is seen of `inner`, one more element. */
  lemma WrapSeen(name: string, attrs: string, inner: string, rest: string, stack: seq<string>, shown: seq<Shown>)
    requires GoodName(name) && TagBody(attrs, false) && (attrs == "" || attrs[0] == ' ')
    requires Seen(inner + Close(name, rest), [name + attrs] + stack)
          == Put(shown, Seen(Close(name, rest), [name + attrs] + stack))
    ensures Seen(Wrap(name, attrs, inner) + rest, stack) == Put(shown, Seen(rest, stack))
  {
    WrapText(name, attrs, inner, rest);
    OpenSeen(name, attrs, inner + Close(name, rest), stack);
    CloseSeen(name, attrs, rest, stack);
  }

  lemma OpenSeen(name: string, attrs: string, rest: string, stack: seq<string>)
    requires GoodName(name) && TagBody(attrs, false) && (attrs == "" || attrs[0] == ' ')
    ensures Seen("<" + (name + attrs) + ">" + rest, stack) == Seen(rest, [name + attrs] + stack)
  {
    PlainBody(name, false, attrs);
    SeenTag(name + attrs, rest, stack);
    assert (name + attrs)[0] == name[0];
    NameOf(name, attrs);
    NameOf("br", "");
    NameOf("hr", "");
    assert "br" + "" == "br" && "hr" + "" == "hr";
  }

  lemma CloseSeen(name: string, attrs: string, rest: string, stack: seq<string>)
    requires GoodName(name) && (attrs == "" || attrs[0] == ' ')
    ensures Seen(Close(name, rest), [name + attrs] + stack) == Seen(rest, stack)
  {
    PlainBody("/" + name, false, "");
    assert "/" + name + "" == "/" + name;
    SeenTag("/" + name, rest, [name + attrs] + stack);
    NameOf(name, attrs);
    assert ("/" + name)[1..] == name && ([name + attrs] + stack)[1..] == stack;
  }

  lemma VoidSeen(name: string, rest: string, stack: seq<string>)
    requires name == "br" || name == "hr"
    ensures Seen("<" + name + ">" + rest, stack) == Put([Empty(name, stack)], Seen(rest, stack))
  {
    PlainBody(name, false, "");
    assert name + "" == name;
    SeenTag(name, rest, stack);
  }

  /** A wrapped piece, given what is seen of the piece inside its tag. */
  lemma NamedSeen(name: string, inner: string, rest: string, stack: seq<string>, shown: seq<Shown>)
    requires GoodName(name)
    requires Seen(inner + Close(name, rest), [name] + stack) == Put(shown, Seen(Close(name, rest), [name] + stack))
    ensures Seen(Wrap(name, "", inner) + rest, stack) == Put(shown, Seen(rest, stack))
  {
    assert name + "" == name;
    WrapSeen(name, "", inner, rest, stack, shown);
  }

  lemma {:induction false} LastTag(space: char -> bool, marks: seq<Mark>)
    requires marks != []
    ensures MarkTags(space, marks) == MarkTags(space, marks[..|marks| - 1]) + MarkTag(space, marks[|marks| - 1])
  {
    if |marks| > 1 {
      LastTag(space, marks[1..]);
      assert marks[1..][..|marks| - 2] == marks[..|marks| - 1][1..];
    }
  }

  lemma LinkTag(href: string)
    ensures "a href=\"" + href + "\"" == "a" + HrefAttr(href)
  {
  }

  lemma MarkSeen(space: char -> bool, inner: string, mark: Mark, rest: string, stack: seq<string>, shown: seq<Shown>)
    requires HrefFits(space, mark)
    requires forall after :: Seen(inner + after, MarkTag(space, mark) + stack)
                          == Put(shown, Seen(after, MarkTag(space, mark) + stack))
    ensures Seen(WrapMark(space, inner, mark) + rest, stack) == Put(shown, Seen(rest, stack))
  {
    match mark
    case Bold => NamedSeen("strong", inner, rest, stack, shown);
    case Italic => NamedSeen("em", inner, rest, stack, shown);
    case Link(href) =>
      LinkTag(SafeHref(space, href));
      WrapSeen("a", HrefAttr(SafeHref(space, href)), inner, rest, stack, shown);
    case Code => NamedSeen("code", inner, rest, stack, shown);
    case OtherMark => assert [] + stack == stack;
  }

  lemma {:induction false} MarkedSeen(space: char -> bool, text: string, marks: seq<Mark>, rest: string,
                                      stack: seq<string>)
    requires '<' !in text && forall i | 0 <= i < |marks| :: HrefFits(space, marks[i])
    ensures Seen(Marked(space, text, marks) + rest, stack)
         == Put(Chars(text, MarkTags(space, marks) + stack), Seen(rest, stack))
    decreases |marks|
  {
    if marks == [] {
      CharsSeen(text, rest, stack);
      assert [] + stack == stack;
    } else {
      var first, last := marks[..|marks| - 1], marks[|marks| - 1];
      var inside := MarkTag(space, last) + stack;
      LastTag(space, marks);
      assert MarkTags(space, marks) + stack == MarkTags(space, first) + inside;
      forall after
        ensures Seen(Marked(space, text, first) + after, inside)
             == Put(Chars(text, MarkTags(space, marks) + stack), Seen(after, inside))
      {
        MarkedSeen(space, text, first, after, inside);
      }
      MarkSeen(space, Marked(space, text, first), last, rest, stack, Chars(text, MarkTags(space, marks) + stack));
    }
  }

  lemma CodeBlockSeen(text: string, rest: string, stack: seq<string>)
    ensures Seen(Wrap("pre", "", Wrap("code", "", EscapeHtml(text))) + rest, stack)
         == Put(Chars(EscapeHtml(text), ["code", "pre"] + stack), Seen(rest, stack))
  {
    var inside := ["code"] + (["pre"] + stack);
    var after := Close("pre", rest);
    EscapedIsPlain(text);
    CharsSeen(EscapeHtml(text), Close("code", after), inside);
    NamedSeen("code", EscapeHtml(text), after, ["pre"] + stack, Chars(EscapeHtml(text), inside));
    NamedSeen("pre", Wrap("code", "", EscapeHtml(text)), rest, stack, Chars(EscapeHtml(text), inside));
    assert inside == ["code", "pre"] + stack;
  }

  /** Wherever a node stands, its rendering shows what there is to see in it, inside what is around. */
  lemma {:induction false} RenderSeen(space: char -> bool, n: Node, rest: string, stack: seq<string>)
    requires HrefsFit(space, n)
    ensures Seen(Render(space, n) + rest, stack) == Put(Look(space, n, stack), Seen(rest, stack))
    decreases n, 1
  {
    match n {
      case Text(text, marks) =>
        EscapedIsPlain(text);
        MarkedSeen(space, EscapeHtml(text), marks, rest, stack);
      case Element(kind, content, text) =>
        match kind {
          case HardBreak =>
            VoidSeen("br", rest, stack);
            assert "<" + "br" + ">" == "<br>";
          case HorizontalRule =>
            VoidSeen("hr", rest, stack);
            assert "<" + "hr" + ">" == "<hr>";
          case CodeBlock => CodeBlockSeen(text, rest, stack);
          case BulletList => ListSeen(space, "ul", content, rest, stack);
          case OrderedList => ListSeen(space, "ol", content, rest, stack);
          case Paragraph => BlockSeen(space, "p", content, rest, stack);
          case Blockquote => BlockSeen(space, "blockquote", content, rest, stack);
          case Heading(level) =>
            HeadingName(level);
            BlockSeen(space, "h" + T.IntText(level), content, rest, stack);
          case _ =>
            RenderAllSeen(space, content, rest, stack);
            assert [] + stack == stack;
        }
    }
  }

  lemma {:induction false} BlockSeen(space: char -> bool, name: string, content: seq<Node>, rest: string,
                                     stack: seq<string>)
    requires GoodName(name) && HrefsFitAll(space, content)
    ensures Seen(Wrap(name, "", RenderAll(space, content)) + rest, stack)
         == Put(LookAll(space, content, [name] + stack), Seen(rest, stack))
    decreases content, 1
  {
    RenderAllSeen(space, content, Close(name, rest), [name] + stack);
    NamedSeen(name, RenderAll(space, content), rest, stack, LookAll(space, content, [name] + stack));
  }

  lemma {:induction false} ListSeen(space: char -> bool, name: string, content: seq<Node>, rest: string,
                                    stack: seq<string>)
    requires GoodName(name) && HrefsFitAll(space, content)
    ensures Seen(Wrap(name, "", RenderItems(space, content)) + rest, stack)
         == Put(LookAll(space, content, ["li"] + [name] + stack), Seen(rest, stack))
    decreases content, 1
  {
    RenderItemsSeen(space, content, Close(name, rest), [name] + stack);
    assert ["li"] + [name] + stack == ["li"] + ([name] + stack);
    NamedSeen(name, RenderItems(space, content), rest, stack, LookAll(space, content, ["li"] + [name] + stack));
  }

  lemma {:induction false} RenderAllSeen(space: char -> bool, ns: seq<Node>, rest: string, stack: seq<string>)
    requires HrefsFitAll(space, ns)
    ensures Seen(RenderAll(space, ns) + rest, stack) == Put(LookAll(space, ns, stack), Seen(rest, stack))
    decreases ns, 0
  {
    if ns == [] {
      assert "" + rest == rest;
      PutNothing(Seen(rest, stack));
    } else {
      var first, more := Render(space, ns[0]), RenderAll(space, ns[1..]);
      assert RenderAll(space, ns) + rest == first + (more + rest);
      RenderSeen(space, ns[0], more + rest, stack);
      RenderAllSeen(space, ns[1..], rest, stack);
      PutTwice(Look(space, ns[0], stack), LookAll(space, ns[1..], stack), Seen(rest, stack));
    }
  }

  lemma {:induction false} RenderItemsSeen(space: char -> bool, ns: seq<Node>, rest: string, stack: seq<string>)
    requires HrefsFitAll(space, ns)
    ensures Seen(RenderItems(space, ns) + rest, stack) == Put(LookAll(space, ns, ["li"] + stack), Seen(rest, stack))
    decreases ns, 0
  {
    if ns == [] {
      assert "" + rest == rest;
      PutNothing(Seen(rest, stack));
    } else {
      var item, more := Wrap("li", "", Render(space, ns[0])), RenderItems(space, ns[1..]);
      assert RenderItems(space, ns) + rest == item + (more + rest);
      RenderSeen(space, ns[0], Close("li", more + rest), ["li"] + stack);
      NamedSeen("li", Render(space, ns[0]), more + rest, stack, Look(space, ns[0], ["li"] + stack));
      RenderItemsSeen(space, ns[1..], rest, stack);
      PutTwice(Look(space, ns[0], ["li"] + stack), LookAll(space, ns[1..], ["li"] + stack), Seen(rest, stack));
    }
  }

  /** A document whose hrefs fit shows each of its characters inside exactly the elements it should be in. */
  lemma DocumentSeen(space: char -> bool, ns: seq<Node>)
    requires HrefsFitAll(space, ns)
    ensures Seen(RenderAll(space, ns), []) == Some(LookAll(space, ns, []))
  {
    RenderAllSeen(space, ns, "", []);
    assert RenderAll(space, ns) + "" == RenderAll(space, ns);
    assert LookAll(space, ns, []) + [] == LookAll(space, ns, []);
  }
}
