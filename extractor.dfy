/** The markup extractor: `Browser._parse`, `Browser._parse_as_plaintext`
    and `Browser.parse` flatten a parsed page into the ordered list of
    display elements the renderer draws. */
module Extractor {
  import opened Tree
  import opened PyStr
  import opened Markup

  /** Tags whose whole subtree contributes nothing. */
  predicate Skipped(name: string) {
    name in ["style", "script", "head", "title", "meta", "[document]"]
  }

  /** `_parse`: the elements one node contributes, in document order. */
  function Extract(n: Node): seq<Markup> {
    match n
    case Comment(_) => []
    case Str(s, _) => if IsSpace(s) then [] else [Plain(s)]
    case Tag(name, attrs, children) =>
      if Skipped(name) then []
      else if name == "img" then [Image(Get(attrs, "src"), Get(attrs, "alt"))]
      else if name == "br" then [LineBreak]
      else if name == "a" then
        if children == [] then []
        else if children[0].Str? && children[0].exact then
          // only an exact plain string as first child makes a text link;
          // the other children are not looked at
          if IsSpace(children[0].data) then []
          else [Link(Get(attrs, "href"), Some(children[0].data), NoNested)]
        else [Link(Get(attrs, "href"), None, Nested(ExtractAll(children)))]
      else ExtractAll(children)
  }

  /** `content += _parse(child)` over a list of children. */
  function ExtractAll(ns: seq<Node>): seq<Markup> {
    if ns == [] then [] else Extract(ns[0]) + ExtractAll(ns[1..])
  }

  /** The extractor never makes a title or an error, so all it yields can
      be drawn, and it never keeps a white-space-only text or link text
      (the line break apart). */
  lemma {:induction false} ExtractIsClean(n: Node)
    ensures forall i :: 0 <= i < |Extract(n)| ==> Drawable(Extract(n)[i]) && NoBlankText(Extract(n)[i])
    decreases n, 1
  {
    match n
    case Comment(_) =>
    case Str(_, _) =>
    case Tag(name, attrs, children) =>
      if !Skipped(name) && name != "img" && name != "br" {
        ExtractAllIsClean(children);
      }
  }

  lemma {:induction false} ExtractAllIsClean(ns: seq<Node>)
    ensures forall i :: 0 <= i < |ExtractAll(ns)| ==>
      Drawable(ExtractAll(ns)[i]) && NoBlankText(ExtractAll(ns)[i])
    decreases ns, 0
  {
    if ns != [] {
      ExtractIsClean(ns[0]);
      ExtractAllIsClean(ns[1..]);
      var h, t := Extract(ns[0]), ExtractAll(ns[1..]);
      assert forall i :: |h| <= i < |h| + |t| ==> (h + t)[i] == t[i - |h|];
    }
  }

  /** Reference count: the children's contributions summed from the last
      child backwards. */
  function LengthSum(ns: seq<Node>): nat {
    if ns == [] then 0 else LengthSum(ns[..|ns| - 1]) + |Extract(ns[|ns| - 1])|
  }

  /** The children's contributions are concatenated in order. */
  lemma {:induction false} ExtractAllAppend(a: seq<Node>, b: seq<Node>)
    ensures ExtractAll(a + b) == ExtractAll(a) + ExtractAll(b)
  {
    if a == [] {
      assert a + b == b;
    } else {
      var rest := a[1..];
      calc {
        ExtractAll(a + b);
        { assert (a + b)[0] == a[0] && (a + b)[1..] == rest + b; }
        Extract(a[0]) + ExtractAll(rest + b);
        { ExtractAllAppend(rest, b); }
        Extract(a[0]) + (ExtractAll(rest) + ExtractAll(b));
        (Extract(a[0]) + ExtractAll(rest)) + ExtractAll(b);
        ExtractAll(a) + ExtractAll(b);
      }
    }
  }

  /** Extracting a list of children yields exactly as many elements as the
      children contribute one by one. */
  lemma {:induction false} ExtractAllLength(ns: seq<Node>)
    ensures |ExtractAll(ns)| == LengthSum(ns)
  {
    if ns != [] {
      var last := |ns| - 1;
      ExtractAllLength(ns[..last]);
      ExtractAllAppend(ns[..last], [ns[last]]);
      assert ns[..last] + [ns[last]] == ns;
      assert ExtractAll([ns[last]]) == Extract(ns[last]) + ExtractAll([]);
    }
  }

  /** The leaf rules: comments and skipped tags give nothing, a text node
      gives itself unless it is white space only, `<img>` gives one image
      with whatever `src` and `alt` it has, `<br>` gives a line break. */
  lemma LeafRules(n: Node)
    ensures n.Comment? ==> Extract(n) == []
    ensures n.Tag? && Skipped(n.name) ==> Extract(n) == []
    ensures n.Str? ==> (Extract(n) == [] <==> IsSpace(n.data))
    ensures n.Str? && !IsSpace(n.data) ==> Extract(n) == [Plain(n.data)]
    ensures n.Tag? && n.name == "img" ==>
      Extract(n) == [Image(Get(n.attrs, "src"), Get(n.attrs, "alt"))]
    ensures n.Tag? && n.name == "br" ==> Extract(n) == [LineBreak]
  {
  }

  /** An empty string node is not white space to Python, so it becomes an
      empty text element. */
  lemma EmptyStringIsText(exact: bool)
    ensures Extract(Str("", exact)) == [Plain("")]
  {
  }

  /** Any other tag is transparent: it contributes its children's elements
      concatenated in order, as many as they contribute together. */
  lemma {:induction false} TransparentTag(name: string, attrs: map<string, string>, children: seq<Node>)
    requires !Skipped(name) && name !in ["img", "br", "a"]
    ensures Extract(Tag(name, attrs, children)) == ExtractAll(children)
    ensures |Extract(Tag(name, attrs, children))| == LengthSum(children)
    ensures forall k :: 0 <= k <= |children| ==>
      Extract(Tag(name, attrs, children)) == ExtractAll(children[..k]) + ExtractAll(children[k..])
  {
    assert Extract(Tag(name, attrs, children)) == ExtractAll(children);
    ExtractAllLength(children);
    forall k | 0 <= k <= |children|
      ensures ExtractAll(children) == ExtractAll(children[..k]) + ExtractAll(children[k..])
    {
      ExtractAllAppend(children[..k], children[k..]);
      assert children[..k] + children[k..] == children;
    }
  }

  /** The anchor rule. An anchor contributes at most one link, carrying its
      `href`. It contributes none when it has no children or when its first
      child is an exact plain string of white space. A first child that is
      an exact plain string becomes the link's text; any other first child
      (a tag, a comment, another string class) makes the link carry the
      extraction of all children instead, even when that is empty. */
  lemma {:induction false} AnchorRule(attrs: map<string, string>, children: seq<Node>)
    ensures var r := Extract(Tag("a", attrs, children));
      |r| <= 1 &&
      (r == [] <==>
        children == [] || (children[0].Str? && children[0].exact && IsSpace(children[0].data))) &&
      (r != [] ==> r[0].Link? && r[0].href == Get(attrs, "href")) &&
      (r != [] && children[0].Str? && children[0].exact ==>
        r[0].linkText == Some(children[0].data) && r[0].nested.NoNested?) &&
      (r != [] && !(children[0].Str? && children[0].exact) ==>
        r[0].linkText.None? && r[0].nested.Nested? &&
        r[0].nested.items == ExtractAll(children) &&
        |r[0].nested.items| == LengthSum(children))
  {
    ExtractAllLength(children);
  }

  /** In a text link the children after the first are ignored. */
  lemma TextLinkIgnoresRest(attrs: map<string, string>, s: string, rest: seq<Node>)
    ensures Extract(Tag("a", attrs, [Str(s, true)] + rest)) == Extract(Tag("a", attrs, [Str(s, true)]))
  {
  }

  /** A comment as first child is not a plain string, so the anchor takes
      the nested branch and still yields one link, with no nested elements
      from the comment. */
  lemma CommentFirstMakesNestedLink(attrs: map<string, string>, c: string, rest: seq<Node>)
    ensures Extract(Tag("a", attrs, [Comment(c)] + rest)) ==
      [Link(Get(attrs, "href"), None, Nested(ExtractAll(rest)))]
  {
    var cs := [Comment(c)] + rest;
    assert cs[0] == Comment(c) && cs[1..] == rest;
    assert ExtractAll(cs) == Extract(Comment(c)) + ExtractAll(rest) == ExtractAll(rest);
  }

  // ---------------------------------------------------------------------
  // The plain-text fallback

  /** `filter(None, lines)`: the non-empty lines, in order. */
  function NonEmptyLines(lines: seq<string>): seq<string> {
    if lines == [] then [] else Kept(lines[0]) + NonEmptyLines(lines[1..])
  }

  /** One line as `filter(None, ...)` keeps it: dropped when empty. */
  function Kept(line: string): seq<string> {
    if |line| == 0 then [] else [line]
  }

  /** The loop of `_parse_as_plaintext`: one stripped text per line. */
  function StrippedTexts(lines: seq<string>): seq<Markup> {
    if lines == [] then [] else [Plain(Strip(lines[0]))] + StrippedTexts(lines[1..])
  }

  /** `_parse_as_plaintext`. */
  function ParseAsPlaintext(text: string): seq<Markup> {
    StrippedTexts(NonEmptyLines(Split(text, '\n')))
  }

  lemma {:induction false} NonEmptyLinesAppend(a: seq<string>, b: seq<string>)
    ensures NonEmptyLines(a + b) == NonEmptyLines(a) + NonEmptyLines(b)
  {
    if a == [] {
      assert a + b == b;
    } else {
      var rest := a[1..];
      calc {
        NonEmptyLines(a + b);
        { assert a + b == [a[0]] + (rest + b); NonEmptyLinesCons(a[0], rest + b); }
        Kept(a[0]) + NonEmptyLines(rest + b);
        { NonEmptyLinesAppend(rest, b); }
        Kept(a[0]) + (NonEmptyLines(rest) + NonEmptyLines(b));
        (Kept(a[0]) + NonEmptyLines(rest)) + NonEmptyLines(b);
        { assert a == [a[0]] + rest; NonEmptyLinesCons(a[0], rest); }
        NonEmptyLines(a) + NonEmptyLines(b);
      }
    }
  }

  lemma NonEmptyLinesCons(line: string, rest: seq<string>)
    ensures NonEmptyLines([line] + rest) == Kept(line) + NonEmptyLines(rest)
  {
    assert ([line] + rest)[1..] == rest;
  }

  lemma {:induction false} StrippedTextsAppend(a: seq<string>, b: seq<string>)
    ensures StrippedTexts(a + b) == StrippedTexts(a) + StrippedTexts(b)
  {
    if a == [] {
      assert a + b == b;
    } else {
      var rest := a[1..];
      calc {
        StrippedTexts(a + b);
        { assert (a + b)[0] == a[0] && (a + b)[1..] == rest + b; }
        [Plain(Strip(a[0]))] + StrippedTexts(rest + b);
        { StrippedTextsAppend(rest, b); }
        [Plain(Strip(a[0]))] + (StrippedTexts(rest) + StrippedTexts(b));
        ([Plain(Strip(a[0]))] + StrippedTexts(rest)) + StrippedTexts(b);
        StrippedTexts(a) + StrippedTexts(b);
      }
    }
  }

  /** Plain text is read line by line: the elements of the text around a
      newline are those of the part before it followed by those of the
      part after it. */
  lemma {:induction false} PlaintextAroundNewline(a: string, b: string)
    ensures ParseAsPlaintext(a + "\n" + b) == ParseAsPlaintext(a) + ParseAsPlaintext(b)
  {
    var sa, sb := Split(a, '\n'), Split(b, '\n');
    SplitAround(a, '\n', b);
    NonEmptyLinesAppend(sa, sb);
    StrippedTextsAppend(NonEmptyLines(sa), NonEmptyLines(sb));
  }

  /** A single line gives nothing when empty and otherwise one text holding
      the line stripped; a white-space-only line gives an empty text. */
  lemma {:induction false} PlaintextLine(line: string)
    requires '\n' !in line
    ensures line == "" ==> ParseAsPlaintext(line) == []
    ensures line != "" ==> ParseAsPlaintext(line) == [Plain(Strip(line))]
    ensures IsSpace(line) ==> ParseAsPlaintext(line) == [Plain("")]
  {
    SplitPiece(line, '\n', []);
    if line != "" {
      assert NonEmptyLines([line]) == [line];
      assert StrippedTexts([line]) == [Plain(Strip(line))];
    }
    if IsSpace(line) {
      StripOfSpace(line);
    }
  }

  /** Text made only of line breaks yields no element at all. */
  lemma {:induction false} PlaintextOfNewlinesIsEmpty(n: nat)
    ensures ParseAsPlaintext(seq(n, _ => '\n')) == []
  {
    if n > 0 {
      PlaintextOfNewlinesIsEmpty(n - 1);
      PlaintextAroundNewline("", seq(n - 1, _ => '\n'));
      assert "" + "\n" + seq(n - 1, _ => '\n') == seq(n, _ => '\n');
      PlaintextLine("");
    } else {
      PlaintextLine("");
    }
  }

  /** One plain text per line, holding that line stripped, in order. */
  lemma {:induction false} StrippedTextsPerLine(lines: seq<string>)
    ensures |StrippedTexts(lines)| == |lines|
    ensures forall i :: 0 <= i < |lines| ==> StrippedTexts(lines)[i] == Plain(Strip(lines[i]))
  {
    if lines != [] {
      StrippedTextsPerLine(lines[1..]);
    }
  }

  // ---------------------------------------------------------------------
  // The top level

  /** What `parse` ends in: a list of elements, or the attribute error
      raised by `soup.head.title` when the page has no `<head>`. */
  datatype Outcome = Rendered(elements: seq<Markup>) | NoHead

  const EmptyPage: Markup := Error("Empty Page")

  /** `Browser.parse`. `doc` is the parsed tree of `content.html`. */
  function Parse(content: WebsiteContent, doc: Document): Outcome {
    if !content.success then Rendered([Error(content.errmsg)])
    else if doc.body.None? && |doc.text| == 0 then Rendered([EmptyPage])
    else if doc.body.None? && doc.html.None? then Rendered(ParseAsPlaintext(doc.text))
    else
      // with no <body>, the <html> element is walked in its place
      var body := if doc.body.Some? then doc.body.value else doc.html.value;
      var parsed := Extract(body);
      if doc.head.None? then NoHead
      else
        var titled :=
          if doc.head.value.title.Some? then [Title(doc.head.value.title.value.str)] + parsed
          else parsed;
        if |titled| == 0 then Rendered([EmptyPage]) else Rendered(titled)
  }

  /** A failed fetch gives exactly its error message, whatever the page. */
  lemma FailedFetch(content: WebsiteContent, doc: Document, other: Document, html: string)
    requires !content.success
    ensures Parse(content, doc) == Rendered([Error(content.errmsg)])
    ensures Parse(content.(html := html), other) == Parse(content, doc)
  {
  }

  /** A page without `<body>`: empty text is an empty page; otherwise the
      `<html>` element stands in for the body, and with no `<html>` either
      the text is read as plain lines. */
  lemma Headless(content: WebsiteContent, doc: Document)
    requires content.success && doc.body.None?
    ensures doc.text == "" ==> Parse(content, doc) == Rendered([EmptyPage])
    ensures doc.text != "" && doc.html.Some? ==>
      Parse(content, doc) == Parse(content, doc.(body := doc.html))
    ensures doc.text != "" && doc.html.None? ==>
      Parse(content, doc) == Rendered(ParseAsPlaintext(doc.text))
  {
  }

  /** The tree path (a body, or an html root standing in for it, and a
      head): the result is never empty; a title comes first, once, and is
      followed by the body's elements in order, so a titled page is never
      an empty page; without a title the body's elements are the result,
      or the empty-page error when there are none. */
  lemma {:induction false} TreePath(content: WebsiteContent, doc: Document)
    requires content.success && doc.head.Some?
    requires doc.body.Some? || (doc.html.Some? && doc.text != "")
    ensures var body := if doc.body.Some? then doc.body.value else doc.html.value;
      var r := Parse(content, doc);
      r.Rendered? && |r.elements| > 0 &&
      (doc.head.value.title.Some? ==>
        r.elements[0] == Title(doc.head.value.title.value.str) &&
        r.elements[1..] == Extract(body) &&
        forall i :: 1 <= i < |r.elements| ==> !r.elements[i].Title? && !r.elements[i].Error?) &&
      (doc.head.value.title.None? ==>
        r.elements == (if Extract(body) == [] then [EmptyPage] else Extract(body)))
  {
    var body := if doc.body.Some? then doc.body.value else doc.html.value;
    var r := Parse(content, doc);
    if doc.head.value.title.Some? {
      assert r.elements == [Title(doc.head.value.title.value.str)] + Extract(body);
      ExtractIsClean(body);
      forall i | 1 <= i < |r.elements| ensures !r.elements[i].Title? && !r.elements[i].Error? {
        assert r.elements[i] == Extract(body)[i - 1];
        assert Drawable(Extract(body)[i - 1]);
      }
    }
  }

  /** Shape of every finished result: an error stands alone, a title can
      only come first, and the page renderer has a case for everything
      after the first element. */
  lemma {:induction false} WellFormed(content: WebsiteContent, doc: Document)
    requires Parse(content, doc).Rendered?
    ensures var els := Parse(content, doc).elements;
      (|els| > 0 && els[0].Error? ==> |els| == 1) &&
      forall i :: 1 <= i < |els| ==> Drawable(els[i])
  {
    var els := Parse(content, doc).elements;
    if content.success && !(doc.body.None? && |doc.text| == 0) {
      if doc.body.None? && doc.html.None? {
        StrippedTextsPerLine(NonEmptyLines(Split(doc.text, '\n')));
        assert forall i :: 0 <= i < |els| ==> els[i].Text?;
      } else {
        var body := if doc.body.Some? then doc.body.value else doc.html.value;
        ExtractIsClean(body);
        if doc.head.value.title.Some? {
          assert els == [Title(doc.head.value.title.value.str)] + Extract(body);
          assert forall i :: 1 <= i < |els| ==> els[i] == Extract(body)[i - 1];
        } else if Extract(body) != [] {
          assert els == Extract(body);
        }
      }
    }
  }

  // ---------------------------------------------------------------------
  // Two inputs on which `parse` does not do what the rest of the program
  // expects of it, and the repaired top level.

  /** `<body><h1>Hi</h1></body>` as the parser sees it: a body, no head. */
  const HeadlessPage: Document := Document(
    Some(Tag("body", map[], [Tag("h1", map[], [Str("Hi", true)])])),
    None, None, "Hi")

  /** A page with a body but no `<head>` fails at `soup.head.title`
      instead of yielding its text. */
  lemma HeadlessPageFails(html: string)
    ensures Parse(WebsiteContent(html, true, ""), HeadlessPage) == NoHead
  {
  }

  /** A page of nothing but line breaks gives an empty list, which the
      renderer indexes at position 0. */
  lemma NewlinesOnlyPageIsEmpty(html: string)
    ensures Parse(WebsiteContent(html, true, ""), Document(None, None, None, "\n\n")) ==
      Rendered([])
  {
    PlaintextOfNewlinesIsEmpty(2);
    assert seq(2, _ => '\n') == "\n\n";
  }

  /** `parse` as evidently intended: a missing head means no title, and a
      plain-text page with no line is an empty page. */
  function ParseCorrected(content: WebsiteContent, doc: Document): (r: seq<Markup>)
    ensures |r| > 0
    ensures r[0].Error? ==> |r| == 1
    ensures forall i :: 1 <= i < |r| ==> Drawable(r[i])
  {
    if !content.success then [Error(content.errmsg)]
    else if doc.body.None? && |doc.text| == 0 then [EmptyPage]
    else if doc.body.None? && doc.html.None? then
      var lines := ParseAsPlaintext(doc.text);
      StrippedTextsPerLine(NonEmptyLines(Split(doc.text, '\n')));
      if lines == [] then [EmptyPage] else lines
    else
      var body := if doc.body.Some? then doc.body.value else doc.html.value;
      var parsed := Extract(body);
      ExtractIsClean(body);
      var titled :=
        if doc.head.Some? && doc.head.value.title.Some? then [Title(doc.head.value.title.value.str)] + parsed
        else parsed;
      if |titled| == 0 then [EmptyPage] else titled
  }

  /** Wherever `parse` yields a non-empty list, the corrected version yields
      the same list. */
  lemma CorrectedAgrees(content: WebsiteContent, doc: Document)
    requires Parse(content, doc).Rendered? && Parse(content, doc).elements != []
    ensures ParseCorrected(content, doc) == Parse(content, doc).elements
  {
  }

  /** Where `parse` yields the empty list, the corrected version reports an
      empty page. */
  lemma CorrectedOnEmpty(content: WebsiteContent, doc: Document)
    requires Parse(content, doc) == Rendered([])
    ensures ParseCorrected(content, doc) == [EmptyPage]
  {
  }

  /** Where `parse` fails for want of a head, the corrected version reads
      the page as untitled: the body's elements, or an empty page. */
  lemma CorrectedOnNoHead(content: WebsiteContent, doc: Document)
    requires Parse(content, doc) == NoHead
    ensures doc.body.Some? || doc.html.Some?
    ensures var body := if doc.body.Some? then doc.body.value else doc.html.value;
      ParseCorrected(content, doc) == (if Extract(body) == [] then [EmptyPage] else Extract(body))
  {
  }

  /** The headless page now yields its one heading text. */
  lemma {:induction false} CorrectedHeadlessPage(html: string)
    ensures ParseCorrected(WebsiteContent(html, true, ""), HeadlessPage) == [Plain("Hi")]
  {
    assert !IsSpace("Hi") by { assert !IsSpaceChar("Hi"[0]); }
    var h1 := Tag("h1", map[], [Str("Hi", true)]);
    assert Extract(h1) == ExtractAll([Str("Hi", true)]) == [Plain("Hi")];
    assert ExtractAll([h1]) == [Plain("Hi")];
  }
}
