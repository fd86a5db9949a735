/** The hand-over in `main`'s `process`: what `parse` yields is what `draw`
    is given. */
module Pipeline {
  import opened PyStr
  import opened Tree
  import opened Markup
  import opened Extractor
  import opened Viewport

  /** The renderer has a case for every element of every non-empty list
      `parse` yields, at every scroll position, as long as a title it
      starts with has text. It says nothing of the labels (`Labelled`). */
  lemma {:induction false} ParsedListIsDrawable(content: WebsiteContent, doc: Document)
    requires Parse(content, doc).Rendered?
    requires var els := Parse(content, doc).elements;
      els != [] && (els[0].Title? ==> els[0].title.Some?)
    ensures Redrawable(Parse(content, doc).elements)
  {
    WellFormed(content, doc);
  }

  /** `<body><a><span>x</span></a><img></body>` under a head with no
      title: the anchor has no `href` and no text of its own, the image no
      `src` and no `alt`. Both reach the renderer, which has a case for
      each, but neither has the label the renderer writes for it. */
  lemma {:induction false} UnlabelledElementsReachDraw(html: string)
    ensures var span := Tag("span", map[], [Str("x", true)]);
      var body := Tag("body", map[], [Tag("a", map[], [span]), Tag("img", map[], [])]);
      var els := [Link(None, None, Nested([Plain("x")])), Image(None, None)];
      Parse(WebsiteContent(html, true, ""), Document(Some(body), None, Some(Head(None)), "x")) ==
        Rendered(els) &&
      Redrawable(els) && !Labelled(els[0]) && !Labelled(els[1])
  {
    assert !IsSpace("x") by { assert !IsSpaceChar("x"[0]); }
    var span := Tag("span", map[], [Str("x", true)]);
    var a := Tag("a", map[], [span]);
    var img := Tag("img", map[], []);
    assert ExtractAll([Str("x", true)]) == [Plain("x")];
    assert Extract(span) == [Plain("x")];
    assert ExtractAll([span]) == [Plain("x")];
    assert Extract(a) == [Link(None, None, Nested([Plain("x")]))];
    assert Extract(img) == [Image(None, None)];
    assert ExtractAll([img]) == [Image(None, None)];
    assert [a, img][1..] == [img];
    assert ExtractAll([a, img]) == [Link(None, None, Nested([Plain("x")])), Image(None, None)];
  }

  /** The corrected `parse` always yields a list the renderer has a case
      for, at every scroll position, as long as a title it starts with
      has text. */
  lemma {:induction false} CorrectedListIsDrawable(content: WebsiteContent, doc: Document, line: int, maxLines: int)
    requires var els := ParseCorrected(content, doc); els[0].Title? ==> els[0].title.Some?
    ensures Redrawable(ParseCorrected(content, doc))
    ensures CanDraw(ParseCorrected(content, doc), line, maxLines)
  {
    RedrawableAtEveryLine(ParseCorrected(content, doc), line, maxLines);
  }
}
