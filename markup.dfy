/** The display elements the extractor produces and the renderer draws
    (the `Browser.HTMLMarkup*` classes), and the fetch result handed to the
    extractor. */
module Markup {
  import opened Tree
  import opened PyStr

  /** A link's nested elements: absent for a link that carries a text run,
      a list (possibly empty) for a link around nested markup. */
  datatype Nested = NoNested | Nested(items: seq<Markup>)

  datatype Markup =
    | Link(href: Option<string>, linkText: Option<string>, nested: Nested)
    | Image(src: Option<string>, alt: Option<string>)
    | Text(text: string, emphasized: bool, underlined: bool)
    | Error(errmsg: string)
    | Title(title: Option<string>)

  /** A text element as the extractor builds it: never emphasized nor
      underlined. */
  function Plain(s: string): Markup {
    Text(s, false, false)
  }

  /** The line-break element a `<br>` becomes. */
  const LineBreak: Markup := Plain("\n")

  /** `WebsiteContent`: the raw page, whether fetching it succeeded, and the
      error message when it did not. */
  datatype WebsiteContent = WebsiteContent(html: string, success: bool, errmsg: string)

  /** An element the page renderer has a case for: a text, an image or a
      link whose nested elements are all drawable. The renderer has no case
      for a title or an error below the first position. Whether the label
      of an image or a link is present is `Labelled`, apart from this. */
  predicate Drawable(e: Markup) {
    match e
    case Text(_, _, _) => true
    case Image(_, _) => true
    case Link(_, _, nested) =>
      nested.NoNested? || forall i :: 0 <= i < |nested.items| ==> Drawable(nested.items[i])
    case _ => false
  }

  /** The label the renderer writes for an element is present: an image
      has its `alt` or its `src`, a link its text or its `href`, and so do
      the elements nested in a link. */
  predicate Labelled(e: Markup) {
    match e
    case Image(src, alt) => alt.Some? || src.Some?
    case Link(href, linkText, nested) =>
      (linkText.Some? || href.Some?) &&
      (nested.Nested? ==> forall i :: 0 <= i < |nested.items| ==> Labelled(nested.items[i]))
    case _ => true
  }

  /** No white-space-only text anywhere in `e`, except the line break:
      every text and every link text holds something to show. */
  predicate NoBlankText(e: Markup) {
    match e
    case Text(t, _, _) => t == "\n" || !IsSpace(t)
    case Link(_, linkText, nested) =>
      (linkText.Some? ==> !IsSpace(linkText.value)) &&
      (nested.Nested? ==> forall i :: 0 <= i < |nested.items| ==> NoBlankText(nested.items[i]))
    case _ => true
  }
}
