/** The already-parsed document the extractor walks. The HTML parser
    itself is not part of this model: a `Document` is what the parser makes
    of a page, given as the node tree and the handful of views of it that
    `Browser.parse` asks for. */
module Tree {

  datatype Option<T> = None | Some(value: T)

  /** One node of the parsed tree.
      - `Comment`: a comment node;
      - `Str`: a text node; `exact` tells whether it is a plain string
        rather than one of the string subclasses the parser also makes
        (CDATA, doctype, processing instruction, ...). Every string node is
        text to the extractor; only the anchor rule tests the exact class;
      - `Tag`: an element with its (lower-case) tag name, attributes and
        children in document order. */
  datatype Node =
    | Comment(data: string)
    | Str(data: string, exact: bool)
    | Tag(name: string, attrs: map<string, string>, children: seq<Node>)

  /** `tag.get(key)`: the attribute's value, or nothing when it is absent. */
  function Get(attrs: map<string, string>, key: string): Option<string> {
    if key in attrs then Some(attrs[key]) else None
  }

  /** `title.string`: the title's text, absent when the title element does
      not hold exactly one string. */
  datatype TitleTag = TitleTag(str: Option<string>)

  /** The `<head>` element, through the one thing asked of it: its first
      `<title>`, if any. */
  datatype Head = Head(title: Option<TitleTag>)

  /** What `Browser.parse` reads off the parsed page: the `<body>`, `<html>`
      and `<head>` elements (each possibly absent) and the concatenated text
      of the whole page. */
  datatype Document = Document(
    body: Option<Node>,
    html: Option<Node>,
    head: Option<Head>,
    text: string)
}
