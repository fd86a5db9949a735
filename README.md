# sailboat: the markup extractor and the content window, in Dafny

sailboat is a small terminal web browser. A query is fetched from the web or
read from disk. `Browser.parse` then flattens the parsed page into an
ordered list of display elements: links, images, texts, one title and
errors. `Display.draw` shows one page of that list in a bordered window.
The arrow keys move the page through `Display._scroll`.

This project models three pieces of `sailboat.py`:

- the extractor (`_parse`, `_parse_as_plaintext`, `parse`), as functions
  over a node tree;
- the content window's scroll state (`_top`, `_current_line`, `_bottom`,
  `_max_lines`), as a class whose methods update those fields;
- the page slice and the row arithmetic of `draw` and `_draw`, as methods
  with loops, proved against specification functions.

It also models how `search` classifies a query.

Files:

- `pystr.dfy` (module `PyStr`): the Python string operations the code
  relies on. These are `isspace`, `strip`, `split` and the `in` substring
  test.
- `tree.dfy` (module `Tree`): the parsed document. It holds nodes (comment,
  string, tag) and the `body`, `html`, `head`/`title` and text views that
  `parse` reads.
- `markup.dfy` (module `Markup`): the five display elements, the fetch
  result `WebsiteContent`, and what it means for an element to be drawable.
- `extractor.dfy` (module `Extractor`): `_parse`, `_parse_as_plaintext`,
  `parse`, and a corrected `parse` (see Findings).
- `query.dfy` (module `Query`): `search` and `_is_path`, up to the fetch.
- `viewport.dfy` (module `Viewport`): Python slicing, the page, the row
  arithmetic, scrolling, and the class `Display`.
- `pipeline.dfy` (module `Pipeline`): the renderer has a case for every element of every non-empty list `parse` yields whose leading title has text, though not always the label it writes.

Behaviour the model keeps exactly as the code has it:

- An anchor tests its first child with an exact class test. Only a plain
  string makes a text link. A comment, a CDATA section or a tag makes a
  nested link, and that link is emitted even when its list is empty. In a
  text link, the children after the first are ignored.
- Python's `isspace` is false on the empty string. So an empty string node
  becomes an empty text.
- The title is added before the empty-page check, so a titled page is
  never an "Empty Page".
- `soup.head.title` is read without checking that there is a head. A page
  without `<head>` ends in the `NoHead` outcome, not in a list.
- The plain-text fallback drops empty lines before stripping. A
  white-space-only line therefore yields an empty text, and a page of bare
  line breaks yields an empty list.
- `draw` always cuts off element 0, whether or not it is a title.
- Scrolling has no lower bound and never looks at the content. From line
  0, scrolling up moves to line -1. The page is then a Python slice with a
  negative start, which counts from the end. From the top, scrolling down
  moves to line 1 however short the page is.
- Between resets, `_top` only changes through the overflow branch of
  `_scroll`; `_reset_page_coordinates` sets it back to 0. It stays
  between 0 and 2, and `draw` never reads it.
- Each nested element of a link adds one extra row.

## Model

| member | source | states |
|---|---|---|
| PyStr.Split | sailboat.py:109 | `split("\n")` yields at least one piece, and no piece contains the separator |
| PyStr.JoinSplit | sailboat.py:109 | joining the pieces of a split with the separator gives back the text |
| PyStr.SplitJoin | sailboat.py:109 | splitting a join of separator-free pieces gives back the pieces |
| PyStr.SplitAround | sailboat.py:109 | the pieces of `a + sep + b` are the pieces of `a` followed by those of `b` |
| PyStr.StripIsTrimmedSlice | sailboat.py:112 | `strip()` yields a slice of the line; all that is removed is white space, and the result neither starts nor ends with white space |
| PyStr.StripOfSpace | sailboat.py:112 | a white-space-only line strips to the empty string |
| PyStr.ContainsInTail | sailboat.py:74 | a match of `pat` in a suffix is a match in the whole string |
| Extractor.ExtractIsClean | sailboat.py:115-159 | `_parse` never yields a title or an error, so `_draw` has a case for every element it yields, and no text or link text it yields is white-space only except the `<br>` line break |
| Extractor.ExtractAllIsClean | sailboat.py:155-159 | the same holds for the concatenated contributions of a list of children |
| Extractor.ExtractAllAppend | sailboat.py:155-159 | children contribute in document order: extracting `a + b` is extracting `a`, then `b` |
| Extractor.ExtractAllLength | sailboat.py:155-159 | the number of elements from a list of children is the sum of what each child contributes |
| Extractor.LeafRules | sailboat.py:115-132 | comments and style/script/head/title/meta/[document] tags give nothing; a string gives nothing exactly when it is white space, else one text holding it; `img` gives one image of its `src` and `alt`, either possibly absent; `br` gives one line break |
| Extractor.EmptyStringIsText | sailboat.py:122-124 | an empty string node gives an empty text, since `isspace` is false on it |
| Extractor.TransparentTag | sailboat.py:155-159 | any other tag gives exactly its children's elements, in order, at every split point, with the summed length |
| Extractor.AnchorRule | sailboat.py:134-153 | an anchor gives at most one link, carrying its `href`. It gives none exactly when it has no children or its first child is an exact plain string of white space. An exact plain-string first child becomes the link text with no nested list. Any other first child gives a link with no text whose nested list is the extraction of all children, of the summed length, even when empty |
| Extractor.TextLinkIgnoresRest | sailboat.py:139-153 | a text link does not depend on the anchor's children after the first |
| Extractor.CommentFirstMakesNestedLink | sailboat.py:143-149 | a comment as first child takes the nested branch, giving one link around the rest |
| Extractor.NonEmptyLinesAppend | sailboat.py:109 | `filter(None, …)` keeps the non-empty lines of each part, in order |
| Extractor.StrippedTextsAppend | sailboat.py:110-113 | the line loop handles consecutive runs of lines independently and in order |
| Extractor.StrippedTextsPerLine | sailboat.py:110-113 | the loop makes one plain text per line, holding that line stripped, in the same order |
| Extractor.PlaintextAroundNewline | sailboat.py:108-113 | the elements of text around a newline are those of the part before it, then those of the part after it |
| Extractor.PlaintextLine | sailboat.py:108-113 | a single line gives nothing when empty, otherwise one text of the stripped line; a white-space-only line gives an empty text |
| Extractor.PlaintextOfNewlinesIsEmpty | sailboat.py:108-113 | text made only of line breaks gives no element |
| Extractor.FailedFetch | sailboat.py:78-80 | a failed fetch gives exactly `[Error(errmsg)]`, whatever the markup and its tree |
| Extractor.Headless | sailboat.py:84-95 | with no body: empty text gives `[Error("Empty Page")]`; with text, an html root is walked as the body; with text and no html root, the text is read as plain lines |
| Extractor.TreePath | sailboat.py:97-106 | on the tree path with a head, the result is a non-empty list. A title comes first, exactly once, followed by the body's elements in order, so a titled page is never an empty page. Without a title, the result is the body's elements, or `[Error("Empty Page")]` when there are none |
| Extractor.WellFormed | sailboat.py:78-106 | an error only ever stands alone, and `_draw` has a case for every element after the first (no title or error past position 0) |
| Extractor.HeadlessPageFails | sailboat.py:97-99 | a page with a body and no head fails at `soup.head.title` |
| Extractor.NewlinesOnlyPageIsEmpty | sailboat.py:84-93 | a page whose only content is `"\n\n"` yields the empty list |
| Extractor.ParseCorrected | sailboat.py:78-106 | the corrected top level always yields a non-empty list; an error stands alone; `_draw` has a case for everything after the first element; with `CorrectedAgrees`, `CorrectedOnEmpty` and `CorrectedOnNoHead` its value is fixed on every input |
| Extractor.CorrectedAgrees | sailboat.py:78-106 | wherever `parse` yields a non-empty list, the corrected top level yields the same list |
| Extractor.CorrectedOnEmpty | sailboat.py:78-106 | wherever `parse` yields the empty list, the corrected top level yields `[Error("Empty Page")]` |
| Extractor.CorrectedOnNoHead | sailboat.py:97-104 | wherever `parse` fails for want of a `<head>`, the corrected top level yields the body's elements untitled, or `[Error("Empty Page")]` when there are none |
| Extractor.CorrectedHeadlessPage | sailboat.py:97-104 | the corrected top level turns the head-less page `<body><h1>Hi</h1></body>` into `[Text("Hi")]` |
| Query.Search | sailboat.py:70-76 | a query is a file path exactly when `_is_path` holds, and is then used as it is. Otherwise the address contains `://`: it is the query itself exactly when the query already contains `://`, else `http://` followed by the query |
| Query.SchemeHasSeparator | sailboat.py:74-75 | `http://` followed by anything contains `://` and differs from what follows it |
| Query.SearchIdempotent | sailboat.py:70-76 | searching again for the address a web query became leads to the same address: the scheme is added at most once |
| Viewport.PageWindow | sailboat.py:259 | the page is a run of consecutive elements of the list that starts at position 1 or later, so element 0 is never on it |
| Viewport.PageBounded | sailboat.py:259 | a page never holds more than `max_lines` elements, for any position, negative ones included |
| Viewport.PageAtTop | sailboat.py:259 | at line 0 the page is the `max_lines` elements after element 0 |
| Viewport.PageAboveTop | sailboat.py:259 | at line -1 the page is the last element alone when the body is shorter than `max_lines`, and empty otherwise |
| Viewport.WrappedRowStops | sailboat.py:276-283 | wrapped text advances one row per line and stops at `max_lines`; from `max_lines` on it does not advance |
| Viewport.OneRowElements | sailboat.py:270-302 | a line break, an image and a text link each advance exactly one row |
| Viewport.RowNeverDecreases | sailboat.py:266-309 | `_draw` never returns a row above the one it started from; a nested link advances at least one row for itself plus one per nested element |
| Viewport.NestedRowsAdvance | sailboat.py:304-307 | drawing a link's nested elements advances at least one row per element |
| Viewport.RowsFromShape | sailboat.py:258-263 | page elements are drawn from the given row, each starting where the previous one ended, never higher up |
| Viewport.ScreenShape | sailboat.py:249-263 | an error first element shows only its heading and message. Otherwise the title is shown exactly when element 0 is a title, and the page holds at most `max_lines` consecutive elements after element 0. Drawing starts at row 1 with rows that never go back up |
| Viewport.RedrawableAtEveryLine | sailboat.py:259-263 | a list whose elements after the first all have a case in `_draw` can be rendered at any scroll position |
| Viewport.ScrollCases | sailboat.py:412-421 | the next line is taken when it and `top` plus it stay above the bottom. Otherwise `top` grows by one when the next line is the bottom and `top + max_lines` is above the bottom. Otherwise nothing changes |
| Viewport.ScrollRoundTrip | sailboat.py:412-417 | away from the bottom edge, scrolling down and then up restores the exact position |
| Viewport.ScrollFromTop | sailboat.py:412-417 | from the top, down moves to line 1 whatever the content, and up moves to line -1 |
| Viewport.ScrollStaysInBounds | sailboat.py:409-421 | scrolling keeps `0 <= top <= bottom - max_lines` and the line below `bottom`, with no lower bound on the line |
| Viewport.Display.constructor | sailboat.py:425-429 | a new window starts at top 0, line 0, with `max_lines` two less than its height |
| Viewport.Display.ResetPageCoordinates | sailboat.py:425-429 | reset sets top and line to 0, `bottom` to the window height and `max_lines` to `bottom - 2` |
| Viewport.Display.DrawElement | sailboat.py:266-309 | `_draw` returns the row given by the row arithmetic of the element |
| Viewport.Display.Render | sailboat.py:249-263 | drawing yields the error screen, or the title, the page at the current line and the row each page element starts at |
| Viewport.Display.Draw | sailboat.py:240-263 | `draw` remembers the list and shows it at the current position |
| Viewport.Display.Scroll | sailboat.py:409-423 | `_scroll` moves the position as `Scrolled` says, keeps the bounds invariant, changes neither `bottom`, `max_lines` nor the list, and redraws the list |
| Pipeline.ParsedListIsDrawable | sailboat.py:444-447 | every non-empty list `parse` yields, whose title (if any) has text, has a case in `_draw` for every element at every scroll position |
| Pipeline.CorrectedListIsDrawable | sailboat.py:444-447 | the same holds for every list of the corrected `parse` |
| Pipeline.UnlabelledElementsReachDraw | sailboat.py:134-153 | an anchor with no `href` around markup and an `<img>` with neither `src` nor `alt` reach `draw` as elements with no label to write (sailboat.py:288-291, 296-300) |

## Left out

- HTML parsing (sailboat.py:82) is done by a library that is not part of this model. A `Document` gives the tree and the body/html/head/title/text views of it as inputs. Nothing ties these views to `content.html` or to each other.
- `textwrap.wrap` (sailboat.py:276) is a library call. It is the parameter `wrap`, of which only the number of lines matters.
- Fetching (`_web_search`, `_file_search`, sailboat.py:161-179) and `os.path.exists` are I/O. `Search` stops at the target to fetch, and the existence test is the flag `pathExists`.
- Query.Search: requires a non-empty query. `_is_path("")` raises `IndexError` at `string[0]` (sailboat.py:181), and an empty command-line argument reaches it (sailboat.py:454-456). The model does not show that failure.
- Curses work is terminal I/O and is not modelled: window creation, borders, colours, focus, the text box, `_check_screen_size`, `_init_colors`, `_focus*` and `_delete_is_backspace` (sailboat.py:194-232, 349-406). The screen-size check survives only as the requirement that the window is at least 3 rows high.
- The `addstr` writes of `draw` and `_draw` are not modelled. This covers their text, colours, the `isLink` flag (it only picks a colour) and the `[IMAGE]` marker. A `Screen` records the title, the page and the starting rows instead.
- Swallowing `curses.error` (sailboat.py:262-263) is not modelled. The model assumes no write fails. In the code, a failing write keeps the row the element started at.
- Pipeline.ParsedListIsDrawable: "drawable" means only that `_draw` has a case for every element, so the rows are defined. It does not promise that drawing succeeds. An image with neither `alt` nor `src`, or a link with neither text nor `href`, raises a `TypeError` in `_draw` (sailboat.py:288-291, 298-300). Such elements come out of `parse`, as `Pipeline.UnlabelledElementsReachDraw` shows, and `Markup.Labelled` names what they lack. The model counts rows only, so it does not show this failure.
- Pipeline.CorrectedListIsDrawable: the same limit applies. The corrected `parse` still yields href-less nested links and images with neither `src` nor `alt`.
- Viewport.Display.Render: requires a leading title to carry text. On `<title></title>` the code fails in `addstr` (sailboat.py:255).
- The interaction loop is plumbing and is not modelled. This covers `await_command` with its recursion on scroll keys, `get_search_query` apart from its reset, `main`, `help`, argument handling and the `KeyboardInterrupt` handler (sailboat.py:234-238, 311-347, 431-464).
- `WebsiteContent.html` is carried but only read through the `Document` made of it.

## Findings

| source | as written | input that shows it | evidently intended | confidence | as-written member | corrected member |
|---|---|---|---|---|---|---|
| sailboat.py:99 | `soup.head.title` is read with no check that the page has a `<head>` | `<body><h1>Hi</h1></body>`: the parser makes no head, so `soup.head` is `None` and the attribute access fails | a page without a head has no title and shows `[Text("Hi")]` | high, not executed | Extractor.HeadlessPageFails | Extractor.CorrectedOnNoHead |
| sailboat.py:93 | the plain-text fallback is returned even when it is empty, and `draw` then reads `content[0]` (sailboat.py:249) | a page whose whole text is `"\n\n"`: no body, no html root, non-empty text, every line empty | an empty result is reported as `[Error("Empty Page")]`, as on the tree path | medium, not executed | Extractor.NewlinesOnlyPageIsEmpty | Extractor.CorrectedOnEmpty |
