/** The content window of `Display`: the scroll position it keeps between
    key presses, the page of elements `draw` shows at that position, and the
    rows `_draw` advances through. Colours, borders and the writes to the
    terminal are not modelled; what is drawn is described by the elements
    on the page and the row each one starts at. */
module Viewport {
  import opened Tree
  import opened Markup

  // ---------------------------------------------------------------------
  // The page window

  /** A Python slice bound: a negative index counts from the end, and the
      result is clamped to `0..n`. */
  function SliceIndex(i: int, n: nat): nat {
    if i < 0 then (if i + n < 0 then 0 else i + n)
    else if i > n then n else i
  }

  /** The Python slice `s[start:stop]`. */
  function PySlice<T>(s: seq<T>, start: int, stop: int): seq<T> {
    var lo, hi := SliceIndex(start, |s|), SliceIndex(stop, |s|);
    if lo < hi then s[lo..hi] else []
  }

  /** The page `draw` shows: `content[1:][line : line + maxLines]`. The
      first element is always cut off, title or not. */
  function Page(content: seq<Markup>, line: int, maxLines: int): seq<Markup> {
    PySlice(if content == [] then [] else content[1..], line, line + maxLines)
  }

  /** The page is a run of consecutive elements of `content` that starts
      after position 0 (at `PageStart`). */
  function PageStart(content: seq<Markup>, line: int): nat
    requires |content| > 0
  {
    1 + SliceIndex(line, |content| - 1)
  }

  lemma PageWindow(content: seq<Markup>, line: int, maxLines: int)
    requires |content| > 0
    ensures var p, lo := Page(content, line, maxLines), PageStart(content, line);
      1 <= lo && lo + |p| <= |content| && p == content[lo..lo + |p|]
  {
  }

  /** A page never holds more than `maxLines` elements, wherever the
      position is (negative positions count from the end). */
  lemma PageBounded(content: seq<Markup>, line: int, maxLines: int)
    requires maxLines >= 0
    ensures |Page(content, line, maxLines)| <= maxLines
  {
  }

  /** From the top, the page is the `maxLines` elements after element 0. */
  lemma PageAtTop(content: seq<Markup>, maxLines: int)
    requires |content| > 0 && maxLines >= 0
    ensures Page(content, 0, maxLines) ==
      content[1..if 1 + maxLines < |content| then 1 + maxLines else |content|]
  {
  }

  /** One line above the top, the slice start counts from the end: the page
      is the last element alone when the body is shorter than `maxLines`,
      and empty otherwise. */
  lemma PageAboveTop(content: seq<Markup>, maxLines: int)
    requires |content| >= 2 && maxLines >= 1
    ensures Page(content, -1, maxLines) ==
      if |content| - 1 < maxLines then [content[|content| - 1]] else []
  {
  }

  // ---------------------------------------------------------------------
  // Row arithmetic of `_draw`

  /** Rows reached by drawing `lines` wrapped lines from `row`: the loop
      stops as soon as the row reaches `maxLines`. */
  function WrappedRow(row: int, lines: nat, maxLines: int): int
    decreases lines
  {
    if lines == 0 || row >= maxLines then row else WrappedRow(row + 1, lines - 1, maxLines)
  }

  /** The row after drawing `e` from `row`. `wrap` is the word wrapper of
      the window's width; only how many lines it gives matters. */
  function RowAfter(row: int, e: Markup, maxLines: int, wrap: string -> seq<string>): int
    requires Drawable(e)
    decreases e
  {
    match e
    case Text(t, _, _) => if t == "\n" then row + 1 else WrappedRow(row, |wrap(t)|, maxLines)
    case Image(_, _) => row + 1
    case Link(_, _, nested) =>
      if nested.NoNested? then row + 1 else RowAfterNested(row + 1, nested.items, maxLines, wrap)
  }

  /** A link's nested elements, each one row further down than where the
      previous one ended. */
  function RowAfterNested(row: int, es: seq<Markup>, maxLines: int, wrap: string -> seq<string>): int
    requires forall i :: 0 <= i < |es| ==> Drawable(es[i])
    decreases es
  {
    if es == [] then row
    else RowAfterNested(RowAfter(row, es[0], maxLines, wrap) + 1, es[1..], maxLines, wrap)
  }

  /** Wrapped text advances one row per line while it stays above
      `maxLines`, and not at all from `maxLines` on. */
  lemma {:induction false} WrappedRowStops(row: int, lines: nat, maxLines: int)
    ensures row >= maxLines ==> WrappedRow(row, lines, maxLines) == row
    ensures row < maxLines ==>
      WrappedRow(row, lines, maxLines) == (if row + lines <= maxLines then row + lines else maxLines)
    decreases lines
  {
    if lines > 0 && row < maxLines {
      WrappedRowStops(row + 1, lines - 1, maxLines);
    }
  }

  /** A line break and an image take exactly one row; a text link one row. */
  lemma OneRowElements(row: int, e: Markup, maxLines: int, wrap: string -> seq<string>)
    requires e == LineBreak || e.Image? || (e.Link? && e.nested.NoNested?)
    ensures RowAfter(row, e, maxLines, wrap) == row + 1
  {
  }

  /** Drawing never moves back up; a link moves down at least one row for
      itself and one more for each nested element. */
  lemma {:induction false} RowNeverDecreases(row: int, e: Markup, maxLines: int, wrap: string -> seq<string>)
    requires Drawable(e)
    ensures RowAfter(row, e, maxLines, wrap) >= row
    ensures e.Link? && e.nested.Nested? ==>
      RowAfter(row, e, maxLines, wrap) >= row + 1 + |e.nested.items|
    decreases e, 1
  {
    match e
    case Text(t, _, _) =>
      WrappedRowStops(row, |wrap(t)|, maxLines);
    case Image(_, _) =>
    case Link(_, _, nested) =>
      if nested.Nested? {
        NestedRowsAdvance(row + 1, nested.items, maxLines, wrap);
      }
  }

  lemma {:induction false} NestedRowsAdvance(row: int, es: seq<Markup>, maxLines: int, wrap: string -> seq<string>)
    requires forall i :: 0 <= i < |es| ==> Drawable(es[i])
    ensures RowAfterNested(row, es, maxLines, wrap) >= row + |es|
    decreases es, 0
  {
    if es != [] {
      RowNeverDecreases(row, es[0], maxLines, wrap);
      NestedRowsAdvance(RowAfter(row, es[0], maxLines, wrap) + 1, es[1..], maxLines, wrap);
    }
  }

  // ---------------------------------------------------------------------
  // What `draw` shows

  /** The rows at which the elements of `page` start when drawn one after
      the other from `row`, followed by the row after the last one. */
  function RowsFrom(row: int, page: seq<Markup>, maxLines: int, wrap: string -> seq<string>): seq<int>
    requires forall i :: 0 <= i < |page| ==> Drawable(page[i])
    decreases page
  {
    if page == [] then [row]
    else [row] + RowsFrom(RowAfter(row, page[0], maxLines, wrap), page[1..], maxLines, wrap)
  }

  /** A drawn window: the error heading and message, or the title (when
      the first element is one), the page, and where each page element
      starts (one more row than elements: the last is where drawing ended). */
  datatype Screen =
    | ErrorScreen(message: string)
    | PageScreen(title: Option<string>, page: seq<Markup>, rows: seq<int>)

  /** What `draw` needs: some first element, a title with text, and a page
      of drawable elements. */
  predicate CanDraw(content: seq<Markup>, line: int, maxLines: int) {
    |content| > 0 &&
    (content[0].Title? ==> content[0].title.Some?) &&
    (!content[0].Error? ==>
      forall i :: 0 <= i < |Page(content, line, maxLines)| ==> Drawable(Page(content, line, maxLines)[i]))
  }

  /** `draw` at scroll position `line`. */
  function ScreenOf(content: seq<Markup>, line: int, maxLines: int, wrap: string -> seq<string>): Screen
    requires CanDraw(content, line, maxLines)
  {
    if content[0].Error? then ErrorScreen(content[0].errmsg)
    else
      var page := Page(content, line, maxLines);
      PageScreen(if content[0].Title? then Some(content[0].title.value) else None,
                 page, RowsFrom(1, page, maxLines, wrap))
  }

  lemma {:induction false} RowsFromShape(row: int, page: seq<Markup>, maxLines: int, wrap: string -> seq<string>)
    requires forall i :: 0 <= i < |page| ==> Drawable(page[i])
    ensures var rows := RowsFrom(row, page, maxLines, wrap);
      |rows| == |page| + 1 && rows[0] == row &&
      forall k :: 0 <= k < |page| ==>
        rows[k + 1] == RowAfter(rows[k], page[k], maxLines, wrap) && rows[k] <= rows[k + 1]
    decreases page
  {
    if page != [] {
      RowsFromShape(RowAfter(row, page[0], maxLines, wrap), page[1..], maxLines, wrap);
      RowNeverDecreases(row, page[0], maxLines, wrap);
    }
  }

  /** An error page shows only its message. Any other page shows the title
      if the first element is one, then at most `maxLines` consecutive
      elements taken after the first, starting at row 1, each element
      starting where the previous one ended and never higher up. */
  lemma ScreenShape(content: seq<Markup>, line: int, maxLines: int, wrap: string -> seq<string>)
    requires CanDraw(content, line, maxLines) && maxLines >= 0
    ensures var s := ScreenOf(content, line, maxLines, wrap);
      (content[0].Error? ==> s == ErrorScreen(content[0].errmsg)) &&
      (!content[0].Error? ==>
        s.PageScreen? &&
        (s.title.Some? <==> content[0].Title?) &&
        |s.page| <= maxLines &&
        s.page == content[PageStart(content, line)..PageStart(content, line) + |s.page|] &&
        |s.rows| == |s.page| + 1 && s.rows[0] == 1 &&
        forall k :: 0 <= k < |s.page| ==>
          s.rows[k + 1] == RowAfter(s.rows[k], s.page[k], maxLines, wrap) && s.rows[k] <= s.rows[k + 1])
  {
    if !content[0].Error? {
      PageWindow(content, line, maxLines);
      PageBounded(content, line, maxLines);
      RowsFromShape(1, Page(content, line, maxLines), maxLines, wrap);
    }
  }

  /** A list whose first element can head a window and whose other
      elements are all drawable, so every page of it can be rendered. */
  predicate Redrawable(content: seq<Markup>) {
    |content| > 0 &&
    (content[0].Title? ==> content[0].title.Some?) &&
    forall i :: 1 <= i < |content| ==> Drawable(content[i])
  }

  lemma RedrawableAtEveryLine(content: seq<Markup>, line: int, maxLines: int)
    requires Redrawable(content)
    ensures CanDraw(content, line, maxLines)
  {
    PageWindow(content, line, maxLines);
    var p, lo := Page(content, line, maxLines), PageStart(content, line);
    assert forall i :: 0 <= i < |p| ==> p[i] == content[lo + i];
  }

  // ---------------------------------------------------------------------
  // Scrolling

  /** The scroll position: `_top` and `_current_line`. */
  datatype Position = Position(top: int, line: int)

  /** `_scroll`'s update for `direction` (+1 down, -1 up) in a window of
      `bottom` rows showing `maxLines` elements. Nothing bounds it below. */
  function Scrolled(p: Position, bottom: int, maxLines: int, direction: int): Position {
    var next := p.line + direction;
    if next < bottom && p.top + next < bottom then p.(line := next)
    else if next == bottom && p.top + maxLines < bottom then p.(top := p.top + 1)
    else p
  }

  /** The three outcomes of a scroll. */
  lemma ScrollCases(p: Position, bottom: int, maxLines: int, direction: int)
    ensures var next, q := p.line + direction, Scrolled(p, bottom, maxLines, direction);
      (next < bottom && p.top + next < bottom ==> q == Position(p.top, next)) &&
      (!(next < bottom && p.top + next < bottom) && next == bottom && p.top + maxLines < bottom ==>
        q == Position(p.top + 1, p.line)) &&
      (!(next < bottom && p.top + next < bottom) && !(next == bottom && p.top + maxLines < bottom) ==>
        q == p)
  {
  }

  /** Away from the bottom edge, scrolling down and then up comes back to
      the same position. */
  lemma ScrollRoundTrip(p: Position, bottom: int, maxLines: int)
    requires p.top >= 0 && p.top + p.line + 1 < bottom
    ensures Scrolled(Scrolled(p, bottom, maxLines, 1), bottom, maxLines, -1) == p
  {
  }

  /** Scrolling never looks at the content: from the top, down moves to
      line 1 however short the page, and up moves to line -1. */
  lemma ScrollFromTop(bottom: int, maxLines: int)
    requires bottom >= 2
    ensures Scrolled(Position(0, 0), bottom, maxLines, 1) == Position(0, 1)
    ensures Scrolled(Position(0, 0), bottom, maxLines, -1) == Position(0, -1)
  {
  }

  /** The position invariant of a window whose `maxLines` is `bottom - 2`:
      `top` only grows from 0 by overflow scrolls and so stays within
      `0..bottom - maxLines` (at most two overflow scrolls), and the line
      stays above `bottom`. */
  predicate InBounds(p: Position, bottom: int, maxLines: int) {
    0 <= p.top <= bottom - maxLines && p.line < bottom
  }

  lemma ScrollStaysInBounds(p: Position, bottom: int, maxLines: int, direction: int)
    requires InBounds(p, bottom, maxLines)
    requires direction == 1 || direction == -1
    ensures InBounds(Scrolled(p, bottom, maxLines, direction), bottom, maxLines)
  {
  }

  // ---------------------------------------------------------------------
  // The window object

  class Display {
    var top: int
    var currentLine: int
    var bottom: int
    var maxLines: int
    /** `_current_content`: the list last drawn, redrawn on every scroll. */
    var current: seq<Markup>

    ghost predicate Valid()
      reads this
    {
      maxLines == bottom - 2 && InBounds(Position(top, currentLine), bottom, maxLines)
    }

    /** The coordinate set-up of `Display()`; `height` is the content
        window's height, which the screen-size check keeps at 3 or more. */
    constructor (height: int)
      requires height >= 3
      ensures Valid()
      ensures top == 0 && currentLine == 0 && bottom == height && maxLines == height - 2
      ensures current == []
    {
      top, currentLine, bottom, maxLines := 0, 0, height, height - 2;
      current := [];
    }

    /** `_reset_page_coordinates`, with the window's height passed in. */
    method ResetPageCoordinates(height: int)
      requires height >= 3
      modifies this`top, this`currentLine, this`bottom, this`maxLines
      ensures Valid()
      ensures top == 0 && currentLine == 0 && bottom == height && maxLines == height - 2
    {
      top := 0;
      bottom := height;
      maxLines := bottom - 2;
      currentLine := top;
    }

    /** `_draw`: the row after drawing `e` from `row`. */
    method DrawElement(row: int, e: Markup, wrap: string -> seq<string>) returns (r: int)
      requires Drawable(e)
      ensures r == RowAfter(row, e, maxLines, wrap)
      decreases e
    {
      match e
      case Text(t, _, _) =>
        if t == "\n" {
          return row + 1;
        }
        var lines := wrap(t);
        r := row;
        var i := 0;
        while i < |lines|
          invariant 0 <= i <= |lines|
          invariant WrappedRow(r, |lines| - i, maxLines) == WrappedRow(row, |lines|, maxLines)
        {
          if r >= maxLines {
            break;
          }
          r := r + 1;
          i := i + 1;
        }
      case Image(_, _) =>
        r := row + 1;
      case Link(_, _, nested) =>
        r := row + 1;
        if nested.Nested? {
          var es := nested.items;
          var i := 0;
          while i < |es|
            invariant 0 <= i <= |es|
            invariant RowAfterNested(r, es[i..], maxLines, wrap) == RowAfterNested(row + 1, es, maxLines, wrap)
          {
            assert es[i..][1..] == es[i + 1..];
            r := DrawElement(r, es[i], wrap);
            r := r + 1;
            i := i + 1;
          }
        }
    }

    /** The drawing part of `draw`: the error page, or the title and the
        page at the current position. */
    method Render(content: seq<Markup>, wrap: string -> seq<string>) returns (s: Screen)
      requires CanDraw(content, currentLine, maxLines)
      ensures s == ScreenOf(content, currentLine, maxLines, wrap)
    {
      if content[0].Error? {
        return ErrorScreen(content[0].errmsg);
      }
      var title := if content[0].Title? then Some(content[0].title.value) else None;
      var page := Page(content, currentLine, maxLines);
      ghost var all := RowsFrom(1, page, maxLines, wrap);
      RowsFromShape(1, page, maxLines, wrap);
      var row := 1;
      var rows := [row];
      var i := 0;
      while i < |page|
        invariant 0 <= i <= |page|
        invariant rows == all[..i + 1] && row == all[i]
      {
        row := DrawElement(row, page[i], wrap);
        rows := rows + [row];
        i := i + 1;
      }
      assert all[..|page| + 1] == all;
      s := PageScreen(title, page, rows);
    }

    /** `draw`: remember the list and draw it. */
    method Draw(content: seq<Markup>, wrap: string -> seq<string>) returns (s: Screen)
      requires Valid()
      requires CanDraw(content, currentLine, maxLines)
      modifies this`current
      ensures Valid()
      ensures current == content
      ensures s == ScreenOf(content, currentLine, maxLines, wrap)
    {
      current := content;
      s := Render(content, wrap);
    }

    /** `_scroll`: move the position and redraw the remembered list. */
    method Scroll(direction: int, wrap: string -> seq<string>) returns (s: Screen)
      requires Valid() && Redrawable(current)
      requires direction == 1 || direction == -1
      modifies this`top, this`currentLine
      ensures Valid()
      ensures Position(top, currentLine) ==
        Scrolled(Position(old(top), old(currentLine)), bottom, maxLines, direction)
      ensures bottom == old(bottom) && maxLines == old(maxLines) && current == old(current)
      ensures s == ScreenOf(current, currentLine, maxLines, wrap)
    {
      ScrollStaysInBounds(Position(top, currentLine), bottom, maxLines, direction);
      var next := currentLine + direction;
      if next < bottom && top + next < bottom {
        currentLine := next;
      } else if next == bottom && top + maxLines < bottom {
        top := top + 1;
      }
      RedrawableAtEveryLine(current, currentLine, maxLines);
      s := Render(current, wrap);
    }
  }
}
