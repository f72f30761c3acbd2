/** The text console: a ring of the last 512 rows and a viewport over it, against an
    unbounded sheet of rows. */
module ConsoleModule {
  const VGA_WIDTH: nat := 80
  const VGA_HEIGHT: nat := 25
  const CONSOLE_HISTORY_LINES: nat := 512
  const BACKSPACE: char := '\U{8}'

  datatype Cell = Cell(ch: char, color: nat)

  type Row = r: seq<Cell> | |r| == VGA_WIDTH witness seq(VGA_WIDTH, _ => Cell(' ', 7))

  function Blank(color: nat): (r: Row)
    ensures forall j :: 0 <= j < VGA_WIDTH ==> r[j] == Cell(' ', color)
  {
    seq(VGA_WIDTH, _ => Cell(' ', color))
  }

  // ---- the unbounded sheet --------------------------------------------------------------------

  /** Everything ever printed: all rows, and the column of the cursor in the last one. */
  datatype Sheet = Sheet(rows: seq<Row>, col: nat)

  ghost predicate Proper(s: Sheet) {
    |s.rows| >= 1 && s.col < VGA_WIDTH
  }

  function WithCell(r: Row, col: nat, c: Cell): Row
    requires col < VGA_WIDTH
  {
    r[col := c]
  }

  function WithRow(rows: seq<Row>, i: nat, r: Row): (after: seq<Row>)
    requires i < |rows|
    ensures |after| == |rows|
  {
    rows[i := r]
  }

  /** One character printed on the sheet. */
  function Typed(s: Sheet, c: char, color: nat): (t: Sheet)
    requires |s.rows| >= 1 && s.col < VGA_WIDTH
    ensures |t.rows| >= |s.rows| && t.col < VGA_WIDTH
  {
    var last := |s.rows| - 1;
    if c == '\n' then Sheet(s.rows + [Blank(color)], 0)
    else if c == BACKSPACE then
      if s.col == 0 then s
      else Sheet(WithRow(s.rows, last, WithCell(s.rows[last], s.col - 1, Cell(' ', color))), s.col - 1)
    else
      var rows := WithRow(s.rows, last, WithCell(s.rows[last], s.col, Cell(c, color)));
      if s.col + 1 >= VGA_WIDTH then Sheet(rows + [Blank(color)], 0) else Sheet(rows, s.col + 1)
  }

  function TypedAll(s: Sheet, text: string, color: nat): (t: Sheet)
    requires |s.rows| >= 1 && s.col < VGA_WIDTH
    ensures |t.rows| >= |s.rows| && t.col < VGA_WIDTH
  {
    if text == [] then s else Typed(TypedAll(s, text[..|text| - 1], color), text[|text| - 1], color)
  }

  /** The 25 rows from `top` on, blank past the end. */
  function Window(rows: seq<Row>, top: nat, color: nat): (screen: seq<Row>)
    ensures |screen| == VGA_HEIGHT && forall i :: 0 <= i < VGA_HEIGHT ==> screen[i] == RowAt(rows, top + i, color)
  {
    seq<Row>(VGA_HEIGHT, i requires 0 <= i < VGA_HEIGHT => RowAt(rows, top + i, color))
  }

  function RowAt(rows: seq<Row>, i: nat, color: nat): Row {
    if i < |rows| then rows[i] else Blank(color)
  }

  /** Printing changes the last row and adds rows; earlier rows stay for ever. */
  lemma {:induction false} EarlierRowsStay(s: Sheet, c: char, color: nat, r: nat)
    requires Proper(s) && r + 1 < |s.rows|
    ensures Typed(s, c, color).rows[r] == s.rows[r]
  {
  }

  /** A window that ends above the cursor's row shows the same after more output. */
  lemma {:induction false} WindowStays(s: Sheet, text: string, color: nat, top: nat)
    requires Proper(s) && top + VGA_HEIGHT < |s.rows|
    ensures Window(TypedAll(s, text, color).rows, top, color) == Window(s.rows, top, color)
  {
    if text != [] {
      WindowStays(s, text[..|text| - 1], color, top);
      var t := TypedAll(s, text[..|text| - 1], color);
      var last := text[|text| - 1];
      var before, after := Window(t.rows, top, color), Window(Typed(t, last, color).rows, top, color);
      forall i | 0 <= i < VGA_HEIGHT ensures after[i] == before[i] {
        EarlierRowsStay(t, last, color, top + i);
      }
      assert before == after;
    }
  }

  // ---- the sheet as one line of places ---------------------------------------------------------

  /** The cell at a place, counted in rows of 80 from the first one. */
  ghost function CellAt(s: Sheet, place: nat): Cell
    requires place < VGA_WIDTH * |s.rows|
  {
    s.rows[place / VGA_WIDTH][place % VGA_WIDTH]
  }

  /** The place the cursor is at. */
  ghost function Cursor(s: Sheet): (place: nat)
    requires Proper(s)
    ensures place < VGA_WIDTH * |s.rows| && place % VGA_WIDTH == s.col && place / VGA_WIDTH == |s.rows| - 1
  {
    VGA_WIDTH * (|s.rows| - 1) + s.col
  }

  /** All places of `s` but this one show what they did, and new rows are blank. */
  ghost predicate SameBut(s: Sheet, t: Sheet, changed: set<nat>, color: nat) {
    && |s.rows| <= |t.rows|
    && (forall p: nat :: p < VGA_WIDTH * |s.rows| && p !in changed ==> CellAt(t, p) == CellAt(s, p))
    && (forall p: nat :: VGA_WIDTH * |s.rows| <= p < VGA_WIDTH * |t.rows| ==> CellAt(t, p) == Cell(' ', color))
  }

  /** What printing one character does. A glyph stands where the cursor was, which moves
      on by one place. A backspace blanks the place before the cursor and moves back
      onto it, but not out of the row. A newline only moves to the start of a new row. */
  ghost predicate Printed(s: Sheet, t: Sheet, c: char, color: nat)
    requires Proper(s) && Proper(t)
  {
    if c == '\n' then
      Cursor(t) == VGA_WIDTH * |s.rows| && SameBut(s, t, {}, color)
    else if c == BACKSPACE then
      if s.col == 0 then t == s
      else
        && Cursor(t) == Cursor(s) - 1 && |t.rows| == |s.rows|
        && CellAt(t, Cursor(t)) == Cell(' ', color) && SameBut(s, t, {Cursor(t)}, color)
    else
      && Cursor(t) == Cursor(s) + 1
      && CellAt(t, Cursor(s)) == Cell(c, color) && SameBut(s, t, {Cursor(s)}, color)
  }

  lemma {:induction false} TypedIsPrinted(s: Sheet, c: char, color: nat)
    requires Proper(s)
    ensures Printed(s, Typed(s, c, color), c, color)
  {
    PlacesDiffer(s);
  }

  /** Two places are in one row and one column only if they are the same. */
  lemma {:induction false} PlacesDiffer(s: Sheet)
    ensures forall p: nat :: p < VGA_WIDTH * |s.rows| ==> p == VGA_WIDTH * (p / VGA_WIDTH) + p % VGA_WIDTH
  {
  }

  ghost predicate Glyphs(text: string) {
    '\n' !in text && BACKSPACE !in text
  }

  /** `text` stands in the places from the cursor on, one after the other, the cursor is
      right behind it, and no other place has changed. */
  ghost predicate Stands(s: Sheet, t: Sheet, text: string, color: nat)
    requires Proper(s) && Proper(t)
  {
    && Cursor(t) == Cursor(s) + |text| && |s.rows| <= |t.rows|
    && (forall k :: 0 <= k < |text| ==> CellAt(t, Cursor(s) + k) == Cell(text[k], color))
    && (forall p: nat :: p < Cursor(s) ==> CellAt(t, p) == CellAt(s, p))
    && (forall p: nat :: Cursor(s) + |text| <= p < VGA_WIDTH * |t.rows| ==>
          CellAt(t, p) == if p < VGA_WIDTH * |s.rows| then CellAt(s, p) else Cell(' ', color))
  }

  lemma {:induction false} TextIsPlaced(s: Sheet, text: string, color: nat)
    requires Proper(s) && Glyphs(text)
    ensures Stands(s, TypedAll(s, text, color), text, color)
  {
    hide CellAt, Typed, Cursor;
    if text != [] {
      var front, c := text[..|text| - 1], text[|text| - 1];
      var m := TypedAll(s, front, color);
      TextIsPlaced(s, front, color);
      TypedIsPrinted(m, c, color);
      OneMoreStands(s, m, TypedAll(s, text, color), text, color);
    }
  }

  lemma {:induction false} OneMoreStands(s: Sheet, m: Sheet, t: Sheet, text: string, color: nat)
    requires Proper(s) && Proper(m) && Proper(t) && text != [] && Glyphs(text)
    requires Stands(s, m, text[..|text| - 1], color) && Printed(m, t, text[|text| - 1], color)
    ensures Stands(s, t, text, color)
  {
    hide CellAt, Cursor;
    var front := text[..|text| - 1];
    forall k | 0 <= k < |text| ensures CellAt(t, Cursor(s) + k) == Cell(text[k], color) {
      if k < |front| {
        assert CellAt(m, Cursor(s) + k) == Cell(front[k], color);
      }
    }
  }

  /** Printing a text in two parts prints the whole of it. */
  lemma {:induction false} PartsJoin(s: Sheet, a: string, b: string, color: nat)
    requires Proper(s)
    ensures TypedAll(s, a + b, color) == TypedAll(TypedAll(s, a, color), b, color)
  {
    if b == [] {
      assert a + b == a;
    } else {
      var front := b[..|b| - 1];
      assert (a + b)[..|a + b| - 1] == a + front;
      PartsJoin(s, a, front, color);
    }
  }

  /** The screen shows the rows from the viewport's top on, and blanks below them. */
  lemma {:induction false} ShownCells(rows: seq<Row>, top: nat, color: nat)
    ensures forall i, j :: 0 <= i < VGA_HEIGHT && 0 <= j < VGA_WIDTH ==>
              Window(rows, top, color)[i][j] == if top + i < |rows| then rows[top + i][j] else Cell(' ', color)
  {
  }

  /** A screen whose top row is `top` shows as much of `text`, put at `place`, as it reaches. */
  ghost predicate Seen(screen: seq<Row>, top: nat, place: nat, text: string, color: nat)
    requires |screen| == VGA_HEIGHT
  {
    forall k: nat :: k < |text| && top <= (place + k) / VGA_WIDTH < top + VGA_HEIGHT ==>
      screen[(place + k) / VGA_WIDTH - top][(place + k) % VGA_WIDTH] == Cell(text[k], color)
  }

  lemma {:induction false} TextIsShown(s: Sheet, t: Sheet, text: string, color: nat, top: nat)
    requires Proper(s) && Proper(t) && Stands(s, t, text, color)
    ensures Seen(Window(t.rows, top, color), top, Cursor(s), text, color)
  {
    hide Cursor;
    ShownCells(t.rows, top, color);
    forall k: nat | k < |text| && top <= (Cursor(s) + k) / VGA_WIDTH < top + VGA_HEIGHT
      ensures Window(t.rows, top, color)[(Cursor(s) + k) / VGA_WIDTH - top][(Cursor(s) + k) % VGA_WIDTH] == Cell(text[k], color)
    {
      assert CellAt(t, Cursor(s) + k) == Cell(text[k], color);
    }
  }

  lemma {:induction false} OneTyped(s: Sheet, c: char, color: nat)
    requires Proper(s)
    ensures TypedAll(s, [c], color) == Typed(s, c, color)
  {
    assert [c][..0] == [];
  }

  lemma {:induction false} SlotsDiffer(r: nat, q: nat)
    requires r < q < r + CONSOLE_HISTORY_LINES
    ensures Slot(r) != Slot(q)
  {
  }

  function Slot(row: nat): (slot: nat)
    ensures slot < CONSOLE_HISTORY_LINES
  {
    row % CONSOLE_HISTORY_LINES
  }

  class Console {
    var cursorRow: nat
    var cursorCol: nat
    var viewportTop: nat
    var historyFirstRow: nat
    var historyRowCount: nat
    var color: nat
    var history: seq<Row>
    var screen: seq<Row>
    /** What an unbounded screen would hold. */
    ghost var sheet: Sheet

    /** The ring holds the last rows of the sheet, 512 at most. */
    ghost predicate Agrees()
      reads this
    {
      && Proper(sheet) && |history| == CONSOLE_HISTORY_LINES
      && cursorRow + 1 == |sheet.rows| && cursorCol == sheet.col
      && historyFirstRow + historyRowCount == cursorRow + 1
      && historyRowCount == (if cursorRow + 1 < CONSOLE_HISTORY_LINES then cursorRow + 1 else CONSOLE_HISTORY_LINES)
      && forall r :: historyFirstRow <= r <= cursorRow ==> history[Slot(r)] == sheet.rows[r]
    }

    ghost predicate Valid()
      reads this
    {
      Agrees() && historyFirstRow <= viewportTop <= Bottom()
    }

    /** The screen shows the sheet from the viewport's top on. */
    ghost predicate Shows()
      reads this
    {
      screen == Window(sheet.rows, viewportTop, color)
    }

    /** The viewport that shows the cursor's row at the bottom, or as far down as it is. */
    function Bottom(): (top: nat)
      reads this
      ensures top <= cursorRow < top + VGA_HEIGHT && (top > 0 ==> cursorRow + 1 == top + VGA_HEIGHT)
    {
      if cursorRow + 1 <= VGA_HEIGHT then 0 else cursorRow - (VGA_HEIGHT - 1)
    }

    predicate IsScrolled()
      reads this
    {
      viewportTop != Bottom()
    }

    constructor ()
      ensures Valid() && Shows() && sheet == Sheet([Blank(7)], 0)
    {
      cursorRow, cursorCol, viewportTop, historyFirstRow, historyRowCount, color := 0, 0, 0, 0, 1, 7;
      history := seq<Row>(CONSOLE_HISTORY_LINES, _ => Blank(7));
      sheet := Sheet([Blank(7)], 0);
      screen := Window([Blank(7)], 0, 7);
    }

    method Clear()
      requires |history| == CONSOLE_HISTORY_LINES
      modifies this
      ensures Valid() && Shows() && sheet == Sheet([Blank(color)], 0) && color == old(color)
    {
      cursorRow, cursorCol, viewportTop, historyFirstRow, historyRowCount := 0, 0, 0, 0, 1;
      history := WithRow(history, 0, Blank(color));
      sheet := Sheet([Blank(color)], 0);
      Render();
    }

    method Render()
      requires Agrees() && historyFirstRow <= viewportTop
      modifies this`screen
      ensures Shows()
      ensures forall i, j :: 0 <= i < VGA_HEIGHT && 0 <= j < VGA_WIDTH ==>
                screen[i][j] == if viewportTop + i <= cursorRow then sheet.rows[viewportTop + i][j] else Cell(' ', color)
    {
      var shown: seq<Row> := [];
      for i := 0 to VGA_HEIGHT
        invariant shown == Window(sheet.rows, viewportTop, color)[..i]
      {
        var row := viewportTop + i;
        if row >= historyFirstRow && row < historyFirstRow + historyRowCount {
          shown := shown + [history[Slot(row)]];
        } else {
          shown := shown + [Blank(color)];
        }
      }
      screen := shown;
      ShownCells(sheet.rows, viewportTop, color);
    }

    method ClampViewport()
      modifies this`viewportTop
      ensures historyFirstRow <= Bottom() ==>
                viewportTop == if old(viewportTop) < historyFirstRow then historyFirstRow
                               else if old(viewportTop) > Bottom() then Bottom() else old(viewportTop)
    {
      var bottom := Bottom();
      if viewportTop < historyFirstRow {
        viewportTop := historyFirstRow;
      }
      if viewportTop > bottom {
        viewportTop := bottom;
      }
    }

    /** A new blank row; when the ring is full the oldest row makes room. */
    method AdvanceToNextLine()
      requires Agrees()
      requires historyFirstRow <= viewportTop <= Bottom()
      modifies this`cursorRow, this`historyRowCount, this`historyFirstRow, this`history, this`viewportTop, this`sheet, this`cursorCol
      ensures Agrees() && sheet == Sheet(old(sheet.rows) + [Blank(color)], 0)
      ensures viewportTop == if old(viewportTop) < historyFirstRow then historyFirstRow else old(viewportTop)
      ensures historyFirstRow <= viewportTop <= Bottom()
    {
      ghost var rows := sheet.rows;
      cursorRow := cursorRow + 1;
      cursorCol := 0;
      if historyRowCount < CONSOLE_HISTORY_LINES {
        historyRowCount := historyRowCount + 1;
      } else {
        historyFirstRow := historyFirstRow + 1;
      }
      history := WithRow(history, Slot(cursorRow), Blank(color));
      sheet := Sheet(rows + [Blank(color)], 0);
      forall r | historyFirstRow <= r <= cursorRow ensures history[Slot(r)] == sheet.rows[r] {
        if r < cursorRow {
          SlotsDiffer(r, cursorRow);
        }
      }
      ClampViewport();
    }

    /** Writes one cell of the cursor's row. */
    method WriteCell(col: nat, c: Cell)
      requires Agrees() && col < VGA_WIDTH
      modifies this`history, this`sheet
      ensures |history| == CONSOLE_HISTORY_LINES
      ensures sheet == Sheet(WithRow(old(sheet.rows), cursorRow, WithCell(old(sheet.rows)[cursorRow], col, c)), old(sheet.col))
      ensures forall r :: historyFirstRow <= r <= cursorRow ==> history[Slot(r)] == sheet.rows[r]
    {
      history := WithRow(history, Slot(cursorRow), WithCell(history[Slot(cursorRow)], col, c));
      sheet := Sheet(WithRow(sheet.rows, cursorRow, WithCell(sheet.rows[cursorRow], col, c)), sheet.col);
      forall r | historyFirstRow <= r <= cursorRow ensures history[Slot(r)] == sheet.rows[r] {
        if r < cursorRow {
          SlotsDiffer(r, cursorRow);
        }
      }
    }

    /** Prints one character. Output at the bottom scrolls the view along; output while
        scrolled back leaves the view where it is until its top row is dropped. */
    method PutChar(c: char)
      requires Valid()
      modifies this`cursorRow, this`cursorCol, this`historyRowCount, this`historyFirstRow, this`history, this`viewportTop, this`screen, this`sheet
      ensures Valid() && Shows()
      ensures sheet == Typed(old(sheet), c, color)
      ensures Printed(old(sheet), sheet, c, color)
      ensures viewportTop == if !old(IsScrolled()) then Bottom()
                             else if old(viewportTop) < historyFirstRow then historyFirstRow else old(viewportTop)
      ensures old(Shows()) && old(IsScrolled()) && historyFirstRow <= old(viewportTop) ==> screen == old(screen)
    {
      hide Typed, Window, TypedAll, Printed;
      var followBottom := !IsScrolled();
      ghost var before := sheet;
      TypedIsPrinted(before, c, color);
      Emit(c);
      if followBottom {
        viewportTop := Bottom();
      } else {
        ClampViewport();
      }
      Render();
      if old(IsScrolled()) && viewportTop == old(viewportTop) {
        OneTyped(before, c, color);
        WindowStays(before, [c], color, viewportTop);
      }
    }

    /** Puts one character into the sheet; the view moves only if its top row is dropped. */
    method Emit(c: char)
      requires Valid()
      modifies this`cursorRow, this`cursorCol, this`historyRowCount, this`historyFirstRow, this`history, this`viewportTop, this`sheet
      ensures Valid() && sheet == Typed(old(sheet), c, color)
      ensures viewportTop == if old(viewportTop) < historyFirstRow then historyFirstRow else old(viewportTop)
    {
      if c == '\n' {
        AdvanceToNextLine();
      } else if c == BACKSPACE {
        if cursorCol > 0 {
          WriteCell(cursorCol - 1, Cell(' ', color));
          cursorCol := cursorCol - 1;
          sheet := Sheet(sheet.rows, cursorCol);
        }
      } else {
        EmitGlyph(c);
      }
    }

    method EmitGlyph(c: char)
      requires Valid() && c != '\n' && c != BACKSPACE
      modifies this`cursorRow, this`cursorCol, this`historyRowCount, this`historyFirstRow, this`history, this`viewportTop, this`sheet
      ensures Valid() && sheet == Typed(old(sheet), c, color)
      ensures viewportTop == if old(viewportTop) < historyFirstRow then historyFirstRow else old(viewportTop)
    {
      WriteCell(cursorCol, Cell(c, color));
      cursorCol := cursorCol + 1;
      if cursorCol >= VGA_WIDTH {
        cursorCol := 0;
        sheet := Sheet(sheet.rows, 0);
        AdvanceToNextLine();
      } else {
        sheet := Sheet(sheet.rows, cursorCol);
      }
    }

    /** Prints a text. A text of glyphs stands from the cursor's place on, and the screen
        shows what the viewport reaches of it; the view stays at the bottom if it was there. */
    method Write(text: string)
      requires Valid()
      modifies this`cursorRow, this`cursorCol, this`historyRowCount, this`historyFirstRow, this`history, this`viewportTop, this`screen, this`sheet
      ensures Valid() && (text != [] ==> Shows())
      ensures sheet == TypedAll(old(sheet), text, color)
      ensures !old(IsScrolled()) ==> !IsScrolled()
      ensures Glyphs(text) ==> Stands(old(sheet), sheet, text, color)
      ensures Glyphs(text) && text != [] ==> Seen(screen, viewportTop, old(Cursor(sheet)), text, color)
    {
      hide Window, Typed, Printed, Cursor, Stands, Seen, Glyphs;
      for i := 0 to |text|
        invariant Valid() && (i > 0 ==> Shows())
        invariant !old(IsScrolled()) ==> !IsScrolled()
        invariant sheet == TypedAll(old(sheet), text[..i], color)
      {
        PutChar(text[i]);
        assert text[..i + 1][..i] == text[..i];
      }
      assert text[..|text|] == text;
      if Glyphs(text) {
        TextIsPlaced(old(sheet), text, color);
        TextIsShown(old(sheet), sheet, text, color, viewportTop);
      }
    }

    method ScrollUp(lines: nat)
      requires Valid()
      modifies this`viewportTop, this`screen
      ensures Valid() && (old(Shows()) ==> Shows())
      ensures viewportTop == if old(viewportTop) < historyFirstRow + lines then historyFirstRow else old(viewportTop) - lines
    {
      var oldTop := viewportTop;
      if lines > viewportTop - historyFirstRow {
        viewportTop := historyFirstRow;
      } else {
        viewportTop := viewportTop - lines;
      }
      if viewportTop != oldTop {
        Render();
      }
    }

    method ScrollDown(lines: nat)
      requires Valid()
      modifies this`viewportTop, this`screen
      ensures Valid() && (old(Shows()) ==> Shows())
      ensures viewportTop == if old(viewportTop) + lines > Bottom() then Bottom() else old(viewportTop) + lines
    {
      var oldTop, bottom := viewportTop, Bottom();
      if viewportTop + lines > bottom {
        viewportTop := bottom;
      } else {
        viewportTop := viewportTop + lines;
      }
      if viewportTop != oldTop {
        Render();
      }
    }

    method ScrollToBottom()
      requires Valid()
      modifies this`viewportTop, this`screen
      ensures Valid() && viewportTop == Bottom() && !IsScrolled() && (old(Shows()) ==> Shows())
    {
      var bottom := Bottom();
      if viewportTop != bottom {
        viewportTop := bottom;
        Render();
      }
    }

    /** Writes at a place on the screen: also into the sheet, if that row exists already.
        On a row below the last one only the screen changes, until the next redraw. */
    method PutCharAt(c: Cell, row: nat, col: nat)
      requires Valid() && |screen| == VGA_HEIGHT
      modifies this`screen, this`history, this`sheet
      ensures Valid() && |screen| == VGA_HEIGHT
      ensures row >= VGA_HEIGHT || col >= VGA_WIDTH ==> screen == old(screen) && sheet == old(sheet)
      ensures row < VGA_HEIGHT && col < VGA_WIDTH ==>
                && screen == WithRow(old(screen), row, WithCell(old(screen)[row], col, c))
                && sheet == (if viewportTop + row <= cursorRow
                             then Sheet(WithRow(old(sheet.rows), viewportTop + row,
                                                WithCell(old(sheet.rows)[viewportTop + row], col, c)), old(sheet.col))
                             else old(sheet))
      ensures old(Shows()) && viewportTop + row <= cursorRow ==> Shows()
    {
      hide Slot;
      if row >= VGA_HEIGHT || col >= VGA_WIDTH {
        return;
      }
      screen := WithRow(screen, row, WithCell(screen[row], col, c));
      var absolute := viewportTop + row;
      if absolute >= historyFirstRow && absolute < historyFirstRow + historyRowCount {
        history := WithRow(history, Slot(absolute), WithCell(history[Slot(absolute)], col, c));
        sheet := Sheet(WithRow(sheet.rows, absolute, WithCell(sheet.rows[absolute], col, c)), sheet.col);
        forall r | historyFirstRow <= r <= cursorRow ensures history[Slot(r)] == sheet.rows[r] {
          if r < absolute {
            SlotsDiffer(r, absolute);
          } else if absolute < r {
            SlotsDiffer(absolute, r);
          }
        }
        if old(Shows()) {
          assert screen == Window(sheet.rows, viewportTop, color);
        }
      }
    }
  }
}
