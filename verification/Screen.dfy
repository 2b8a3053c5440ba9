/** Logical terminals as values: what putc, scroll, backspace, clear and the keyboard
    editor do to one terminal, wherever its screen and edit line are stored. */
module Screen {
  import opened Bytes
  import opened Platform

  /** INPUT_SIZE */
  const LINE := 128

  /** Text colours of the three terminals. */
  const COLOR: seq<byte> := [0xF, 0xE, 0x2]

  /** `cells` is the screen memory, `line[..count]` the line being edited. */
  datatype Term = Term(cells: seq<byte>, x: int, y: int, line: seq<byte>, count: int)

  predicate Sized(t: Term) { |t.cells| == SCREEN && |t.line| == LINE }

  /** Linear cursor position. */
  function Pos(t: Term): int { COLS * t.y + t.x }

  /** The cursor is on the screen, and at least as far as the line being edited is long. */
  predicate Bounded(t: Term) {
    Sized(t) && 0 <= t.x < COLS && 0 <= t.y < ROWS && 0 <= t.count <= LINE && t.count <= Pos(t)
  }

  predicate OnScreen(t: Term) { Sized(t) && 0 <= t.x < COLS && 0 <= t.y < ROWS }

  function Ch(t: Term, i: nat): byte
    requires Sized(t) && i < CELLS
  {
    t.cells[2 * i]
  }

  // ----- output ----------------------------------------------------------------------

  function Poke(cells: seq<byte>, i: int, c: byte, color: byte): (r: seq<byte>)
    requires |cells| == SCREEN && 0 <= i < CELLS
    ensures |r| == SCREEN
  {
    cells[2 * i := c][2 * i + 1 := color]
  }

  /** Rows move up with the terminal's colour; the last row's characters become NUL and
      its attributes stay. */
  function Scrolled(cells: seq<byte>, color: byte): (r: seq<byte>)
    requires |cells| == SCREEN
    ensures |r| == SCREEN
  {
    seq(SCREEN, j requires 0 <= j < SCREEN =>
      if j < SCREEN - 2 * COLS then (if j % 2 == 0 then cells[j + 2 * COLS] else color)
      else if j % 2 == 0 then NUL else cells[j])
  }

  /** Row by row: every row takes the characters of the one below it and the terminal's
      colour; the last row is emptied, but keeps the colours it had. */
  lemma ScrolledRows(cells: seq<byte>, color: byte, row: nat, col: nat)
    requires |cells| == SCREEN && row < ROWS && col < COLS
    ensures var now, at := Scrolled(cells, color), 2 * (COLS * row + col);
            if row < ROWS - 1 then now[at] == cells[at + 2 * COLS] && now[at + 1] == color
            else now[at] == NUL && now[at + 1] == cells[at + 1]
  {
  }

  /** Scrolls if the cursor has left the last row. */
  function Settled(t: Term, color: byte): (u: Term)
    requires Sized(t)
    ensures Sized(u) && u == t.(cells := u.cells, y := u.y)
  {
    if t.y >= ROWS then t.(cells := Scrolled(t.cells, color), y := ROWS - 1) else t
  }

  predicate IsNewline(c: byte) { c == NEWLINE || c == RETURN }

  /** A character at the cursor, which moves on, to the next row at the end of a row. */
  function Plotted(t: Term, c: byte, color: byte): (u: Term)
    requires Sized(t) && 0 <= Pos(t) < CELLS
    ensures Sized(u)
  {
    var u := t.(cells := Poke(t.cells, Pos(t), c, color), x := t.x + 1);
    if u.x / COLS > 0 then u.(y := u.y + 1, x := 0) else u
  }

  function Put(t: Term, c: byte, color: byte): (u: Term)
    requires Sized(t) && 0 <= Pos(t) < CELLS
    ensures Sized(u)
  {
    if IsNewline(c) then Settled(t.(y := t.y + 1), color).(x := 0) else Settled(Plotted(t, c, color), color)
  }

  lemma PutBounded(t: Term, c: byte, color: byte)
    requires Sized(t) && 0 <= t.x < COLS && 0 <= t.y < ROWS && 0 <= t.count <= LINE
    requires t.count <= Pos(t) || (!IsNewline(c) && t.count <= Pos(t) + 1)
    ensures Bounded(Put(t, c, color))
  {
  }

  function PutAll(t: Term, text: seq<byte>, color: byte): (r: Term)
    requires Bounded(t)
    ensures Bounded(r) && r.line == t.line && r.count == t.count
    decreases |text|
  {
    if text == [] then t else
      var u := PutAll(t, text[..|text| - 1], color);
      PutBounded(u, text[|text| - 1], color);
      Put(u, text[|text| - 1], color)
  }

  lemma PutAllSnoc(t: Term, text: seq<byte>, c: byte, color: byte)
    requires Bounded(t)
    ensures PutAll(t, text + [c], color) == Put(PutAll(t, text, color), c, color)
  {
  }

  /** An empty screen. */
  function Blanked(color: byte): (cells: seq<byte>)
    ensures |cells| == SCREEN && forall i :: 0 <= i < CELLS ==> cells[2 * i] == SPACE && cells[2 * i + 1] == color
  {
    seq(SCREEN, j => if j % 2 == 0 then SPACE else color)
  }

  function Cleared(t: Term, color: byte): Term
    requires Sized(t)
  {
    t.(cells := Blanked(color), x := 0, y := 0)
  }

  /** What a program's bytes look like: NUL is written as a space. */
  function Visible(bytes: seq<byte>): (v: seq<byte>)
    ensures |v| == |bytes| && NUL !in v
    ensures forall i :: 0 <= i < |v| ==> v[i] == bytes[i] || (bytes[i] == NUL && v[i] == SPACE)
  {
    seq(|bytes|, i requires 0 <= i < |bytes| => if bytes[i] == NUL then SPACE else bytes[i])
  }

  lemma VisibleSnoc(bytes: seq<byte>, n: nat)
    requires n < |bytes|
    ensures Visible(bytes[..n + 1]) == Visible(bytes[..n]) + [if bytes[n] == NUL then SPACE else bytes[n]]
  {
  }

  /** How many bytes terminal_write counts as written. */
  function Counted(bytes: seq<byte>): nat {
    if bytes == [] then 0 else Counted(bytes[..|bytes| - 1]) + if bytes[|bytes| - 1] == NUL then 0 else 1
  }

  /** All bytes but the NULs, line breaks included. */
  lemma {:induction false} CountedIs(bytes: seq<byte>)
    ensures Counted(bytes) == |bytes| - multiset(bytes)[NUL]
    ensures NUL !in bytes ==> Counted(bytes) == |bytes|
  {
    if bytes != [] {
      var front, c := bytes[..|bytes| - 1], bytes[|bytes| - 1];
      CountedIs(front);
      assert bytes == front + [c];
    }
  }

  // ----- the canvas ------------------------------------------------------------------

  /** NUL and space are both blank. */
  function Blank(c: byte): byte { if c == NUL then SPACE else c }

  /** One more character on an endless sheet of 80 columns, kept as the list of its cells
      up to the cursor. */
  function Extended(canvas: seq<byte>, c: byte): seq<byte> {
    if IsNewline(c) then canvas + seq(COLS - |canvas| % COLS, _ => SPACE) else canvas + [Blank(c)]
  }

  function ExtendedBy(canvas: seq<byte>, text: seq<byte>): seq<byte> {
    if text == [] then canvas else Extended(ExtendedBy(canvas, text[..|text| - 1]), text[|text| - 1])
  }

  function Layout(text: seq<byte>): seq<byte> { ExtendedBy([], text) }

  function CanvasAt(canvas: seq<byte>, i: nat): byte {
    if i < |canvas| then canvas[i] else SPACE
  }

  /** First canvas cell of the 25-row window that ends with the cursor's row. */
  function WindowBase(canvas: seq<byte>): nat {
    COLS * Max(0, |canvas| / COLS - (ROWS - 1))
  }

  /** The screen is the window of 25 rows on the canvas that begins at cell `top`, and the
      cursor is the canvas's end. */
  ghost predicate ShowsFrom(t: Term, canvas: seq<byte>, top: nat) {
    && OnScreen(t) && top % COLS == 0 && Pos(t) == |canvas| - top
    && (forall i :: 0 <= i < CELLS ==> Blank(Ch(t, i)) == CanvasAt(canvas, top + i))
  }

  /** The same with the window that ends with the cursor's row, or begins with the canvas. */
  ghost predicate Shows(t: Term, canvas: seq<byte>) {
    Bounded(t) && ShowsFrom(t, canvas, WindowBase(canvas))
  }

  /** How far the screen moves when `c` is written. */
  function ScrollOf(t: Term, c: byte): nat {
    if t.y == ROWS - 1 && (IsNewline(c) || t.x == COLS - 1) then COLS else 0
  }

  /** The cell that shows `i` after `c` is written, and the new cursor. */
  lemma PutCells(t: Term, c: byte, color: byte, i: nat)
    requires OnScreen(t) && i < CELLS
    ensures var u, from := Put(t, c, color), i + ScrollOf(t, c);
            && Ch(u, i) == (if from >= CELLS then NUL else if from == Pos(t) && !IsNewline(c) then c else Ch(t, from))
            && u == t.(cells := u.cells, x := u.x, y := u.y)
            && u.x == (if IsNewline(c) || t.x == COLS - 1 then 0 else t.x + 1)
            && Pos(u) == Pos(t) - ScrollOf(t, c) + if IsNewline(c) then COLS - t.x else 1
  {
  }

  /** The window moves no further than the cursor needs. */
  lemma CanvasScrolls(t: Term, canvas: seq<byte>, top: nat, c: byte)
    requires OnScreen(t) && top % COLS == 0 && Pos(t) == |canvas| - top
    ensures Max(top, WindowBase(Extended(canvas, c))) == top + ScrollOf(t, c)
    ensures |Extended(canvas, c)| == |canvas| + if IsNewline(c) then COLS - t.x else 1
    ensures forall j :: 0 <= j ==> CanvasAt(Extended(canvas, c), j) ==
                                   if j == |canvas| && !IsNewline(c) then Blank(c) else CanvasAt(canvas, j)
  {
  }

  lemma ShowsPut(t: Term, canvas: seq<byte>, top: nat, c: byte, color: byte)
    requires ShowsFrom(t, canvas, top)
    ensures ShowsFrom(Put(t, c, color), Extended(canvas, c), Max(top, WindowBase(Extended(canvas, c))))
  {
    hide Put, Extended, WindowBase, CanvasAt, Ch;
    PutCells(t, c, color, 0);
    CanvasScrolls(t, canvas, top, c);
    forall i | 0 <= i < CELLS
      ensures Blank(Ch(Put(t, c, color), i)) == CanvasAt(Extended(canvas, c), top + ScrollOf(t, c) + i)
    {
      PutCells(t, c, color, i);
      ShowsCell(t, canvas, top, i + ScrollOf(t, c));
    }
  }

  lemma ShowsCell(t: Term, canvas: seq<byte>, top: nat, i: nat)
    requires ShowsFrom(t, canvas, top)
    ensures CanvasAt(canvas, top + i) == if i < CELLS then Blank(Ch(t, i)) else SPACE
  {
  }

  /** Every cell has the terminal's colour. */
  ghost predicate Painted(t: Term, color: byte) {
    Sized(t) && forall i :: 0 <= i < CELLS ==> t.cells[2 * i + 1] == color
  }

  lemma PutPainted(t: Term, c: byte, color: byte)
    requires Bounded(t) && Painted(t, color)
    ensures Painted(Put(t, c, color), color)
  {
  }

  /** A terminal that shows a canvas goes on showing it as any text is written. */
  lemma {:induction false} ShowsAll(t: Term, canvas: seq<byte>, top: nat, text: seq<byte>, color: byte)
    requires Bounded(t) && ShowsFrom(t, canvas, top)
    ensures ShowsFrom(PutAll(t, text, color), ExtendedBy(canvas, text), Max(top, WindowBase(ExtendedBy(canvas, text))))
    ensures Painted(t, color) ==> Painted(PutAll(t, text, color), color)
    decreases |text|
  {
    if text == [] {
      CanvasFits(t, canvas, top);
    } else {
      var front, c := text[..|text| - 1], text[|text| - 1];
      ShowsAll(t, canvas, top, front, color);
      var before := ExtendedBy(canvas, front);
      ShowsPut(PutAll(t, front, color), before, Max(top, WindowBase(before)), c, color);
      WindowMoves(before, c);
      if Painted(t, color) {
        PutPainted(PutAll(t, front, color), c, color);
      }
    }
  }

  lemma CanvasFits(t: Term, canvas: seq<byte>, top: nat)
    requires OnScreen(t) && top % COLS == 0 && Pos(t) == |canvas| - top
    ensures WindowBase(canvas) <= top
  {
  }

  lemma WindowMoves(canvas: seq<byte>, c: byte)
    ensures WindowBase(canvas) <= WindowBase(Extended(canvas, c))
  {
  }

  lemma {:induction false} WindowMovesOn(canvas: seq<byte>, text: seq<byte>)
    ensures WindowBase(canvas) <= WindowBase(ExtendedBy(canvas, text))
    decreases |text|
  {
    hide WindowBase, Extended;
    if text != [] {
      WindowMovesOn(canvas, text[..|text| - 1]);
      WindowMoves(ExtendedBy(canvas, text[..|text| - 1]), text[|text| - 1]);
    }
  }

  /** In particular, a window that ends with the cursor's row goes on doing so. */
  lemma ShowsOn(t: Term, canvas: seq<byte>, text: seq<byte>, color: byte)
    requires Shows(t, canvas)
    ensures Shows(PutAll(t, text, color), ExtendedBy(canvas, text))
  {
    hide PutAll, ExtendedBy, ShowsFrom;
    ShowsAll(t, canvas, WindowBase(canvas), text, color);
    WindowMovesOn(canvas, text);
  }

  /** Any text of any length, written to a cleared screen, shows as the last 25 rows of
      its layout on the endless sheet. */
  lemma CanvasWindow(t: Term, text: seq<byte>, color: byte)
    requires Bounded(t) && t.count == 0
    ensures Shows(PutAll(Cleared(t, color), text, color), Layout(text))
    ensures Painted(PutAll(Cleared(t, color), text, color), color)
  {
    hide Put, PutAll, ExtendedBy, ShowsFrom;
    ShowsCleared(t, color);
    ShowsOn(Cleared(t, color), [], text, color);
    ShowsAll(Cleared(t, color), [], 0, text, color);
  }

  lemma ShowsCleared(t: Term, color: byte)
    requires Sized(t) && t.count == 0
    ensures Shows(Cleared(t, color), []) && ShowsFrom(Cleared(t, color), [], 0) && Painted(Cleared(t, color), color)
  {
  }

  // ----- the keyboard editor ---------------------------------------------------------

  datatype Key = Char(c: byte) | Backspace | CtrlL | Enter | Switch(t: nat)

  /** Typed characters come from the scan-code tables: never NUL or a line break. */
  predicate KeyOk(key: Key) {
    match key
    case Char(c) => c != NUL && !IsNewline(c)
    case Switch(t) => t < TERMINALS
    case _ => true
  }

  function Typed(t: Term, c: byte, color: byte): Term
    requires Bounded(t)
  {
    if t.count < LINE then Put(t.(line := t.line[t.count := c], count := t.count + 1), c, color) else t
  }

  /** The cursor one cell back, over a row's start if need be. */
  function Back(t: Term): Term {
    if t.x == 0 then t.(y := t.y - 1, x := COLS - 1) else t.(x := t.x - 1)
  }

  /** backspace(): the cursor steps back and blanks its new cell. */
  function SteppedBack(t: Term, color: byte): (u: Term)
    requires Sized(t) && 0 < Pos(t) <= CELLS
    ensures Sized(u) && Pos(u) == Pos(t) - 1 && Ch(u, Pos(u)) == SPACE
  {
    Back(t).(cells := Poke(t.cells, Pos(Back(t)), SPACE, color))
  }

  function Erased(t: Term, color: byte): Term
    requires Bounded(t)
  {
    if t.count > 0 then SteppedBack(t.(line := t.line[t.count - 1 := NUL], count := t.count - 1), color) else t
  }

  /** Enter on a line that has just filled a row does not leave a blank row behind it. */
  function Unwrapped(t: Term): (u: Term)
    requires Bounded(t)
    ensures OnScreen(u)
  {
    if t.count != 0 && t.x == 0 && t.y != COLS + 1 then t.(y := t.y - 1) else t
  }

  function Entered(t: Term, color: byte): Term
    requires Bounded(t)
  {
    Put(Unwrapped(t.(line := Zeros(LINE))), NEWLINE, color).(count := 0)
  }

  function Pressed(t: Term, key: Key, color: byte): Term
    requires Bounded(t)
  {
    match key
    case Char(c) => Typed(t, c, color)
    case Backspace => Erased(t, color)
    case CtrlL => Cleared(t, color).(count := 0)
    case Enter => Entered(t, color)
    case Switch(_) => t
  }

  lemma PressedBounded(t: Term, key: Key, color: byte)
    requires Bounded(t) && KeyOk(key)
    ensures Bounded(Pressed(t, key, color))
  {
  }

  // ----- echo ------------------------------------------------------------------------

  /** The line being edited. */
  function Edited(t: Term): seq<byte>
    requires Bounded(t)
  {
    t.line[..t.count]
  }

  /** The cells just before the cursor spell the line being edited. */
  ghost predicate Echoes(t: Term) {
    Bounded(t) && forall k :: 0 <= k < t.count ==> Ch(t, Pos(t) - t.count + k) == t.line[k]
  }

  lemma PressedEchoes(t: Term, key: Key, color: byte)
    requires Echoes(t) && KeyOk(key)
    ensures Echoes(Pressed(t, key, color))
  {
    PressedBounded(t, key, color);
    match key {
      case Char(c) => TypedEchoes(t, c, color);
      case Backspace =>
        var u := Erased(t, color);
        forall k | 0 <= k < u.count
          ensures Ch(u, Pos(u) - u.count + k) == u.line[k]
        {
          assert Ch(t, Pos(t) - t.count + k) == t.line[k];
        }
      case _ =>
    }
  }

  lemma TypedEchoes(t: Term, c: byte, color: byte)
    requires Echoes(t) && c != NUL && !IsNewline(c) && Bounded(Typed(t, c, color))
    ensures Echoes(Typed(t, c, color))
  {
    hide Put;
    if t.count < LINE {
      var before := t.(line := t.line[t.count := c], count := t.count + 1);
      var u := Put(before, c, color);
      forall k | 0 <= k < u.count
        ensures Ch(u, Pos(u) - u.count + k) == u.line[k]
      {
        PutCells(before, c, color, Pos(u) - u.count + k);
        if k < t.count {
          assert Ch(t, Pos(t) - t.count + k) == t.line[k];
        }
      }
    }
  }

  /** Output that ends a row hides the line being edited: the cell before the cursor is
      blank then. */
  lemma LineBreakHidesLine(t: Term, canvas: seq<byte>, text: seq<byte>, c: byte, color: byte)
    requires Shows(t, canvas) && IsNewline(c) && t.count > 0 && Blank(t.line[t.count - 1]) != SPACE
    ensures !Echoes(PutAll(t, text + [c], color))
  {
    hide Put, PutAll, Extended, ExtendedBy;
    ShowsOn(t, canvas, text + [c], color);
    ExtendedBySnoc(canvas, text, c);
    var u, wider := PutAll(t, text + [c], color), ExtendedBy(canvas, text + [c]);
    assert Blank(Ch(u, Pos(u) - 1)) == CanvasAt(wider, WindowBase(wider) + (Pos(u) - 1)) == SPACE;
  }

  lemma ExtendedBySnoc(canvas: seq<byte>, text: seq<byte>, c: byte)
    ensures ExtendedBy(canvas, text + [c]) == Extended(ExtendedBy(canvas, text), c)
    ensures IsNewline(c) ==> var w := ExtendedBy(canvas, text + [c]); w != [] && w[|w| - 1] == SPACE
  {
    assert (text + [c])[..|text|] == text;
  }

  /** The meaning of a key for the line being edited. */
  function Edit(line: seq<byte>, key: Key): seq<byte> {
    match key
    case Char(c) => if |line| < LINE then line + [c] else line
    case Backspace => if line == [] then [] else line[..|line| - 1]
    case CtrlL => []
    case Enter => []
    case Switch(_) => line
  }

  lemma PressedEdits(t: Term, key: Key, color: byte)
    requires Bounded(t) && KeyOk(key)
    ensures Bounded(Pressed(t, key, color)) && Edited(Pressed(t, key, color)) == Edit(Edited(t), key)
  {
    PressedBounded(t, key, color);
  }
}
