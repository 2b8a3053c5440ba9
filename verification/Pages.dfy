/** A second account of the terminals, from their users' point of view alone: every terminal
    writes on an endless sheet, of which its screen shows 25 rows. Here keys and output have
    their plain meaning, without cursors, scrolling or shared buffers, and the terminals are
    proved to follow it over whole runs. */
module Pages {
  import opened Bytes
  import opened Platform
  import opened Screen
  import opened Terminals

  /** All that was written since the screen was last cleared, the cell that the screen
      begins with, and the line under edit. */
  datatype Page = Page(sheet: seq<byte>, top: nat, line: seq<byte>)

  /** The terminal shows the page. */
  ghost predicate Pictures(t: Term, p: Page) {
    Bounded(t) && ShowsFrom(t, p.sheet, p.top) && Edited(t) == p.line
  }

  // ----- what happens to a page ------------------------------------------------------

  /** The screen follows the cursor down, never up. */
  function Turned(p: Page): Page { p.(top := Max(p.top, WindowBase(p.sheet))) }

  /** A program's bytes. */
  function Printed(p: Page, bytes: seq<byte>): Page { Turned(p.(sheet := ExtendedBy(p.sheet, bytes))) }

  /** A key at the terminal. Enter on a line that has just filled a row stays in that row. */
  function Keyed(p: Page, key: Key): Page {
    match key
    case Char(c) => if |p.line| < LINE then Turned(p.(sheet := p.sheet + [c], line := p.line + [c])) else p
    case Backspace =>
      if p.line == [] || p.sheet == [] then p
      else p.(sheet := p.sheet[..|p.sheet| - 1], line := p.line[..|p.line| - 1])
    case CtrlL => Page([], 0, [])
    case Enter =>
      if p.line != [] && |p.sheet| % COLS == 0 then p.(line := [])
      else Turned(Page(p.sheet + seq(COLS - |p.sheet| % COLS, _ => SPACE), p.top, []))
    case Switch(_) => p
  }

  lemma PrintedPage(t: Term, p: Page, bytes: seq<byte>, color: byte)
    requires Pictures(t, p)
    ensures Pictures(PutAll(t, Visible(bytes), color), Printed(p, bytes))
  {
    hide ShowsFrom, PutAll, ExtendedBy;
    ShowsAll(t, p.sheet, p.top, Visible(bytes), color);
    NulIsBlank(p.sheet, bytes);
  }

  lemma {:induction false} NulIsBlank(canvas: seq<byte>, bytes: seq<byte>)
    ensures ExtendedBy(canvas, Visible(bytes)) == ExtendedBy(canvas, bytes)
    decreases |bytes|
  {
    if bytes != [] {
      NulIsBlank(canvas, bytes[..|bytes| - 1]);
      VisibleSnoc(bytes, |bytes| - 1);
      assert bytes[..|bytes|] == bytes;
      assert Visible(bytes)[..|bytes| - 1] == Visible(bytes[..|bytes| - 1]);
    }
  }

  lemma KeyedPage(t: Term, p: Page, key: Key, color: byte)
    requires Pictures(t, p) && KeyOk(key)
    ensures Pictures(Pressed(t, key, color), Keyed(p, key))
  {
    hide ShowsFrom, Put, PutAll;
    PressedEdits(t, key, color);
    match key {
      case Char(c) => CharPage(t, p, c, color);
      case Backspace => BackspacePage(t, p, color);
      case CtrlL => ShowsCleared(t.(count := 0), color);
      case Enter => EnterPage(t, p, color);
      case Switch(_) =>
    }
  }

  /** What is shown depends on the cells and the cursor alone. */
  lemma SameShown(t: Term, u: Term, canvas: seq<byte>, top: nat)
    requires ShowsFrom(t, canvas, top) && u.cells == t.cells && u.x == t.x && u.y == t.y && |u.line| == LINE
    ensures ShowsFrom(u, canvas, top)
  {
    assert forall i :: 0 <= i < CELLS ==> Ch(u, i) == Ch(t, i);
  }

  lemma CharPage(t: Term, p: Page, c: byte, color: byte)
    requires Pictures(t, p) && KeyOk(Char(c))
    ensures ShowsFrom(Pressed(t, Char(c), color), Keyed(p, Char(c)).sheet, Keyed(p, Char(c)).top)
  {
    hide ShowsFrom, Put;
    if t.count < LINE {
      var u := t.(line := t.line[t.count := c], count := t.count + 1);
      SameShown(t, u, p.sheet, p.top);
      ShowsPut(u, p.sheet, p.top, c, color);
    }
  }

  lemma BackspacePage(t: Term, p: Page, color: byte)
    requires Pictures(t, p)
    ensures ShowsFrom(Pressed(t, Backspace, color), Keyed(p, Backspace).sheet, Keyed(p, Backspace).top)
    ensures p.line != [] ==> p.sheet != []
  {
    if t.count > 0 {
      var u := Pressed(t, Backspace, color);
      forall i | 0 <= i < CELLS
        ensures Blank(Ch(u, i)) == CanvasAt(p.sheet[..|p.sheet| - 1], p.top + i)
      {
        assert Ch(u, i) == if i == Pos(t) - 1 then SPACE else Ch(t, i);
      }
    }
  }

  lemma EnterPage(t: Term, p: Page, color: byte)
    requires Pictures(t, p)
    ensures ShowsFrom(Pressed(t, Enter, color), Keyed(p, Enter).sheet, Keyed(p, Enter).top)
  {
    hide Put, Ch;
    var u := t.(line := Zeros(LINE));
    SameShown(t, u, p.sheet, p.top);
    assert t.x == |p.sheet| % COLS;
    if t.count != 0 && t.x == 0 {
      RowStays(u, color);
      SameShown(u, Pressed(t, Enter, color), p.sheet, p.top);
    } else {
      ShowsPut(u, p.sheet, p.top, NEWLINE, color);
      var v := Put(u, NEWLINE, color);
      var sheet := Extended(p.sheet, NEWLINE);
      PutCells(u, NEWLINE, color, 0);
      SameShown(v, v.(count := 0), sheet, Max(p.top, WindowBase(sheet)));
    }
  }

  /** One row up and a new line: nothing moves. */
  lemma RowStays(t: Term, color: byte)
    requires OnScreen(t) && t.x == 0 && t.y > 0
    ensures Put(t.(y := t.y - 1), NEWLINE, color) == t
  {
  }

  // ----- whole runs ------------------------------------------------------------------

  function DisplayedAfter(disp: nat, e: Event): nat {
    if e.Press? && e.key.Switch? then e.key.t else disp
  }

  /** Terminal t's page: keys reach it while it is displayed, output while it is scheduled. */
  function PageNext(p: Page, t: nat, disp: nat, e: Event): Page {
    match e
    case Press(key) => if disp == t then Keyed(p, key) else p
    case Write(sched, bytes) => if sched == t then Printed(p, bytes) else p
    case Read(_) => p
  }

  function PageAfter(p: Page, t: nat, disp: nat, es: seq<Event>): Page
    decreases |es|
  {
    if es == [] then p
    else PageAfter(PageNext(p, t, disp, es[0]), t, DisplayedAfter(disp, es[0]), es[1..])
  }

  lemma StepPage(w: World, e: Event, t: nat, p: Page)
    requires Sound(w) && EventOk(e) && t < TERMINALS && Pictures(w.terms[t], p)
    ensures Step(w, e).disp == DisplayedAfter(w.disp, e)
    ensures Pictures(Step(w, e).terms[t], PageNext(p, t, w.disp, e))
  {
    hide Pictures, Keyed, Printed, Pressed, PutAll;
    match e {
      case Press(key) =>
        KeyedPage(w.terms[t], p, key, COLOR[t]);
        NotTyped(w.terms[t], p, key, COLOR[t]);
      case Write(_, bytes) => PrintedPage(w.terms[t], p, bytes, COLOR[t]);
      case Read(_) =>
    }
  }

  lemma NotTyped(t: Term, p: Page, key: Key, color: byte)
    requires Bounded(t)
    ensures key.Switch? ==> Pressed(t, key, color) == t && Keyed(p, key) == p
  {
  }

  /** Every terminal shows its page after any run. */
  lemma {:induction false} RunPage(w: World, es: seq<Event>, t: nat, p: Page)
    requires Sound(w) && (forall e :: e in es ==> EventOk(e)) && t < TERMINALS && Pictures(w.terms[t], p)
    ensures Pictures(Run(w, es).terms[t], PageAfter(p, t, w.disp, es))
    decreases |es|
  {
    hide Pictures, PageNext, DisplayedAfter, Step;
    if es != [] {
      assert EventOk(es[0]);
      StepPage(w, es[0], t, p);
      RunPage(Step(w, es[0]), es[1..], t, PageNext(p, t, w.disp, es[0]));
    }
  }

  /** A key that types reaches the displayed terminal, output the one it is written to. */
  predicate Reaches(t: nat, disp: nat, e: Event) {
    (e.Press? && !e.key.Switch? && disp == t) || (e.Write? && e.sched == t)
  }

  /** No key reaches terminal t, and no output. */
  predicate Elsewhere(t: nat, disp: nat, es: seq<Event>)
    decreases |es|
  {
    es == [] || (!Reaches(t, disp, es[0]) && Elsewhere(t, DisplayedAfter(disp, es[0]), es[1..]))
  }

  lemma StepElsewhere(w: World, e: Event, t: nat)
    requires Sound(w) && EventOk(e) && t < TERMINALS && !Reaches(t, w.disp, e)
    ensures Step(w, e).terms[t] == w.terms[t] && Step(w, e).disp == DisplayedAfter(w.disp, e)
  {
  }

  /** What happens on other terminals changes nothing on this one. */
  lemma {:induction false} Bystander(w: World, es: seq<Event>, t: nat)
    requires Sound(w) && (forall e :: e in es ==> EventOk(e)) && t < TERMINALS && Elsewhere(t, w.disp, es)
    ensures Run(w, es).terms[t] == w.terms[t]
    decreases |es|
  {
    hide Step;
    if es != [] {
      assert EventOk(es[0]);
      StepElsewhere(w, es[0], t);
      Bystander(Step(w, es[0]), es[1..], t);
    }
  }

  // ----- colours ---------------------------------------------------------------------

  ghost predicate Coloured(w: World) {
    Sound(w) && forall t :: 0 <= t < TERMINALS ==> Painted(w.terms[t], COLOR[t])
  }

  lemma KeyColour(t: Term, key: Key, color: byte)
    requires Bounded(t) && Painted(t, color) && KeyOk(key)
    ensures Painted(Pressed(t, key, color), color)
  {
    hide Put;
    match key {
      case Char(c) => if t.count < LINE { PutColour(t.(line := t.line[t.count := c], count := t.count + 1), c, color); }
      case Enter => PutColour(Unwrapped(t.(line := Zeros(LINE))), NEWLINE, color);
      case CtrlL => ShowsCleared(t.(count := 0), color);
      case _ =>
    }
  }

  lemma PutColour(t: Term, c: byte, color: byte)
    requires OnScreen(t) && Painted(t, color)
    ensures Painted(Put(t, c, color), color)
  {
  }

  lemma StepColour(w: World, e: Event)
    requires Coloured(w) && EventOk(e)
    ensures Coloured(Step(w, e))
  {
    hide Painted, Pressed, PutAll;
    match e {
      case Press(key) => KeyColour(w.terms[w.disp], key, COLOR[w.disp]);
      case Write(sched, bytes) => TextColour(w.terms[sched], Visible(bytes), COLOR[sched]);
      case Read(_) =>
    }
  }

  lemma {:induction false} TextColour(t: Term, text: seq<byte>, color: byte)
    requires Bounded(t) && Painted(t, color)
    ensures Painted(PutAll(t, text, color), color)
    decreases |text|
  {
    hide Painted, Put;
    if text != [] {
      TextColour(t, text[..|text| - 1], color);
      PutColour(PutAll(t, text[..|text| - 1], color), text[|text| - 1], color);
    }
  }

  /** Every screen keeps its terminal's colour. */
  lemma {:induction false} ColoursKept(w: World, es: seq<Event>)
    requires Coloured(w) && forall e :: e in es ==> EventOk(e)
    ensures Coloured(Run(w, es))
    decreases |es|
  {
    hide Painted, Step;
    if es != [] {
      assert EventOk(es[0]);
      StepColour(w, es[0]);
      ColoursKept(Step(w, es[0]), es[1..]);
    }
  }

  // ----- the read flags --------------------------------------------------------------

  /** A terminal's flag goes up with Enter while it is displayed and down with its read. */
  function ReadyAfter(ready: bool, t: nat, disp: nat, es: seq<Event>): bool
    decreases |es|
  {
    if es == [] then ready
    else
      var now := if es[0] == Press(Enter) && disp == t then true else if es[0] == Read(t) then false else ready;
      ReadyAfter(now, t, DisplayedAfter(disp, es[0]), es[1..])
  }

  lemma {:induction false} Readiness(w: World, es: seq<Event>, t: nat)
    requires Sound(w) && (forall e :: e in es ==> EventOk(e)) && t < TERMINALS
    ensures Run(w, es).ready[t] == ReadyAfter(w.ready[t], t, w.disp, es)
    decreases |es|
  {
    if es != [] {
      assert EventOk(es[0]);
      Readiness(Step(w, es[0]), es[1..], t);
    }
  }

  /** Enter is not pressed while terminal t is displayed. */
  predicate NoLine(t: nat, disp: nat, es: seq<Event>)
    decreases |es|
  {
    es == [] || (!(es[0] == Press(Enter) && disp == t) && NoLine(t, DisplayedAfter(disp, es[0]), es[1..]))
  }

  lemma {:induction false} StaysDown(t: nat, disp: nat, es: seq<Event>)
    requires NoLine(t, disp, es)
    ensures !ReadyAfter(false, t, disp, es)
    decreases |es|
  {
    if es != [] {
      StaysDown(t, DisplayedAfter(disp, es[0]), es[1..]);
    }
  }

  /** A read waits for a line of its own: its terminal's flag is down until the next Enter
      there. The other terminals' flags stay, and terminal_buffer is empty until the next
      Enter anywhere. */
  lemma ReadWaits(w: World, t: nat, es: seq<Event>)
    requires Sound(w) && t < TERMINALS && (forall e :: e in es ==> EventOk(e)) && NoLine(t, w.disp, es)
    ensures var n := Step(w, Read(t));
            && !Run(n, es).ready[t]
            && (forall u :: 0 <= u < TERMINALS && u != t ==> n.ready[u] == w.ready[u])
            && n.terms == w.terms && n.disp == w.disp
            && (NoEnter(es) ==> Run(n, es).tbuf == Zeros(LINE))
  {
    hide Run;
    var n := Step(w, Read(t));
    Readiness(n, es, t);
    StaysDown(t, w.disp, es);
    if NoEnter(es) {
      TbufKept(n, es);
    }
  }
}
