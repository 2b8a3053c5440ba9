/** How the three logical terminals are stored: the displayed one in VGA memory and
    keyboard_buffer, the others in their backing buffers. */
module Storage {
  import opened Bytes
  import opened Platform
  import opened Screen
  import opened Terminals
  import Paging

  const MEMORY := 0xC_0000

  /** Physical memory, keyboard_buffer, the terminals' local_keyboard_buffers one after the
      other, screen_x, screen_y, input_count and disp_terminal. */
  datatype Store = Store(mem: seq<byte>, keyboard: seq<byte>, locals: seq<byte>,
                         xs: seq<int>, ys: seq<int>, counts: seq<int>, disp: nat)

  predicate Shaped(s: Store) {
    && |s.mem| >= MEMORY && |s.keyboard| == LINE && |s.locals| == TERMINALS * LINE
    && |s.xs| == |s.ys| == |s.counts| == TERMINALS && s.disp < TERMINALS
  }

  function ScreenBase(disp: nat, t: nat): nat {
    if t == disp then Paging.VIDEO else Paging.VideoMem(t)
  }

  function Cells(s: Store, t: nat): seq<byte>
    requires Shaped(s) && t < TERMINALS
  {
    s.mem[ScreenBase(s.disp, t)..ScreenBase(s.disp, t) + SCREEN]
  }

  function EditLine(s: Store, t: nat): seq<byte>
    requires Shaped(s) && t < TERMINALS
  {
    if t == s.disp then s.keyboard else s.locals[LINE * t..LINE * (t + 1)]
  }

  /** Terminal t, assembled from wherever its parts are stored. */
  function Logical(s: Store, t: nat): (u: Term)
    requires Shaped(s) && t < TERMINALS
    ensures Sized(u)
  {
    Term(Cells(s, t), s.xs[t], s.ys[t], EditLine(s, t), s.counts[t])
  }

  /** `n` stores `u` in place of terminal t and is otherwise `s`. */
  ghost predicate Drawn(s: Store, n: Store, t: nat, u: Term)
    requires Shaped(s) && t < TERMINALS && Sized(u)
  {
    && n.mem == Blit(s.mem, ScreenBase(s.disp, t), u.cells)
    && n.xs == s.xs[t := u.x] && n.ys == s.ys[t := u.y] && n.counts == s.counts[t := u.count]
    && n.disp == s.disp && n.locals == s.locals
    && n.keyboard == (if t == s.disp then u.line else s.keyboard)
    && (t != s.disp ==> u.line == EditLine(s, t))
  }

  lemma DrawnLine(s: Store, n: Store, t: nat, u: Term, v: nat)
    requires Shaped(s) && t < TERMINALS && Sized(u) && Drawn(s, n, t, u) && v < TERMINALS
    ensures Shaped(n) && EditLine(n, v) == if v == t then u.line else EditLine(s, v)
  {
  }

  lemma DrawnLogical(s: Store, n: Store, t: nat, u: Term, v: nat)
    requires Shaped(s) && t < TERMINALS && Sized(u) && Drawn(s, n, t, u) && v < TERMINALS
    ensures Shaped(n) && Logical(n, v) == if v == t then u else Logical(s, v)
  {
    hide Blit, EditLine;
    DrawnLine(s, n, t, u, v);
    BlitSlices(s.mem, ScreenBase(s.disp, t), u.cells, ScreenBase(s.disp, v), ScreenBase(s.disp, v) + SCREEN);
  }

  lemma DrawnSame(s: Store, t: nat)
    requires Shaped(s) && t < TERMINALS
    ensures Drawn(s, s, t, Logical(s, t))
  {
  }

  lemma DrawnTwice(s: Store, n: Store, m: Store, t: nat, u: Term, w: Term)
    requires Shaped(s) && Shaped(n) && t < TERMINALS && Sized(u) && Sized(w) && Drawn(s, n, t, u) && Drawn(n, m, t, w)
    ensures Drawn(s, m, t, w)
  {
  }

  /** The logical view of a store and of the two variables shared by all terminals. */
  function View(s: Store, tbuf: seq<byte>, ready: seq<bool>): World
    requires Shaped(s)
  {
    World([Logical(s, 0), Logical(s, 1), Logical(s, 2)], s.disp, tbuf, ready)
  }

  /** The two shared variables are the only part of the view that is not the store's. */
  lemma ViewShared(s: Store, tbuf: seq<byte>, ready: seq<bool>, tbuf': seq<byte>, ready': seq<bool>)
    requires Shaped(s)
    ensures View(s, tbuf, ready).disp == s.disp
    ensures View(s, tbuf, ready).tbuf == tbuf && View(s, tbuf, ready).ready == ready
    ensures View(s, tbuf', ready') == View(s, tbuf, ready).(tbuf := tbuf', ready := ready')
  {
  }

  lemma DrawnView(s: Store, n: Store, t: nat, u: Term, tbuf: seq<byte>, ready: seq<bool>)
    requires Shaped(s) && t < TERMINALS && Sized(u) && Drawn(s, n, t, u)
    ensures Shaped(n)
    ensures View(n, tbuf, ready) == World(View(s, tbuf, ready).terms[t := u], s.disp, tbuf, ready)
  {
    hide Drawn, Logical;
    DrawnLogical(s, n, t, u, 0);
    DrawnLogical(s, n, t, u, 1);
    DrawnLogical(s, n, t, u, 2);
    DrawnDisp(s, n, t, u);
  }

  lemma DrawnDisp(s: Store, n: Store, t: nat, u: Term)
    requires Shaped(s) && t < TERMINALS && Sized(u) && Drawn(s, n, t, u)
    ensures n.disp == s.disp
  {
  }

  lemma BootSound(s: Store, n: Store, color: byte, ready: seq<bool>)
    requires Shaped(s) && s.disp == 0 && s.xs == s.ys == s.counts == [0, 0, 0] && |ready| == TERMINALS
    requires Drawn(s, n, 0, Cleared(Logical(s, 0), color))
    ensures Shaped(n) && Sound(View(n, Zeros(LINE), ready))
    ensures ShowsFrom(View(n, Zeros(LINE), ready).terms[0], [], 0) && Painted(View(n, Zeros(LINE), ready).terms[0], color)
    ensures forall t :: 0 <= t < TERMINALS ==> View(n, Zeros(LINE), ready).terms[t].count == 0
  {
  }

  // ----- switch_terminal -------------------------------------------------------------

  /** The four copies of switch_terminal. */
  function Switched(s: Store, next: nat): (n: Store)
    requires Shaped(s) && next < TERMINALS
    ensures Shaped(n)
  {
    if next == s.disp then s
    else
      var parked := Blit(s.mem, Paging.VideoMem(s.disp), s.mem[Paging.VIDEO..Paging.VIDEO + SCREEN]);
      s.(locals := Blit(s.locals, LINE * s.disp, s.keyboard),
         keyboard := s.locals[LINE * next..LINE * (next + 1)],
         mem := Blit(parked, Paging.VIDEO, parked[Paging.VideoMem(next)..Paging.VideoMem(next) + SCREEN]),
         disp := next)
  }

  /** Switching changes which terminal is displayed and no logical terminal. */
  lemma SwitchInvisible(s: Store, next: nat, v: nat)
    requires Shaped(s) && next < TERMINALS && v < TERMINALS
    ensures Logical(Switched(s, next), v) == Logical(s, v)
    ensures Switched(s, next).disp == next
  {
    if next != s.disp {
      SwitchCells(s, next, v);
      SwitchLines(s, next, v);
    }
  }

  lemma SwitchCells(s: Store, next: nat, v: nat)
    requires Shaped(s) && next < TERMINALS && v < TERMINALS && next != s.disp
    ensures Cells(Switched(s, next), v) == Cells(s, v)
  {
    hide Blit;
    var parked := Blit(s.mem, Paging.VideoMem(s.disp), s.mem[Paging.VIDEO..Paging.VIDEO + SCREEN]);
    var shown := parked[Paging.VideoMem(next)..Paging.VideoMem(next) + SCREEN];
    SwitchedMemory(s.mem, s.disp, next, v);
    assert Switched(s, next).mem == Blit(parked, Paging.VIDEO, shown);
  }

  /** The two copies of screen memory: what was displayed is parked, what was hidden is
      displayed, and the third terminal stays where it is. */
  lemma SwitchedMemory(mem: seq<byte>, disp: nat, next: nat, v: nat)
    requires |mem| >= MEMORY && disp < TERMINALS && next < TERMINALS && v < TERMINALS && next != disp
    ensures var parked := Blit(mem, Paging.VideoMem(disp), mem[Paging.VIDEO..Paging.VIDEO + SCREEN]);
            var now := Blit(parked, Paging.VIDEO, parked[Paging.VideoMem(next)..Paging.VideoMem(next) + SCREEN]);
            now[ScreenBase(next, v)..ScreenBase(next, v) + SCREEN] == mem[ScreenBase(disp, v)..ScreenBase(disp, v) + SCREEN]
  {
    hide Blit;
    var third := 3 - disp - next;
    TwoCopies(mem, Paging.VIDEO, Paging.VideoMem(disp), Paging.VideoMem(next), Paging.VideoMem(third), SCREEN);
    assert v == next || v == disp || v == third;
  }

  /** Memory at `live` goes to `out` and memory at `back` to `live`; what is at `other` stays. */
  lemma TwoCopies(mem: seq<byte>, live: nat, out: nat, back: nat, other: nat, n: nat)
    requires live + n <= out && live + n <= back && live + n <= other
    requires out + n <= |mem| && back + n <= |mem| && other + n <= |mem|
    requires (out + n <= back || back + n <= out) && (out + n <= other || other + n <= out)
    ensures var parked := Blit(mem, out, mem[live..live + n]);
            var now := Blit(parked, live, parked[back..back + n]);
            && now[live..live + n] == mem[back..back + n] && now[out..out + n] == mem[live..live + n]
            && now[other..other + n] == mem[other..other + n]
  {
    hide Blit;
    var parked := Blit(mem, out, mem[live..live + n]);
    BlitSlices(mem, out, mem[live..live + n], back, back + n);
    BlitSlices(mem, out, mem[live..live + n], other, other + n);
    BlitSlices(parked, live, parked[back..back + n], out, out + n);
    BlitSlices(parked, live, parked[back..back + n], other, other + n);
  }

  lemma SwitchLines(s: Store, next: nat, v: nat)
    requires Shaped(s) && next < TERMINALS && v < TERMINALS && next != s.disp
    ensures EditLine(Switched(s, next), v) == EditLine(s, v)
  {
  }
}
