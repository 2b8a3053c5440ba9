/** putc, scroll, backspace and clear of lib.c and the terminal code of keyboard.c, working
    in place. The displayed terminal's screen is the VGA memory at 0xB8000 and its edit
    line is keyboard_buffer; the other terminals' are in their backing buffers. Addresses
    index the byte array of physical memory. */
module Console {
  import opened Bytes
  import opened Platform
  import opened Screen
  import opened Terminals
  import opened Storage
  import Lib
  import Paging

  class Console {
    const mem: array<byte>
    const keyboardBuffer: array<byte>
    const terminalBuffer: array<byte>
    /** terminals[t].local_keyboard_buffer at 128 * t. */
    const localBuffer: array<byte>
    const screenX: array<int>
    const screenY: array<int>
    const inputCount: array<int>
    const readFlag: array<bool>
    const mmu: Paging.Mmu
    var dispTerminal: nat
    /** The position last sent to the VGA cursor registers. */
    var cursor: int

    ghost predicate Layout()
      reads this`dispTerminal
    {
      && mem.Length >= MEMORY && keyboardBuffer.Length == terminalBuffer.Length == LINE
      && localBuffer.Length == TERMINALS * LINE
      && screenX.Length == screenY.Length == inputCount.Length == readFlag.Length == TERMINALS
      && mem != keyboardBuffer && mem != terminalBuffer && mem != localBuffer
      && keyboardBuffer != terminalBuffer && keyboardBuffer != localBuffer && terminalBuffer != localBuffer
      && screenX != screenY && screenX != inputCount && screenY != inputCount
      && mmu.Valid() && dispTerminal < TERMINALS
    }

    ghost function Stored(): (s: Store)
      requires Layout()
      reads this, mem, keyboardBuffer, localBuffer, screenX, screenY, inputCount
      ensures Shaped(s)
    {
      Store(mem[..], keyboardBuffer[..], localBuffer[..], screenX[..], screenY[..], inputCount[..], dispTerminal)
    }

    ghost function World(): World
      requires Layout()
      reads this, mem, keyboardBuffer, terminalBuffer, localBuffer, screenX, screenY, inputCount, readFlag
    {
      View(Stored(), terminalBuffer[..], readFlag[..])
    }

    /** The user video page of every terminal maps to its screen; the table maps no other page. */
    ghost predicate VideoMapped()
      requires Layout()
      reads this`dispTerminal, mmu.pageDir, mmu.videoTable
    {
      VideoMappedFor(dispTerminal)
    }

    ghost predicate VideoMappedFor(disp: nat)
      requires mmu.Valid()
      reads mmu.pageDir, mmu.videoTable
    {
      && mmu.pageDir[Paging.VIDEO_SLOT] == Paging.Entry(true, true, true, false, mmu.videoFrame)
      && (forall t :: 0 <= t < TERMINALS ==>
            mmu.videoTable[Paging.VideoIdx(t)] == Paging.Entry(true, true, true, false, ScreenBase(disp, t) / KB4))
      && forall i :: 0 <= i < Paging.ENTRIES && i !in {0xBA, 0xBC, 0xBE} ==> mmu.videoTable[i] == Paging.CLEAR
    }

    ghost predicate Valid()
      reads this, mem, keyboardBuffer, terminalBuffer, localBuffer, screenX, screenY, inputCount, readFlag
      reads mmu.pageDir, mmu.videoTable
    {
      && Layout() && Sound(World()) && VideoMapped()
      && cursor == COLS * screenY[dispTerminal] + screenX[dispTerminal]
    }

    /** A context switch changes only the user page. */
    twostate lemma PagesKept()
      requires old(Valid()) && mmu.pageDir[..] == old(mmu.pageDir[..])[Paging.USER_SLOT := mmu.pageDir[Paging.USER_SLOT]]
      requires unchanged(this, mem, keyboardBuffer, terminalBuffer, localBuffer, screenX, screenY, inputCount, readFlag)
      requires unchanged(mmu.videoTable)
      ensures Valid() && World() == old(World())
    {
      hide Sound, World;
      assert mmu.pageDir[..][Paging.VIDEO_SLOT] == mmu.pageDir[Paging.VIDEO_SLOT];
      assert old(mmu.pageDir[..])[Paging.VIDEO_SLOT] == old(mmu.pageDir[Paging.VIDEO_SLOT]);
    }

    /** The kernel's zeroed variables. */
    constructor (mem: array<byte>, mmu: Paging.Mmu)
      requires mem.Length >= MEMORY && mmu.Valid()
      ensures Layout() && this.mem == mem && this.mmu == mmu && dispTerminal == 0
      ensures screenX[..] == screenY[..] == [0, 0, 0]
      ensures fresh(keyboardBuffer) && fresh(terminalBuffer) && fresh(localBuffer)
      ensures fresh(screenX) && fresh(screenY) && fresh(inputCount) && fresh(readFlag)
    {
      this.mem, this.mmu := mem, mmu;
      keyboardBuffer := new byte[LINE](_ => NUL);
      terminalBuffer := new byte[LINE](_ => NUL);
      localBuffer := new byte[TERMINALS * LINE](_ => NUL);
      screenX := new int[TERMINALS](_ => 0);
      screenY := new int[TERMINALS](_ => 0);
      inputCount := new int[TERMINALS](_ => 0);
      readFlag := new bool[TERMINALS](_ => false);
      dispTerminal, cursor := 0, 0;
    }

    /** terminal_init, on the page tables that pagingInit leaves. */
    method TerminalInit()
      requires Layout() && dispTerminal == 0 && screenX[..] == screenY[..] == [0, 0, 0]
      requires Paging.BootTables(mmu.pageDir[..], mmu.lowTable[..], mmu.videoTable[..], mmu.lowFrame, mmu.videoFrame)
      modifies mem, screenX, screenY, keyboardBuffer, terminalBuffer, localBuffer, inputCount, this`cursor
      ensures Valid() && World().disp == 0 && World().tbuf == Zeros(LINE)
      ensures ShowsFrom(World().terms[0], [], 0) && Painted(World().terms[0], COLOR[0])
      ensures forall t :: 0 <= t < TERMINALS ==> World().terms[t].count == 0
    {
      hide Drawn, Logical, Sound, VideoMapped, Paging.BootTables;
      ResetLines();
      ghost var s := Stored();
      Clear();
      BootSound(s, Stored(), COLOR[0], readFlag[..]);
      BootMapped();
    }

    method ResetLines()
      requires Layout()
      modifies keyboardBuffer, terminalBuffer, localBuffer, inputCount
      ensures inputCount[..] == [0, 0, 0] && terminalBuffer[..] == Zeros(LINE)
    {
      ClearLine(keyboardBuffer);
      ClearLine(terminalBuffer);
      for i := 0 to TERMINALS
        invariant terminalBuffer[..] == Zeros(LINE)
        invariant forall j :: 0 <= j < i ==> inputCount[j] == 0
      {
        inputCount[i] := 0;
        for j := 0 to LINE
          modifies localBuffer
        {
          localBuffer[LINE * i + j] := NUL;
        }
      }
    }

    lemma BootMapped()
      requires Layout() && dispTerminal == 0
      requires Paging.BootTables(mmu.pageDir[..], mmu.lowTable[..], mmu.videoTable[..], mmu.lowFrame, mmu.videoFrame)
      ensures VideoMapped()
    {
    }

    // ----- screen memory ---------------------------------------------------------------

    /** `now` is `before` with the first `k` cells of the screen at `base` scrolled. */
    static ghost predicate ScrolledTo(now: seq<byte>, before: seq<byte>, base: nat, color: byte, k: nat)
      requires base + SCREEN <= |before| && k <= CELLS
    {
      Laid(now, before, base, Scrolled(before[base..base + SCREEN], color), 2 * k)
    }

    /** One cell of the row below moves up, in the terminal's colour. */
    method MoveCell(base: nat, i: nat, color: byte, ghost before: seq<byte>)
      requires base + SCREEN <= |before| && i < CELLS - COLS && ScrolledTo(mem[..], before, base, color, i)
      modifies mem
      ensures ScrolledTo(mem[..], before, base, color, i + 1)
    {
      mem[base + 2 * i] := mem[base + 2 * (i + COLS)];
      mem[base + 2 * i + 1] := color;
    }

    /** One cell of the last row; the attribute written is the one a row above. */
    method ClearCell(base: nat, i: nat, color: byte, ghost before: seq<byte>)
      requires base + SCREEN <= |before| && CELLS - COLS <= i < CELLS && ScrolledTo(mem[..], before, base, color, i)
      modifies mem
      ensures ScrolledTo(mem[..], before, base, color, i + 1)
    {
      mem[base + 2 * i] := NUL;
      mem[base + 2 * (i - COLS) + 1] := color;
    }

    method Scroll(base: nat, color: byte)
      requires base + SCREEN <= mem.Length
      modifies mem
      ensures mem[..] == Blit(old(mem[..]), base, Scrolled(old(mem[base..base + SCREEN]), color))
    {
      hide ScrolledTo;
      ghost var before := mem[..];
      ScrolledNone(before, base, color);
      var row := 1;
      while row < ROWS
        invariant 1 <= row <= ROWS
        invariant ScrolledTo(mem[..], before, base, color, COLS * (row - 1))
      {
        var col := 0;
        while col < COLS
          invariant 0 <= col <= COLS
          invariant ScrolledTo(mem[..], before, base, color, COLS * (row - 1) + col)
        {
          MoveCell(base, COLS * (row - 1) + col, color, before);
          col := col + 1;
        }
        row := row + 1;
      }
      row := ROWS - 1;
      for col := 0 to COLS
        invariant ScrolledTo(mem[..], before, base, color, COLS * row + col)
      {
        ClearCell(base, COLS * row + col, color, before);
      }
      ScrolledAll(mem[..], before, base, color);
    }

    static lemma ScrolledNone(before: seq<byte>, base: nat, color: byte)
      requires base + SCREEN <= |before|
      ensures ScrolledTo(before, before, base, color, 0)
    {
    }

    static lemma ScrolledAll(now: seq<byte>, before: seq<byte>, base: nat, color: byte)
      requires base + SCREEN <= |before| && ScrolledTo(now, before, base, color, CELLS)
      ensures now == Blit(before, base, Scrolled(before[base..base + SCREEN], color))
    {
    }

    method BlankScreen(color: byte)
      requires Layout()
      modifies mem
      ensures mem[..] == Blit(old(mem[..]), Paging.VIDEO, Blanked(color))
    {
      ghost var before, piece := mem[..], Blanked(color);
      for i := 0 to ROWS * COLS
        invariant Laid(mem[..], before, Paging.VIDEO, piece, 2 * i)
      {
        mem[Paging.VIDEO + 2 * i] := SPACE;
        mem[Paging.VIDEO + 2 * i + 1] := color;
      }
      LaidIsBlit(mem[..], before, Paging.VIDEO, piece);
    }

    method SetCursor(row: int, col: int)
      modifies this`cursor
      ensures cursor == COLS * row + col
    {
      cursor := row * COLS + col;
    }

    method Clear()
      requires Layout()
      modifies mem, screenX, screenY, this`cursor
      ensures Layout() && cursor == 0 == COLS * screenY[dispTerminal] + screenX[dispTerminal]
      ensures Drawn(old(Stored()), Stored(), dispTerminal,
                    Cleared(Logical(old(Stored()), dispTerminal), COLOR[dispTerminal]))
    {
      BlankScreen(COLOR[dispTerminal]);
      SetCursor(0, 0);
      screenX[dispTerminal] := 0;
      screenY[dispTerminal] := 0;
    }

    // ----- putc ------------------------------------------------------------------------

    /** Writes one cell at terminal t's cursor. */
    method Poke(t: nat, base: nat, c: byte)
      requires Layout() && t < TERMINALS && base == ScreenBase(dispTerminal, t) && OnScreen(Logical(Stored(), t))
      modifies mem
      ensures var u := Logical(old(Stored()), t);
              Drawn(old(Stored()), Stored(), t, u.(cells := Screen.Poke(u.cells, Pos(u), c, COLOR[t])))
    {
      hide Blit;
      ghost var before, cells := mem[..], mem[base..base + SCREEN];
      var i := COLS * screenY[t] + screenX[t];
      mem[base + 2 * i] := c;
      mem[base + 2 * i + 1] := COLOR[t];
      LaidIsBlit(mem[..], before, base, Screen.Poke(cells, i, c, COLOR[t]));
    }

    /** The character and the cursor's step to the right. */
    method Plot(t: nat, base: nat, c: byte)
      requires Layout() && t < TERMINALS && base == ScreenBase(dispTerminal, t) && OnScreen(Logical(Stored(), t))
      modifies mem, screenX, screenY
      ensures Layout() && Drawn(old(Stored()), Stored(), t, Plotted(Logical(old(Stored()), t), c, COLOR[t]))
    {
      hide Blit, Screen.Poke;
      Poke(t, base, c);
      screenX[t] := screenX[t] + 1;
      if screenX[t] / COLS > 0 {
        screenY[t] := screenY[t] + 1;
        screenX[t] := 0;
      }
    }

    /** The scroll check that ends both cases of putc. */
    method Settle(t: nat, base: nat)
      requires Layout() && t < TERMINALS && base == ScreenBase(dispTerminal, t)
      modifies mem, screenY
      ensures Layout() && Drawn(old(Stored()), Stored(), t, Settled(Logical(old(Stored()), t), COLOR[t]))
    {
      hide Scrolled, Blit;
      DrawnSame(Stored(), t);
      if screenY[t] >= ROWS {
        Scroll(base, COLOR[t]);
        screenY[t] := ROWS - 1;
      }
    }

    /** The branch of putc for terminal t, whose screen is stored at `base`. */
    method PutAt(t: nat, base: nat, c: byte)
      requires Layout() && t < TERMINALS && base == ScreenBase(dispTerminal, t) && OnScreen(Logical(Stored(), t))
      modifies mem, screenX, screenY
      ensures Layout() && Drawn(old(Stored()), Stored(), t, Put(Logical(old(Stored()), t), c, COLOR[t]))
    {
      hide Drawn, Logical, Settled, Plotted;
      ghost var s, u := Stored(), Logical(Stored(), t);
      if c == NEWLINE || c == RETURN {
        NextRow(t, base);
        ghost var n, v := Stored(), u.(y := u.y + 1);
        DrawnLogical(s, n, t, v, t);
        Settle(t, base);
        DrawnTwice(s, n, Stored(), t, v, Settled(v, COLOR[t]));
        n := Stored();
        FirstColumn(t, base);
        DrawnLogical(s, n, t, Settled(v, COLOR[t]), t);
        DrawnTwice(s, n, Stored(), t, Settled(v, COLOR[t]), Settled(v, COLOR[t]).(x := 0));
      } else {
        ghost var v := Plotted(u, c, COLOR[t]);
        Plot(t, base, c);
        ghost var n := Stored();
        DrawnLogical(s, n, t, v, t);
        Settle(t, base);
        DrawnTwice(s, n, Stored(), t, v, Settled(v, COLOR[t]));
      }
    }

    method NextRow(t: nat, base: nat)
      requires Layout() && t < TERMINALS && base == ScreenBase(dispTerminal, t)
      modifies screenY
      ensures var u := Logical(old(Stored()), t); Drawn(old(Stored()), Stored(), t, u.(y := u.y + 1))
    {
      BlitTwice(mem[..], base, mem[base..base + SCREEN], mem[base..base + SCREEN]);
      screenY[t] := screenY[t] + 1;
    }

    method FirstColumn(t: nat, base: nat)
      requires Layout() && t < TERMINALS && base == ScreenBase(dispTerminal, t)
      modifies screenX
      ensures Drawn(old(Stored()), Stored(), t, Logical(old(Stored()), t).(x := 0))
    {
      BlitTwice(mem[..], base, mem[base..base + SCREEN], mem[base..base + SCREEN]);
      screenX[t] := 0;
    }

    /** putc(c, on): on the displayed terminal, or on the scheduled one while hidden. */
    method Putc(c: byte, on: bool, sched: nat)
      requires Layout() && sched < TERMINALS && (!on ==> sched != dispTerminal)
      requires OnScreen(Logical(Stored(), if on then dispTerminal else sched))
      modifies mem, screenX, screenY, this`cursor
      ensures var t := if on then dispTerminal else sched;
              Layout() && Drawn(old(Stored()), Stored(), t, Put(Logical(old(Stored()), t), c, COLOR[t]))
      ensures cursor == COLS * screenY[dispTerminal] + screenX[dispTerminal]
    {
      SetCursor(screenY[dispTerminal], screenX[dispTerminal]);
      if !on {
        PutAt(sched, Paging.VideoMem(sched), c);
      } else {
        PutAt(dispTerminal, Paging.VIDEO, c);
        SetCursor(screenY[dispTerminal], screenX[dispTerminal]);
      }
    }

    // ----- terminal_write --------------------------------------------------------------

    /** One byte of a program's output. */
    method WriteByte(c: byte, sched: nat)
      requires Valid() && sched < TERMINALS
      modifies mem, screenX, screenY, this`cursor
      ensures Valid()
      ensures World() == old(World()).(terms := old(World()).terms[sched := Put(old(World()).terms[sched], c, COLOR[sched])])
    {
      hide Drawn, Put, Cells, EditLine;
      ghost var s, t := Stored(), Logical(Stored(), sched);
      assert World().terms[sched] == t;
      PutBounded(t, c, COLOR[sched]);
      Putc(c, sched == dispTerminal, sched);
      DrawnView(s, Stored(), sched, Put(t, c, COLOR[sched]), terminalBuffer[..], readFlag[..]);
    }

    /** terminal_write; `buf` may be a null pointer. The result is the same whether or not
        the writing program's terminal is displayed. */
    method TerminalWrite(buf: Option<seq<byte>>, nbytes: int, sched: nat) returns (written: int)
      requires Valid() && sched < TERMINALS && (buf.Some? ==> nbytes <= |buf.value|)
      modifies mem, screenX, screenY, this`cursor
      ensures Valid()
      ensures nbytes <= 0 || buf.None? ==> written == -1 && World() == old(World())
      ensures nbytes > 0 && buf.Some? ==>
                && written == nbytes - multiset(buf.value[..nbytes])[NUL]
                && World() == AfterWrite(old(World()), sched, buf.value[..nbytes])
    {
      hide Put, World, Sound, VideoMapped, AfterWrite;
      if nbytes <= 0 || buf.None? {
        return -1;
      }
      ghost var w := World();
      WriteNothing(w, sched);
      var bytes := buf.value;
      var i := 0;
      written := 0;
      assert bytes[..0] == [];
      while i < nbytes
        invariant 0 <= i <= nbytes && Valid() && written == Counted(bytes[..i])
        invariant World() == AfterWrite(w, sched, bytes[..i])
      {
        WriteMore(w, sched, bytes, i);
        assert bytes[..i + 1][..i] == bytes[..i];
        if bytes[i] == NUL {
          WriteByte(SPACE, sched);
        } else {
          WriteByte(bytes[i], sched);
          written := written + 1;
        }
        i := i + 1;
      }
      CountedIs(bytes[..nbytes]);
    }

    /** puts, on a C string held as the sequence of its characters. It prints on the
        displayed terminal, whoever calls it. */
    method Puts(s: seq<byte>)
      requires Valid() && NUL !in s
      modifies mem, screenX, screenY, this`cursor
      ensures Valid() && World() == AfterWrite(old(World()), old(World()).disp, s)
    {
      hide Put, World, Sound, VideoMapped, AfterWrite;
      ghost var w, d := World(), dispTerminal;
      DisplayedIs();
      WriteNothing(w, d);
      var index := 0;
      assert s[..0] == [];
      while index < |s|
        invariant 0 <= index <= |s| && Valid() && World() == AfterWrite(w, d, s[..index])
      {
        WriteMore(w, d, s, index);
        WriteByte(s[index], dispTerminal);
        index := index + 1;
      }
      assert s[..|s|] == s;
    }

    lemma DisplayedIs()
      requires Valid()
      ensures Layout() && World().disp == dispTerminal < TERMINALS
    {
    }

    // ----- the keyboard ----------------------------------------------------------------

    /** Typing, erasing, clearing: the displayed terminal becomes `u`. */
    ghost predicate Became(s: Store, u: Term)
      requires Layout() && Shaped(s)
      reads this, mem, keyboardBuffer, localBuffer, screenX, screenY, inputCount
    {
      Sized(u) && Drawn(s, Stored(), s.disp, u)
    }

    /** The edit line and its length change, nothing on the screen. */
    method SetLine(i: nat, c: byte, count: int)
      requires Layout() && i < LINE
      modifies keyboardBuffer, inputCount
      ensures Layout()
      ensures var u := Logical(old(Stored()), dispTerminal);
              Became(old(Stored()), u.(line := u.line[i := c], count := count))
    {
      ghost var base := ScreenBase(dispTerminal, dispTerminal);
      BlitTwice(mem[..], base, mem[base..base + SCREEN], mem[base..base + SCREEN]);
      keyboardBuffer[i] := c;
      inputCount[dispTerminal] := count;
    }

    method SetCount(count: int)
      requires Layout()
      modifies inputCount
      ensures Layout()
      ensures var u := Logical(old(Stored()), dispTerminal); Became(old(Stored()), u.(count := count))
    {
      ghost var base := ScreenBase(dispTerminal, dispTerminal);
      BlitTwice(mem[..], base, mem[base..base + SCREEN], mem[base..base + SCREEN]);
      inputCount[dispTerminal] := count;
    }

    /** backspace() of lib.c. */
    method StepBack()
      requires Layout() && OnScreen(Logical(Stored(), dispTerminal)) && 0 < Pos(Logical(Stored(), dispTerminal))
      modifies mem, screenX, screenY, this`cursor
      ensures Layout() && cursor == COLS * screenY[dispTerminal] + screenX[dispTerminal]
      ensures var t := Logical(old(Stored()), dispTerminal);
              0 < Pos(t) < CELLS && Became(old(Stored()), SteppedBack(t, COLOR[dispTerminal]))
    {
      hide Drawn, Logical;
      ghost var s, d, t := Stored(), dispTerminal, Logical(Stored(), dispTerminal);
      MoveBack();
      ghost var n := Stored();
      DrawnLogical(s, n, d, Back(t), d);
      DrawnDisp(s, n, d, Back(t));
      Poke(dispTerminal, Paging.VIDEO, SPACE);
      DrawnTwice(s, n, Stored(), d, Back(t), SteppedBack(t, COLOR[d]));
      SetCursor(screenY[dispTerminal], screenX[dispTerminal]);
    }

    method MoveBack()
      requires Layout()
      modifies screenX, screenY
      ensures Layout() && Became(old(Stored()), Back(Logical(old(Stored()), dispTerminal)))
    {
      ghost var base := ScreenBase(dispTerminal, dispTerminal);
      BlitTwice(mem[..], base, mem[base..base + SCREEN], mem[base..base + SCREEN]);
      if screenX[dispTerminal] == 0 {
        screenY[dispTerminal] := screenY[dispTerminal] - 1;
        screenX[dispTerminal] := COLS - 1;
      } else {
        screenX[dispTerminal] := screenX[dispTerminal] - 1;
      }
    }

    /** From the terminal's new value to the new world. */
    lemma BecameWorld(s: Store, u: Term, w: World)
      requires Layout() && Shaped(s) && Bounded(u) && Became(s, u)
      requires w == View(s, w.tbuf, w.ready)
      ensures dispTerminal == s.disp
      ensures World() == w.(terms := w.terms[w.disp := u], tbuf := terminalBuffer[..], ready := readFlag[..])
    {
      hide Drawn, Logical;
      DrawnView(s, Stored(), s.disp, u, terminalBuffer[..], readFlag[..]);
      DrawnDisp(s, Stored(), s.disp, u);
    }

    /** The displayed terminal before a key is handled. */
    ghost predicate Ready(t: Term)
      reads this, mem, keyboardBuffer, localBuffer, screenX, screenY, inputCount
    {
      && Layout() && t == Logical(Stored(), dispTerminal) && Bounded(t) && t.count == inputCount[dispTerminal]
      && cursor == COLS * screenY[dispTerminal] + screenX[dispTerminal]
    }

    method KeyChar(c: byte, ghost t: Term)
      requires Ready(t) && KeyOk(Char(c))
      modifies mem, screenX, screenY, keyboardBuffer, inputCount, this`cursor
      ensures Layout() && cursor == COLS * screenY[dispTerminal] + screenX[dispTerminal]
      ensures Became(old(Stored()), Pressed(t, Char(c), COLOR[dispTerminal]))
    {
      hide Drawn, Logical, Put;
      ghost var s, d := Stored(), dispTerminal;
      DrawnSame(s, d);
      if inputCount[dispTerminal] < LINE {
        SetLine(inputCount[dispTerminal], c, inputCount[dispTerminal] + 1);
        ghost var n, u := Stored(), t.(line := t.line[t.count := c], count := t.count + 1);
        DrawnLogical(s, n, d, u, d);
        Putc(c, true, dispTerminal);
        DrawnTwice(s, n, Stored(), d, u, Put(u, c, COLOR[d]));
      }
    }

    method KeyBackspace(ghost t: Term)
      requires Ready(t)
      modifies mem, screenX, screenY, keyboardBuffer, inputCount, this`cursor
      ensures Layout() && cursor == COLS * screenY[dispTerminal] + screenX[dispTerminal]
      ensures Became(old(Stored()), Pressed(t, Backspace, COLOR[dispTerminal]))
    {
      hide Drawn, Logical, SteppedBack;
      ghost var s, d := Stored(), dispTerminal;
      DrawnSame(s, d);
      if inputCount[dispTerminal] > 0 {
        SetLine(inputCount[dispTerminal] - 1, NUL, inputCount[dispTerminal] - 1);
        ghost var n, u := Stored(), t.(line := t.line[t.count - 1 := NUL], count := t.count - 1);
        DrawnLogical(s, n, d, u, d);
        StepBack();
        DrawnTwice(s, n, Stored(), d, u, SteppedBack(u, COLOR[d]));
      }
    }

    method KeyCtrlL(ghost t: Term)
      requires Ready(t)
      modifies mem, screenX, screenY, inputCount, this`cursor
      ensures Layout() && cursor == COLS * screenY[dispTerminal] + screenX[dispTerminal]
      ensures Became(old(Stored()), Pressed(t, CtrlL, COLOR[dispTerminal]))
    {
      hide Drawn, Logical;
      ghost var s, d := Stored(), dispTerminal;
      Clear();
      ghost var n, u := Stored(), Cleared(t, COLOR[d]);
      DrawnLogical(s, n, d, u, d);
      SetCount(0);
      DrawnTwice(s, n, Stored(), d, u, u.(count := 0));
    }

    // ----- Enter -----------------------------------------------------------------------

    /** The edited line goes to terminal_buffer and keyboard_buffer is cleared. */
    method HandOver(ghost t: Term)
      requires Ready(t)
      modifies keyboardBuffer, terminalBuffer, readFlag
      ensures Layout() && Became(old(Stored()), t.(line := Zeros(LINE)))
      ensures terminalBuffer[..] == Blit(old(terminalBuffer[..]), 0, Edited(t))
      ensures readFlag[..] == old(readFlag[..])[dispTerminal := true]
    {
      var count := inputCount[dispTerminal];
      ghost var s := Stored();
      DrawnSame(s, dispTerminal);
      readFlag[dispTerminal] := true;
      CopyLine(count);
      ClearLine(keyboardBuffer);
    }

    static method ClearLine(line: array<byte>)
      requires line.Length == LINE
      modifies line
      ensures line[..] == Zeros(LINE)
    {
      for i := 0 to LINE
        invariant forall j :: 0 <= j < i ==> line[j] == NUL
      {
        line[i] := NUL;
      }
    }

    method CopyLine(count: nat)
      requires Layout() && count <= LINE
      modifies keyboardBuffer, terminalBuffer
      ensures terminalBuffer[..] == Blit(old(terminalBuffer[..]), 0, old(keyboardBuffer[..count]))
    {
      ghost var before, line := terminalBuffer[..], keyboardBuffer[..count];
      if count < LINE {
        keyboardBuffer[count] := NEWLINE;
      }
      for i := 0 to count
        modifies terminalBuffer
        invariant Laid(terminalBuffer[..], before, 0, line, i)
        invariant keyboardBuffer[..count] == line
      {
        assert keyboardBuffer[i] == keyboardBuffer[..count][i];
        terminalBuffer[i] := keyboardBuffer[i];
      }
      LaidIsBlit(terminalBuffer[..], before, 0, line);
    }

    method KeyEnter(ghost t: Term)
      requires Ready(t)
      modifies mem, screenX, screenY, keyboardBuffer, terminalBuffer, inputCount, readFlag, this`cursor
      ensures Layout() && cursor == COLS * screenY[dispTerminal] + screenX[dispTerminal]
      ensures Became(old(Stored()), Pressed(t, Enter, COLOR[dispTerminal]))
      ensures terminalBuffer[..] == Blit(old(terminalBuffer[..]), 0, Edited(t))
      ensures readFlag[..] == old(readFlag[..])[dispTerminal := true]
    {
      hide Drawn, Logical, Put, Blit, Unwrapped, Edited;
      ghost var s, d := Stored(), dispTerminal;
      ghost var u := t.(line := Zeros(LINE));
      EndLine(t);
      ghost var n, v := Stored(), Unwrapped(u);
      DrawnLogical(s, n, d, v, d);
      NewLine();
      DrawnTwice(s, n, Stored(), d, v, Put(v, NEWLINE, COLOR[d]).(count := 0));
    }

    method EndLine(ghost t: Term)
      requires Ready(t)
      modifies screenY, keyboardBuffer, terminalBuffer, readFlag
      ensures Layout() && Became(old(Stored()), Unwrapped(t.(line := Zeros(LINE))))
      ensures terminalBuffer[..] == Blit(old(terminalBuffer[..]), 0, Edited(t))
      ensures readFlag[..] == old(readFlag[..])[dispTerminal := true]
    {
      hide Drawn, Logical, Blit, Unwrapped, Edited;
      ghost var s, d := Stored(), dispTerminal;
      HandOver(t);
      ghost var n, u := Stored(), t.(line := Zeros(LINE));
      DrawnLogical(s, n, d, u, d);
      UnwrapRow();
      DrawnTwice(s, n, Stored(), d, u, Unwrapped(u));
    }

    method NewLine()
      requires Layout() && OnScreen(Logical(Stored(), dispTerminal))
      modifies mem, screenX, screenY, inputCount, this`cursor
      ensures Layout() && cursor == COLS * screenY[dispTerminal] + screenX[dispTerminal]
      ensures var u := Logical(old(Stored()), dispTerminal);
              Became(old(Stored()), Put(u, NEWLINE, COLOR[dispTerminal]).(count := 0))
    {
      hide Drawn, Logical, Put;
      ghost var s, d := Stored(), dispTerminal;
      ghost var u := Put(Logical(s, d), NEWLINE, COLOR[d]);
      Putc(NEWLINE, true, dispTerminal);
      ghost var n := Stored();
      DrawnLogical(s, n, d, u, d);
      SetCount(0);
      DrawnTwice(s, n, Stored(), d, u, u.(count := 0));
    }

    /** A line that has just wrapped does not leave an empty row. */
    method UnwrapRow()
      requires Layout() && Bounded(Logical(Stored(), dispTerminal))
      modifies screenY
      ensures Layout() && Became(old(Stored()), Unwrapped(Logical(old(Stored()), dispTerminal)))
    {
      DrawnSame(Stored(), dispTerminal);
      if inputCount[dispTerminal] != 0 && screenX[dispTerminal] == 0 && screenY[dispTerminal] != COLS + 1 {
        screenY[dispTerminal] := screenY[dispTerminal] - 1;
      }
    }

    // ----- switch_terminal -------------------------------------------------------------

    method SaveLine(t: nat)
      requires Layout() && t < TERMINALS
      modifies localBuffer
      ensures localBuffer[..] == Blit(old(localBuffer[..]), LINE * t, keyboardBuffer[..])
    {
      ghost var before := localBuffer[..];
      for i := 0 to LINE
        invariant Laid(localBuffer[..], before, LINE * t, keyboardBuffer[..], i)
      {
        localBuffer[LINE * t + i] := keyboardBuffer[i];
      }
      LaidIsBlit(localBuffer[..], before, LINE * t, keyboardBuffer[..]);
    }

    method LoadLine(t: nat)
      requires Layout() && t < TERMINALS
      modifies keyboardBuffer
      ensures keyboardBuffer[..] == localBuffer[LINE * t..LINE * (t + 1)]
    {
      for i := 0 to LINE
        invariant keyboardBuffer[..i] == localBuffer[LINE * t..LINE * t + i]
      {
        keyboardBuffer[i] := localBuffer[LINE * t + i];
      }
    }

    /** The copies between the live copy and the backing buffers. */
    method SwapTerminals(next: nat)
      requires Layout() && next < TERMINALS && next != dispTerminal
      modifies mem, keyboardBuffer, localBuffer, this`dispTerminal, this`cursor
      ensures Layout() && Stored() == Switched(old(Stored()), next)
      ensures cursor == COLS * screenY[next] + screenX[next]
    {
      hide Blit;
      assert old(localBuffer[..])[LINE * next..LINE * (next + 1)] == localBuffer[LINE * next..LINE * (next + 1)];
      ghost var lines, keys := localBuffer[..], keyboardBuffer[..];
      SaveLine(dispTerminal);
      BlitSlices(lines, LINE * dispTerminal, keys, LINE * next, LINE * (next + 1));
      assert localBuffer[..][LINE * next..LINE * (next + 1)] == localBuffer[LINE * next..LINE * (next + 1)];
      LoadLine(next);
      Lib.Memcpy(mem, Paging.VideoMem(dispTerminal), mem, Paging.VIDEO, SCREEN);
      Lib.Memcpy(mem, Paging.VIDEO, mem, Paging.VideoMem(next), SCREEN);
      SetCursor(screenY[next], screenX[next]);
      dispTerminal := next;
    }

    method SwitchTerminal(next: nat)
      requires Valid() && next < TERMINALS
      modifies mem, keyboardBuffer, localBuffer, this`dispTerminal, this`cursor, mmu.videoTable
      ensures Valid() && World() == old(World()).(disp := next)
    {
      hide Switched, Logical, VideoMappedFor, Sound;
      ghost var s := Stored();
      MapVideo(next);
      if next == dispTerminal {
        return;
      }
      SwapTerminals(next);
      SwitchInvisible(s, next, 0);
      SwitchInvisible(s, next, 1);
      SwitchInvisible(s, next, 2);
      SwitchSound(World(), old(World()));
    }

    lemma SwitchSound(n: World, w: World)
      requires Sound(w) && n.disp < TERMINALS && n == w.(disp := n.disp)
      ensures Sound(n)
    {
    }

    /** The new terminal's page goes to the screen, the old one's back to its buffer. */
    method MapVideo(next: nat)
      requires Layout() && next < TERMINALS && VideoMappedFor(dispTerminal)
      modifies mmu.videoTable
      ensures VideoMappedFor(next)
    {
      mmu.VidmemAlloc(0xBA + 2 * next, 0xB_8000);
      if next != dispTerminal {
        mmu.VidmemAlloc(0xBA + 2 * dispTerminal, 0xB_A000 + 2 * 4096 * dispTerminal);
      }
    }

    // ----- the keyboard interrupt ------------------------------------------------------

    /** A key that acts on the displayed terminal. */
    method KeyHere(key: Key, ghost t: Term)
      requires Ready(t) && KeyOk(key) && !key.Switch?
      modifies mem, screenX, screenY, keyboardBuffer, terminalBuffer, inputCount, readFlag, this`cursor
      ensures Layout() && cursor == COLS * screenY[dispTerminal] + screenX[dispTerminal]
      ensures Became(old(Stored()), Pressed(t, key, COLOR[dispTerminal]))
      ensures terminalBuffer[..] == if key.Enter? then Blit(old(terminalBuffer[..]), 0, Edited(t)) else old(terminalBuffer[..])
      ensures readFlag[..] == if key.Enter? then old(readFlag[..])[dispTerminal := true] else old(readFlag[..])
    {
      hide Became, Pressed, Logical, Bounded, Blit, Edited;
      match key {
        case Char(c) => KeyChar(c, t);
        case Backspace => KeyBackspace(t);
        case CtrlL => KeyCtrlL(t);
        case Enter => KeyEnter(t);
      }
    }

    lemma KeyReady(w: World, s: Store, t: Term)
      requires Valid() && w == World() && s == Stored() && t == Logical(s, dispTerminal)
      ensures Ready(t) && w.disp == dispTerminal == s.disp && |w.terms| == TERMINALS && w.terms[w.disp] == t && Bounded(t)
      ensures w.tbuf == terminalBuffer[..] && w.ready == readFlag[..] && w == View(s, w.tbuf, w.ready)
    {
      assert w.terms[w.disp] == t;
    }

    /** What a key does to the displayed terminal it does to the world. */
    lemma KeyWorld(w: World, s: Store, t: Term, key: Key)
      requires Layout() && Sound(w) && KeyOk(key) && !key.Switch? && Shaped(s) && w == View(s, w.tbuf, w.ready)
      requires w.disp == s.disp && w.terms[w.disp] == t && Became(s, Pressed(t, key, COLOR[w.disp]))
      requires terminalBuffer[..] == if key.Enter? then Blit(w.tbuf, 0, Edited(t)) else w.tbuf
      requires readFlag[..] == if key.Enter? then w.ready[w.disp := true] else w.ready
      ensures dispTerminal == s.disp && World() == AfterKey(w, key) && Sound(World())
    {
      hide Became, Logical, Pressed, Sound, View, Blit, Bounded, Edited, AfterKey;
      SoundKey(w, key);
      AfterKeyHere(w, key);
      BecameWorld(s, Pressed(t, key, COLOR[w.disp]), w);
    }

    method EditKey(key: Key)
      requires Valid() && KeyOk(key) && !key.Switch?
      modifies mem, screenX, screenY, keyboardBuffer, terminalBuffer, inputCount, readFlag, this`cursor
      ensures Valid() && World() == AfterKey(old(World()), key)
    {
      hide Became, Logical, Pressed, Sound, World, View, Blit, Bounded, Edited, AfterKey, VideoMapped;
      ghost var w, s, t := World(), Stored(), Logical(Stored(), dispTerminal);
      KeyReady(w, s, t);
      KeyHere(key, t);
      KeyWorld(w, s, t, key);
    }

    /** printable_char_generate. */
    method KeyPress(key: Key)
      requires Valid() && KeyOk(key)
      modifies mem, screenX, screenY, keyboardBuffer, terminalBuffer, localBuffer, inputCount, readFlag
      modifies this`dispTerminal, this`cursor, mmu.videoTable
      ensures Valid() && World() == AfterKey(old(World()), key)
    {
      hide Logical, View, Sound, VideoMapped;
      if key.Switch? {
        SwitchTerminal(key.t);
      } else {
        EditKey(key);
      }
    }

    // ----- terminal_read ---------------------------------------------------------------

    /** The read call, once its terminal's flag is up (it spins until then): the pending
        line, or as much of it as was asked for, and a newline. The newline is not counted
        against `nbytes`. */
    method TerminalRead(buf: array<byte>, nbytes: int, sched: nat) returns (r: int)
      requires Valid() && sched < TERMINALS
      requires buf != mem && buf != keyboardBuffer && buf != terminalBuffer && buf != localBuffer
      requires nbytes > 0 ==> readFlag[sched] && Min(nbytes, |Pending(terminalBuffer[..])|) < buf.Length
      modifies buf, terminalBuffer, readFlag
      ensures Valid()
      ensures nbytes <= 0 ==> r == -1 && World() == old(World()) && buf[..] == old(buf[..])
      ensures nbytes > 0 ==>
                var line := Pending(old(terminalBuffer[..]));
                var n := Min(nbytes, |line|);
                && World() == AfterRead(old(World()), sched) && r == n + 1
                && readFlag[..] == old(readFlag[..])[sched := false] && terminalBuffer[..] == Zeros(LINE)
                && buf[..] == Blit(old(buf[..]), 0, line[..n] + [NEWLINE])
    {
      hide View, Sound, Blit, VideoMapped, CLength;
      if nbytes <= 0 {
        return -1;
      }
      ghost var s, w := Stored(), World();
      ViewShared(s, terminalBuffer[..], readFlag[..], terminalBuffer[..], readFlag[..]);
      var limit := if nbytes < LINE then nbytes else LINE;
      var i := TakeLine(buf, limit);
      r := i + 1;
      readFlag[sched] := false;
      ClearLine(terminalBuffer);
      assert Stored() == s;
      ViewShared(s, w.tbuf, w.ready, terminalBuffer[..], readFlag[..]);
      SoundRead(w, sched);
    }

    method TakeLine(buf: array<byte>, limit: nat) returns (i: nat)
      requires Layout() && buf != terminalBuffer && limit <= LINE
      requires Min(limit, |Pending(terminalBuffer[..])|) < buf.Length
      modifies buf
      ensures i == Min(limit, |Pending(terminalBuffer[..])|)
      ensures buf[..] == Blit(old(buf[..]), 0, Pending(terminalBuffer[..])[..i] + [NEWLINE])
    {
      ghost var before, line := buf[..], Pending(terminalBuffer[..]);
      ghost var n := Min(limit, |line|);
      ghost var taken := line[..n] + [NEWLINE];
      i := 0;
      while i < limit
        invariant 0 <= i <= n
        invariant Laid(buf[..], before, 0, taken, i)
      {
        assert i < |line| ==> terminalBuffer[i] == line[i];
        if terminalBuffer[i] == NUL {
          break;
        }
        assert i < |line|;
        buf[i] := terminalBuffer[i];
        i := i + 1;
      }
      assert i == n;
      buf[i] := NEWLINE;
      LaidIsBlit(buf[..], before, 0, taken);
    }

    // ----- sys_vidmap ------------------------------------------------------------------

    /** The page handed to a program maps to the memory that holds its terminal's screen,
        displayed or not. */
    method SysVidmap(screenStart: nat, sched: nat) returns (r: int, addr: nat)
      requires Valid() && sched < TERMINALS
      ensures r == if 0x0800_0000 <= screenStart < 0x0800_0000 + MB4 then 0 else -1
      ensures r == 0 ==> forall lin :: addr <= lin < addr + KB4 && lin < TWO32 ==>
                           mmu.Translate(lin) == Some(ScreenBase(dispTerminal, sched) + (lin - addr))
      ensures r == 0 ==> addr + KB4 <= TWO32
      ensures World().terms[sched].cells == mem[ScreenBase(dispTerminal, sched)..ScreenBase(dispTerminal, sched) + SCREEN]
    {
      if screenStart < 0x0800_0000 || screenStart >= 0x0800_0000 + MB4 {
        return -1, 0;
      }
      if sched == 0 {
        addr := 0x084b_a000;
      } else if sched == 1 {
        addr := 0x084b_c000;
      } else {
        addr := 0x084b_e000;
      }
      r := 0;
      forall lin | addr <= lin < addr + KB4
        ensures mmu.Translate(lin) == Some(ScreenBase(dispTerminal, sched) + (lin - addr))
      {
        VideoPage(sched, lin);
      }
    }

    lemma VideoPage(t: nat, lin: nat)
      requires Layout() && VideoMapped() && t < TERMINALS && lin / KB4 == 0x84BA + 2 * t && lin < TWO32
      ensures mmu.Translate(lin) == Some(ScreenBase(dispTerminal, t) + lin % KB4)
    {
    }

    // ----- whole runs ------------------------------------------------------------------

    method Handle(e: Event)
      requires Valid() && EventOk(e) && (e.Read? ==> World().ready[e.sched])
      modifies mem, screenX, screenY, keyboardBuffer, terminalBuffer, localBuffer, inputCount, readFlag
      modifies this`dispTerminal, this`cursor, mmu.videoTable
      ensures Valid() && World() == Step(old(World()), e)
    {
      hide View, Sound, VideoMapped, AfterKey, AfterRead;
      match e {
        case Press(key) => KeyPress(key);
        case Write(sched, bytes) =>
          assert bytes[..|bytes|] == bytes;
          WriteNothing(World(), sched);
          var written := TerminalWrite(Some(bytes), |bytes|, sched);
        case Read(sched) =>
          ViewShared(Stored(), terminalBuffer[..], readFlag[..], terminalBuffer[..], readFlag[..]);
          // Room for a whole line.
          var buf := new byte[LINE + 1](_ => NUL);
          var r := TerminalRead(buf, LINE + 1, sched);
      }
    }

    /** Any run of keys, program output and reads follows the logical terminals. */
    method Drive(es: seq<Event>)
      requires Valid() && (forall e :: e in es ==> EventOk(e)) && ReadsReady(World(), es)
      modifies mem, screenX, screenY, keyboardBuffer, terminalBuffer, localBuffer, inputCount, readFlag
      modifies this`dispTerminal, this`cursor, mmu.videoTable
      ensures Valid() && World() == Run(old(World()), es)
      decreases |es|
    {
      hide View, Sound, VideoMapped, Step;
      if es != [] {
        ghost var w := World();
        Handle(es[0]);
        assert World() == Step(w, es[0]);
        Drive(es[1..]);
      }
    }

    /** From the keyboard to a program: what is typed on a terminal, in whatever company, and
        then entered, fills the buffer of its next read as edited, followed by a newline,
        and leaves terminal_buffer empty. */
    method Deliver(es: seq<Event>, rest: seq<Event>, buf: array<byte>, nbytes: int, ghost line: seq<byte>)
      returns (r: int)
      requires Valid() && (forall e :: e in es ==> EventOk(e)) && (forall e :: e in rest ==> EventOk(e))
      requires ReadsReady(World(), es) && NoEnter(rest) && NoRead(rest)
      requires var d := Run(World(), es).disp;
               && NUL !in Edited(World().terms[d]) && line == TypedLine(World(), es, d, Edited(World().terms[d]))
      requires (|line| < LINE ==> Run(World(), es).tbuf[|line|] == NUL) && |line| < nbytes <= buf.Length
      requires buf != mem && buf != keyboardBuffer && buf != terminalBuffer && buf != localBuffer
      modifies mem, screenX, screenY, keyboardBuffer, terminalBuffer, localBuffer, inputCount, readFlag
      modifies this`dispTerminal, this`cursor, mmu.videoTable, buf
      ensures Valid() && World().tbuf == Zeros(LINE)
      ensures r == |line| + 1 && buf[..] == Blit(old(buf[..]), 0, line + [NEWLINE])
    {
      hide View, Sound, VideoMapped, Step, Run, TypedLine, Blit;
      LineDelivery(World(), es, rest);
      Drive(es);
      var d := dispTerminal;
      ViewShared(Stored(), terminalBuffer[..], readFlag[..], terminalBuffer[..], readFlag[..]);
      Handle(Press(Enter));
      NothingRead(World(), rest);
      Drive(rest);
      ViewShared(Stored(), terminalBuffer[..], readFlag[..], terminalBuffer[..], readFlag[..]);
      assert readFlag[..][d] && line[..|line|] == line;
      r := TerminalRead(buf, nbytes, d);
    }
  }
}
