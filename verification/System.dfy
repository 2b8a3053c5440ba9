/** The kernel and its terminals together: the scheduler decides whose output the terminals
    receive, the keyboard decides which terminal is displayed, and both sides write to the
    same page tables. */
module System {
  import opened Bytes
  import opened Platform
  import M = Machine
  import T = Terminals
  import Pages
  import Screen
  import Storage
  import KernelState
  import Paging
  import Kernel
  import Console

  datatype State = State(machine: M.Machine, world: T.World)

  datatype Event = Tick(ctx: M.Context) | Execute(ctx: M.Context, cmd: KernelState.Command) | Halt(ctx: M.Context)
                 | Press(key: Screen.Key) | Write(bytes: seq<byte>) | Read

  ghost predicate Good(s: State) { M.WellFormed(s.machine) && T.Sound(s.world) }

  /** What a process event means for the scheduler, if anything. */
  function Process(e: Event): Option<M.Event> {
    match e
    case Tick(ctx) => Some(M.Tick(ctx))
    case Execute(ctx, cmd) => Some(M.Execute(ctx, cmd.Executable?))
    case Halt(ctx) => Some(M.Halt(ctx))
    case _ => None
  }

  /** What an event means for the terminals, if anything. The running program is that of
      the scheduled terminal, but sys_execute prints on the displayed one. */
  ghost function Terminal(s: State, e: Event): Option<T.Event> {
    match e
    case Press(key) => Some(T.Press(key))
    case Write(bytes) => Some(T.Write(s.machine.scheduled, bytes))
    case Read => Some(T.Read(s.machine.scheduled))
    case Execute(_, cmd) =>
      var message := KernelState.Said(cmd, M.Free(s.machine).None?);
      if message == [] then None else Some(T.Write(s.world.disp, message))
    case _ => None
  }

  /** Contexts lie on the running process's stack, typed characters are printable, and a
      read finds a line. */
  ghost predicate Legal(s: State, e: Event)
    requires Good(s)
  {
    && (Process(e).Some? ==> M.Legal(s.machine, Process(e).value))
    && (e.Press? ==> Screen.KeyOk(e.key))
    && (e.Read? ==> s.world.ready[s.machine.scheduled])
  }

  /** A program is started while its terminal is not displayed. */
  ghost predicate Background(s: State, e: Event) {
    e.Execute? && e.cmd.Executable? && M.Free(s.machine).Some? && s.world.disp != s.machine.scheduled
  }

  ghost predicate EventOk(s: State, e: Event)
    requires Good(s)
  {
    Legal(s, e) && !Background(s, e)
  }

  ghost function Step(s: State, e: Event): (n: State)
    requires Good(s) && EventOk(s, e)
    ensures Good(n)
  {
    var p, t := Process(e), Terminal(s, e);
    State(if p.Some? then M.Step(s.machine, p.value) else s.machine,
          if t.Some? then T.Step(s.world, t.value) else s.world)
  }

  ghost predicate AllOk(s: State, es: seq<Event>)
    requires Good(s)
    decreases |es|
  {
    es == [] || (EventOk(s, es[0]) && AllOk(Step(s, es[0]), es[1..]))
  }

  /** Legal up to the first program that is started in the background. */
  ghost predicate AllLegal(s: State, es: seq<Event>)
    requires Good(s)
    decreases |es|
  {
    es == [] || (Legal(s, es[0]) && (Background(s, es[0]) || AllLegal(Step(s, es[0]), es[1..])))
  }

  ghost function Run(s: State, es: seq<Event>): (n: State)
    requires Good(s) && AllOk(s, es)
    ensures Good(n)
    decreases |es|
  {
    if es == [] then s else Run(Step(s, es[0]), es[1..])
  }

  // ----- the two sides of a run ------------------------------------------------------

  function Processes(es: seq<Event>): seq<M.Event> {
    if es == [] then []
    else (if Process(es[0]).Some? then [Process(es[0]).value] else []) + Processes(es[1..])
  }

  /** The terminals' share of a run: keys, the accesses of the programs scheduled by then,
      and what sys_execute prints. */
  ghost function Accesses(s: State, es: seq<Event>): (a: seq<T.Event>)
    requires Good(s) && AllOk(s, es)
    ensures forall e :: e in a ==> T.EventOk(e)
    decreases |es|
  {
    if es == [] then []
    else (if Terminal(s, es[0]).Some? then [Terminal(s, es[0]).value] else []) + Accesses(Step(s, es[0]), es[1..])
  }

  /** Typing and output never reach the process state: its laws hold with them mixed in. */
  lemma {:induction false} MachineSide(s: State, es: seq<Event>)
    requires Good(s) && AllOk(s, es)
    ensures M.AllLegal(s.machine, Processes(es)) && Run(s, es).machine == M.Run(s.machine, Processes(es))
    decreases |es|
  {
    if es != [] {
      MachineSide(Step(s, es[0]), es[1..]);
      if Process(es[0]).Some? {
        assert Processes(es)[0] == Process(es[0]).value && Processes(es)[1..] == Processes(es[1..]);
      } else {
        assert Processes(es) == Processes(es[1..]);
      }
    }
  }

  /** Suspended processes resume on their own stacks throughout. */
  lemma RunPlaced(s: State, es: seq<Event>)
    requires Good(s) && AllOk(s, es) && M.Placed(s.machine)
    ensures M.Placed(Run(s, es).machine)
  {
    MachineSide(s, es);
    M.RunKeeps(s.machine, Processes(es));
  }

  /** The process side reaches the terminals only by deciding whose accesses come next and
      through the messages of sys_execute. */
  lemma {:induction false} TerminalSide(s: State, es: seq<Event>)
    requires Good(s) && AllOk(s, es)
    ensures T.ReadsReady(s.world, Accesses(s, es))
    ensures Run(s, es).world == T.Run(s.world, Accesses(s, es))
    decreases |es|
  {
    if es != [] {
      var rest := Accesses(Step(s, es[0]), es[1..]);
      TerminalSide(Step(s, es[0]), es[1..]);
      var t := Terminal(s, es[0]);
      if t.Some? {
        assert Accesses(s, es) == [t.value] + rest;
        assert ([t.value] + rest)[1..] == rest;
      } else {
        assert Accesses(s, es) == rest;
      }
    }
  }

  /** Echo survives any mixed run in which output, the messages included, goes to terminals
      with no line under edit. */
  lemma EchoKept(s: State, es: seq<Event>)
    requires Good(s) && AllOk(s, es) && T.AllEcho(s.world) && T.Quiet(s.world, Accesses(s, es))
    ensures T.AllEcho(Run(s, es).world)
  {
    TerminalSide(s, es);
    T.EchoAgreement(s.world, Accesses(s, es));
  }

  /** A message does hide a line under edit, though the user at the displayed terminal need
      not be the one whose command failed. */
  lemma MessageHidesLine(s: State, e: Event, canvas: seq<byte>)
    requires Good(s) && EventOk(s, e) && e.Execute? && KernelState.Said(e.cmd, M.Free(s.machine).None?) != []
    requires var t := s.world.terms[s.world.disp];
             Screen.Shows(t, canvas) && t.count > 0 && Screen.Blank(t.line[t.count - 1]) != SPACE
    ensures !T.AllEcho(Step(s, e).world)
  {
    var message := KernelState.Said(e.cmd, M.Free(s.machine).None?);
    KernelState.SaidText(e.cmd, M.Free(s.machine).None?);
    T.OutputHidesLine(s.world, s.world.disp, canvas, message);
    assert Terminal(s, e) == Some(T.Write(s.world.disp, message));
  }

  // ----- what the users see ----------------------------------------------------------

  /** Terminal t from its user's point of view: its page, and whether a read would go on. */
  datatype Seat = Seat(page: Pages.Page, ready: bool)

  ghost predicate Sees(w: T.World, t: nat, seat: Seat)
    requires T.Sound(w) && t < TERMINALS
  {
    Pages.Pictures(w.terms[t], seat.page) && w.ready[t] == seat.ready
  }

  function DisplayedAfter(disp: nat, e: Event): nat {
    if e.Press? && e.key.Switch? then e.key.t else disp
  }

  ghost function MachineAfter(m: M.Machine, e: Event): (n: M.Machine)
    requires M.WellFormed(m)
    ensures M.WellFormed(n)
  {
    match e
    case Tick(ctx) => M.Step(m, M.Tick(ctx))
    case Execute(ctx, cmd) => M.Step(m, M.Execute(ctx, cmd == KernelState.Executable))
    case Halt(ctx) => M.Step(m, M.Halt(ctx))
    case _ => m
  }

  /** Keys and the messages of sys_execute go to the displayed terminal; a program's output
      goes to the scheduled one, displayed or not, and a read is that terminal's. */
  ghost function SeatNext(seat: Seat, t: nat, m: M.Machine, disp: nat, e: Event): Seat {
    match e
    case Press(key) =>
      if disp != t then seat else Seat(Pages.Keyed(seat.page, key), seat.ready || key == Screen.Enter)
    case Write(bytes) => if m.scheduled != t then seat else seat.(page := Pages.Printed(seat.page, bytes))
    case Read => if m.scheduled != t then seat else seat.(ready := false)
    case Execute(_, cmd) =>
      var message := KernelState.Said(cmd, M.Free(m).None?);
      if disp != t || message == [] then seat else seat.(page := Pages.Printed(seat.page, message))
    case _ => seat
  }

  ghost function SeatAfter(seat: Seat, t: nat, m: M.Machine, disp: nat, es: seq<Event>): Seat
    requires M.WellFormed(m)
    decreases |es|
  {
    if es == [] then seat
    else SeatAfter(SeatNext(seat, t, m, disp, es[0]), t, MachineAfter(m, es[0]), DisplayedAfter(disp, es[0]), es[1..])
  }

  lemma StepSides(s: State, e: Event)
    requires Good(s) && EventOk(s, e)
    ensures Step(s, e).machine == MachineAfter(s.machine, e) && Step(s, e).world.disp == DisplayedAfter(s.world.disp, e)
  {
    hide M.Step, KernelState.Said;
  }

  lemma StepSeat(s: State, e: Event, t: nat, seat: Seat)
    requires Good(s) && EventOk(s, e) && t < TERMINALS && Sees(s.world, t, seat)
    ensures Sees(Step(s, e).world, t, SeatNext(seat, t, s.machine, s.world.disp, e))
  {
    hide M.Step, KernelState.Said, Pages.Pictures, Pages.Keyed, Pages.Printed;
    if Terminal(s, e).Some? {
      var a := Terminal(s, e).value;
      Pages.StepPage(s.world, a, t, seat.page);
      StepReady(s.world, a, t);
      Pages.NotTyped(s.world.terms[t], seat.page, if e.Press? then e.key else Screen.Enter, Screen.COLOR[t]);
    }
  }

  lemma StepReady(w: T.World, a: T.Event, t: nat)
    requires T.Sound(w) && T.EventOk(a) && t < TERMINALS
    ensures T.Step(w, a).ready[t] ==
            if a == T.Press(Screen.Enter) && w.disp == t then true else if a == T.Read(t) then false else w.ready[t]
  {
  }

  /** After any run every user sees what the events mean for his terminal. */
  lemma {:induction false} RunSeat(s: State, es: seq<Event>, t: nat, seat: Seat)
    requires Good(s) && AllOk(s, es) && t < TERMINALS && Sees(s.world, t, seat)
    ensures Sees(Run(s, es).world, t, SeatAfter(seat, t, s.machine, s.world.disp, es))
    decreases |es|
  {
    hide Sees, SeatNext, Step, EventOk, MachineAfter, DisplayedAfter;
    if es != [] {
      StepSides(s, es[0]);
      StepSeat(s, es[0], t, seat);
      RunSeat(Step(s, es[0]), es[1..], t, SeatNext(seat, t, s.machine, s.world.disp, es[0]));
    }
  }

  /** A program's output extends what its own terminal shows, whichever one is displayed,
      and reaches no other terminal. */
  lemma OutputShown(s: State, bytes: seq<byte>, canvas: seq<byte>)
    requires Good(s) && EventOk(s, Write(bytes)) && Screen.Shows(s.world.terms[s.machine.scheduled], canvas)
    ensures var n, t := Step(s, Write(bytes)), s.machine.scheduled;
            && n.machine == s.machine
            && n.world == s.world.(terms := s.world.terms[t := n.world.terms[t]])
            && Screen.Shows(n.world.terms[t], Screen.ExtendedBy(canvas, Screen.Visible(bytes)))
  {
    hide Screen.Shows, Screen.ExtendedBy, Screen.PutAll;
    var t := s.machine.scheduled;
    Screen.ShowsOn(s.world.terms[t], canvas, Screen.Visible(bytes), Screen.COLOR[t]);
  }

  /** Terminal t is neither displayed nor scheduled, in any state of the run. */
  ghost predicate Offstage(t: nat, m: M.Machine, disp: nat, es: seq<Event>)
    requires M.WellFormed(m)
    decreases |es|
  {
    && disp != t && m.scheduled != t
    && (es == [] || Offstage(t, MachineAfter(m, es[0]), DisplayedAfter(disp, es[0]), es[1..]))
  }

  lemma {:induction false} OffstageKept(s: State, es: seq<Event>, t: nat)
    requires Good(s) && AllOk(s, es) && t < TERMINALS && Offstage(t, s.machine, s.world.disp, es)
    ensures Run(s, es).world.terms[t] == s.world.terms[t] && Run(s, es).world.ready[t] == s.world.ready[t]
    decreases |es|
  {
    hide Step, EventOk, MachineAfter, DisplayedAfter;
    if es != [] {
      StepSides(s, es[0]);
      StepOffstage(s, es[0], t);
      OffstageKept(Step(s, es[0]), es[1..], t);
    }
  }

  lemma StepOffstage(s: State, e: Event, t: nat)
    requires Good(s) && EventOk(s, e) && t < TERMINALS && s.world.disp != t && s.machine.scheduled != t
    ensures Step(s, e).world.terms[t] == s.world.terms[t] && Step(s, e).world.ready[t] == s.world.ready[t]
  {
    hide M.Step, KernelState.Said;
  }

  // ----- the address space -----------------------------------------------------------

  /** Where the page walk must lead while a process with user page `user` runs and terminal
      `disp` is displayed: the kernel's memory as at boot, the user page, every terminal's
      video page to its screen, and nothing else. */
  function RunningMap(user: nat, disp: nat, lin: nat): Option<nat> {
    if KB4 <= lin < 2 * MB4 || 50 * MB4 <= lin < 60 * MB4 then Some(lin)
    else if lin / MB4 == Paging.USER_SLOT then Some(user + lin % MB4)
    else if lin / KB4 == 0x84BA then Some((if disp == 0 then 0xB_8000 else 0xB_A000) + lin % KB4)
    else if lin / KB4 == 0x84BC then Some((if disp == 1 then 0xB_8000 else 0xB_C000) + lin % KB4)
    else if lin / KB4 == 0x84BE then Some((if disp == 2 then 0xB_8000 else 0xB_E000) + lin % KB4)
    else None
  }

  /** What the three tables hold then. */
  ghost predicate RunningTables(dir: seq<Paging.Entry>, low: seq<Paging.Entry>, video: seq<Paging.Entry>,
                                lowFrame: nat, videoFrame: nat, user: nat, disp: nat)
  {
    && Paging.KernelTables(dir, low, lowFrame, videoFrame) && |video| == Paging.ENTRIES && lowFrame != videoFrame
    && dir[Paging.USER_SLOT] == Paging.Entry(true, true, true, true, user / KB4) && user % MB4 == 0
    && (forall t :: 0 <= t < TERMINALS ==>
          video[Paging.VideoIdx(t)] == Paging.Entry(true, true, true, false, Storage.ScreenBase(disp, t) / KB4))
    && (forall i :: 0 <= i < Paging.ENTRIES && i !in {0xBA, 0xBC, 0xBE} ==> video[i] == Paging.CLEAR)
  }

  lemma RunningTranslation(dir: seq<Paging.Entry>, low: seq<Paging.Entry>, video: seq<Paging.Entry>,
                           lowFrame: nat, videoFrame: nat, user: nat, disp: nat, lin: nat)
    requires RunningTables(dir, low, video, lowFrame, videoFrame, user, disp) && lin < TWO32
    ensures Paging.Walk(dir, map[lowFrame := low, videoFrame := video], lin) == RunningMap(user, disp, lin)
  {
    hide RunningTables, RunningMap, Paging.Walk;
    if lin / MB4 == Paging.VIDEO_SLOT {
      VideoTranslation(dir, low, video, lowFrame, videoFrame, user, disp, lin);
    } else if lin < MB4 {
      LowTranslation(dir, low, video, lowFrame, videoFrame, user, disp, lin);
    } else {
      LargeTranslation(dir, low, video, lowFrame, videoFrame, user, disp, lin);
    }
  }

  lemma LowTranslation(dir: seq<Paging.Entry>, low: seq<Paging.Entry>, video: seq<Paging.Entry>,
                       lowFrame: nat, videoFrame: nat, user: nat, disp: nat, lin: nat)
    requires RunningTables(dir, low, video, lowFrame, videoFrame, user, disp) && lin < MB4
    ensures Paging.Walk(dir, map[lowFrame := low, videoFrame := video], lin) == RunningMap(user, disp, lin)
  {
    hide Storage.ScreenBase;
  }

  /** Slots of the directory that map 4 MB pages, or nothing. */
  lemma LargeTranslation(dir: seq<Paging.Entry>, low: seq<Paging.Entry>, video: seq<Paging.Entry>,
                         lowFrame: nat, videoFrame: nat, user: nat, disp: nat, lin: nat)
    requires RunningTables(dir, low, video, lowFrame, videoFrame, user, disp) && lin < TWO32
    requires lin / MB4 != 0 && lin / MB4 != Paging.VIDEO_SLOT
    ensures Paging.Walk(dir, map[lowFrame := low, videoFrame := video], lin) == RunningMap(user, disp, lin)
  {
    hide Storage.ScreenBase, Paging.VideoIdx;
    var slot := lin / MB4;
    LargePage(user, slot, lin);
    assert dir[slot].present <==> slot == 1 || slot == Paging.USER_SLOT || 50 <= slot < 60;
    assert dir[slot].present ==> dir[slot].pageSize;
  }

  lemma LargePage(user: nat, slot: nat, lin: nat)
    requires user % MB4 == 0 && slot == lin / MB4
    ensures user / KB4 / Paging.ENTRIES * MB4 == user
    ensures slot * Paging.ENTRIES / Paging.ENTRIES * MB4 + lin % MB4 == lin
    ensures slot != Paging.VIDEO_SLOT ==> lin / KB4 < 0x8400 || lin / KB4 >= 0x8800
  {
    Frames(user / MB4);
    assert user == MB4 * (user / MB4);
    SmallPages(lin);
  }

  lemma Frames(n: nat)
    ensures MB4 * n / KB4 == Paging.ENTRIES * n && Paging.ENTRIES * n / Paging.ENTRIES == n
  {
  }

  lemma SmallPages(lin: nat)
    ensures Paging.ENTRIES * (lin / MB4) <= lin / KB4 < Paging.ENTRIES * (lin / MB4 + 1)
  {
  }

  lemma VideoTranslation(dir: seq<Paging.Entry>, low: seq<Paging.Entry>, video: seq<Paging.Entry>,
                         lowFrame: nat, videoFrame: nat, user: nat, disp: nat, lin: nat)
    requires RunningTables(dir, low, video, lowFrame, videoFrame, user, disp) && lin < TWO32
    requires lin / MB4 == Paging.VIDEO_SLOT
    ensures Paging.Walk(dir, map[lowFrame := low, videoFrame := video], lin) == RunningMap(user, disp, lin)
  {
    hide Storage.ScreenBase;
    var page := lin / KB4 % Paging.ENTRIES;
    VideoEntry(video, disp, page);
    assert lin / KB4 == 0x8400 + page;
  }

  lemma VideoEntry(video: seq<Paging.Entry>, disp: nat, i: nat)
    requires |video| == Paging.ENTRIES && i < Paging.ENTRIES
    requires forall t :: 0 <= t < TERMINALS ==>
               video[Paging.VideoIdx(t)] == Paging.Entry(true, true, true, false, Storage.ScreenBase(disp, t) / KB4)
    requires forall i :: 0 <= i < Paging.ENTRIES && i !in {0xBA, 0xBC, 0xBE} ==> video[i] == Paging.CLEAR
    ensures if i == 0xBA || i == 0xBC || i == 0xBE
            then video[i].present && video[i].frame * KB4 == if disp == (i - 0xBA) / 2 then 0xB_8000 else KB4 * i
            else !video[i].present
  {
    assert Paging.VideoIdx(0) == 0xBA && Paging.VideoIdx(1) == 0xBC && Paging.VideoIdx(2) == 0xBE;
  }

  // ----- the running system ----------------------------------------------------------

  class System {
    const mmu: Paging.Mmu
    const kernel: Kernel.Kernel
    const console: Console.Console

    ghost predicate Apart()
    {
      && kernel.mmu == mmu == console.mmu && mmu.Valid()
      && {kernel, kernel.flag, kernel.pcb, kernel.terminals, mmu.pageDir}
         !! {console, console.mem, console.keyboardBuffer, console.terminalBuffer, console.localBuffer,
             console.screenX, console.screenY, console.inputCount, console.readFlag, mmu.videoTable}
      && {mmu.pageDir, mmu.lowTable, mmu.videoTable}
         !! {console, console.mem, console.keyboardBuffer, console.terminalBuffer, console.localBuffer,
             console.screenX, console.screenY, console.inputCount, console.readFlag,
             kernel, kernel.flag, kernel.pcb, kernel.terminals}
    }

    ghost function Repr(): set<object> {
      kernel.Repr() + {console, console.mem, console.keyboardBuffer, console.terminalBuffer, console.localBuffer,
                       console.screenX, console.screenY, console.inputCount, console.readFlag, mmu.videoTable}
    }

    ghost predicate Valid()
      reads Repr(), mmu.lowTable
    {
      && Apart() && kernel.Valid() && console.Valid()
      && Paging.KernelTables(mmu.pageDir[..], mmu.lowTable[..], mmu.lowFrame, mmu.videoFrame)
    }

    ghost function Now(): (s: State)
      requires Valid()
      reads Repr(), mmu.lowTable
      ensures Good(s)
    {
      RefinesGood();
      State(kernel.machine, console.World())
    }

    lemma RefinesGood()
      requires Valid()
      ensures M.WellFormed(kernel.machine) && kernel.scheduledTerminal == kernel.machine.scheduled < TERMINALS
      ensures kernel.currentPid == M.Current(kernel.machine)
    {
    }

    /** The whole address space at any time: the trap stack is the running process's, and
        translation follows the running process and the displayed terminal. */
    lemma AddressSpace(lin: nat)
      requires Valid() && lin < TWO32
      ensures kernel.esp0 == M.StackTop(M.Current(kernel.machine))
      ensures mmu.Translate(lin) == RunningMap(0x80_0000 + 0x40_0000 * M.Current(kernel.machine), console.dispTerminal, lin)
    {
      hide KernelState.Refines, M.Current, T.Sound;
      RefinesGood();
      kernel.UserPageMapped();
      RunningTranslation(mmu.pageDir[..], mmu.lowTable[..], mmu.videoTable[..], mmu.lowFrame, mmu.videoFrame,
                         M.UserPage(M.Current(kernel.machine)), console.dispTerminal, lin);
    }

    constructor (kernel: Kernel.Kernel, console: Console.Console)
      ensures this.kernel == kernel && this.console == console && mmu == console.mmu
    {
      this.mmu, this.kernel, this.console := console.mmu, kernel, console;
    }

    /** Boot: page tables, terminals, first shell. */
    static method Boot(mem: array<byte>, lowFrame: nat, videoFrame: nat, bootCtx: M.Context) returns (sys: System)
      requires mem.Length >= Storage.MEMORY && lowFrame != videoFrame
      modifies mem
      ensures sys.Valid() && sys.Now().machine == M.BOOT
      ensures sys.Now().world.disp == 0 && sys.Now().world.tbuf == Zeros(Screen.LINE)
      ensures Screen.ShowsFrom(sys.Now().world.terms[0], [], 0)
      ensures forall t :: 0 <= t < TERMINALS ==> sys.Now().world.terms[t].count == 0
    {
      hide KernelState.Refines, T.Sound, Console.Console.World, Console.Console.Valid, Kernel.Kernel.Valid, Paging.KernelTables;
      var c := BootConsole(mem, lowFrame, videoFrame);
      ghost var dir, low := c.mmu.pageDir[..], c.mmu.lowTable[..];
      label Booted:
      var k := new Kernel.Kernel(c.mmu, bootCtx);
      c.PagesKept@Booted();
      assert c.mmu.lowTable[..] == low;
      Paging.UserSlotFree(dir, low, lowFrame, videoFrame, c.mmu.pageDir[Paging.USER_SLOT]);
      sys := new System(k, c);
    }

    static method BootConsole(mem: array<byte>, lowFrame: nat, videoFrame: nat) returns (c: Console.Console)
      requires mem.Length >= Storage.MEMORY && lowFrame != videoFrame
      modifies mem
      ensures c.mem == mem && fresh(c) && fresh(c.keyboardBuffer) && fresh(c.terminalBuffer) && fresh(c.localBuffer)
      ensures fresh(c.screenX) && fresh(c.screenY) && fresh(c.inputCount) && fresh(c.readFlag)
      ensures fresh(c.mmu) && fresh(c.mmu.pageDir) && fresh(c.mmu.lowTable) && fresh(c.mmu.videoTable)
      ensures Paging.KernelTables(c.mmu.pageDir[..], c.mmu.lowTable[..], c.mmu.lowFrame, c.mmu.videoFrame)
      ensures c.mmu.lowFrame == lowFrame && c.mmu.videoFrame == videoFrame
      ensures c.Valid() && c.mmu.Valid() && c.World().disp == 0 && c.World().tbuf == Zeros(Screen.LINE)
      ensures Screen.ShowsFrom(c.World().terms[0], [], 0)
      ensures forall t :: 0 <= t < TERMINALS ==> c.World().terms[t].count == 0
    {
      hide T.Sound, Console.Console.World, Console.Console.Valid, Paging.BootTables, Paging.BootMap, Screen.ShowsFrom;
      var pages := new Paging.Mmu(lowFrame, videoFrame);
      pages.PagingInit();
      c := new Console.Console(mem, pages);
      c.TerminalInit();
    }

    /** One event. `inFront` is false exactly if a program was started in the background:
        after that the kernel's variables encode no process stacks. */
    method Handle(e: Event) returns (inFront: bool)
      requires Valid() && Legal(Now(), e)
      modifies Repr()
      ensures inFront <==> !Background(old(Now()), e)
      ensures inFront ==> Valid() && Now() == Step(old(Now()), e)
      ensures !inFront ==> kernel.Layout() && forall n :: !KernelState.Refines(kernel.State(), n)
    {
      hide KernelState.Refines, KernelState.Said, M.Step, T.Step, T.Sound, M.WellFormed, M.Legal, M.Free;
      hide Kernel.Kernel.Valid, Console.Console.Valid, Console.Console.World, Paging.KernelTables;
      RefinesGood();
      inFront := true;
      match e {
        case Press(key) => HandleTerminal(T.Press(key));
        case Write(bytes) => HandleTerminal(T.Write(kernel.scheduledTerminal, bytes));
        case Read => HandleTerminal(T.Read(kernel.scheduledTerminal));
        case Tick(ctx) => HandleSwitch(M.Tick(ctx));
        case Halt(ctx) => HandleSwitch(M.Halt(ctx));
        case Execute(ctx, cmd) =>
          var message;
          inFront, message := HandleExecute(ctx, cmd);
          if message != [] {
            Puts(message);
          }
      }
    }

    /** A step of the scheduler leaves the terminals and their video pages alone. */
    method HandleSwitch(e: M.Event)
      requires Valid() && !e.Execute? && M.Legal(kernel.machine, e)
      modifies kernel.Repr()
      ensures Valid() && kernel.machine == M.Step(old(kernel.machine), e) && console.World() == old(console.World())
    {
      hide KernelState.Refines, M.Step, M.Legal, T.Sound, Kernel.Kernel.Valid, M.WellFormed;
      hide Console.Console.World, Console.Console.Valid, Paging.KernelTables;
      RefinesGood();
      kernel.OnStack(e);
      ghost var dir, low := mmu.pageDir[..], mmu.lowTable[..];
      match e {
        case Tick(ctx) => kernel.Schedule(ctx);
        case Halt(ctx) => kernel.Halt(ctx);
      }
      console.PagesKept();
      assert mmu.lowTable[..] == low;
      Paging.UserSlotFree(dir, low, mmu.lowFrame, mmu.videoFrame, mmu.pageDir[Paging.USER_SLOT]);
    }

    method HandleExecute(ctx: M.Context, cmd: KernelState.Command) returns (inFront: bool, message: seq<byte>)
      requires Valid() && M.Legal(kernel.machine, M.Execute(ctx, cmd.Executable?))
      modifies kernel.Repr()
      ensures message == KernelState.Said(cmd, M.Free(old(kernel.machine)).None?) && NUL !in message
      ensures inFront <==> !Background(old(Now()), Execute(ctx, cmd))
      ensures inFront ==> Valid() && kernel.machine == M.Step(old(kernel.machine), M.Execute(ctx, cmd.Executable?))
      ensures inFront ==> console.World() == old(console.World())
      ensures !inFront ==> message == [] && kernel.Layout() && forall n :: !KernelState.Refines(kernel.State(), n)
    {
      hide KernelState.Refines, KernelState.Executed, KernelState.Said, M.Step, M.Legal, M.Free, M.WellFormed, T.Sound;
      hide Kernel.Kernel.Valid, Console.Console.World, Console.Console.Valid, Paging.KernelTables;
      RefinesGood();
      kernel.OnStack(M.Execute(ctx, cmd.Executable?));
      console.DisplayedIs();
      KernelState.SaidText(cmd, M.Free(kernel.machine).None?);
      ghost var dir, low := mmu.pageDir[..], mmu.lowTable[..];
      var r;
      r, message := kernel.Execute(ctx, cmd, console.dispTerminal);
      inFront := r.Some? || console.dispTerminal == kernel.scheduledTerminal;
      console.PagesKept();
      assert mmu.lowTable[..] == low;
      Paging.UserSlotFree(dir, low, mmu.lowFrame, mmu.videoFrame, mmu.pageDir[Paging.USER_SLOT]);
    }

    /** What sys_execute prints. */
    method Puts(message: seq<byte>)
      requires Valid() && NUL !in message
      modifies Repr() - kernel.Repr()
      ensures Valid() && kernel.machine == old(kernel.machine)
      ensures old(console.World()).disp < TERMINALS
      ensures console.World() == T.Step(old(console.World()), T.Write(old(console.World()).disp, message))
    {
      hide KernelState.Refines, Console.Console.Valid, Console.Console.World, T.AfterWrite, T.Sound;
      console.DisplayedIs();
      console.Puts(message);
    }

    /** Typing and output leave the processes and the user page alone. */
    method HandleTerminal(e: T.Event)
      requires Valid() && T.EventOk(e) && (e.Read? ==> console.World().ready[e.sched])
      modifies Repr() - kernel.Repr()
      ensures Valid() && kernel.machine == old(kernel.machine) && console.World() == T.Step(old(console.World()), e)
    {
      hide KernelState.Refines, Console.Console.Valid, Console.Console.World, T.Step, T.Sound;
      console.Handle(e);
    }

    /** Any run, up to the first program that is started in the background, if there is one. */
    method Drive(es: seq<Event>) returns (inFront: bool)
      requires Valid() && AllLegal(Now(), es)
      modifies Repr()
      ensures inFront <==> AllOk(old(Now()), es)
      ensures inFront ==> Valid() && Now() == Run(old(Now()), es)
      ensures !inFront ==> kernel.Layout() && forall n :: !KernelState.Refines(kernel.State(), n)
      decreases |es|
    {
      hide KernelState.Refines, Background;
      inFront := true;
      if es != [] {
        ghost var s := Now();
        inFront := Handle(es[0]);
        if inFront {
          assert Now() == Step(s, es[0]);
          inFront := Drive(es[1..]);
        }
      }
    }
  }
}
