/** sys_execute, sys_halt, schedule and context_switch, working in place on the kernel's
    global arrays. The ghost machine holds the process stacks those arrays encode. */
module Kernel {
  import opened Bytes
  import opened Platform
  import opened Machine
  import opened KernelState
  import Paging

  class Kernel {
    const flag: array<nat>
    const pcb: array<Pcb>
    const terminals: array<Terminal>
    const mmu: Paging.Mmu
    var currentPid: nat
    var scheduledTerminal: nat
    var esp0: int
    /** What the last switch loaded into the stack pointer registers. */
    var control: Control
    /** flag_initialize_terminal */
    var initFlag: nat
    ghost var machine: Machine

    ghost predicate Layout()
      reads this
    {
      && flag.Length == pcb.Length == SLOTS && terminals.Length == TERMINALS
      && mmu.Valid() && currentPid < SLOTS && scheduledTerminal < TERMINALS
    }

    ghost function State(): (k: KState)
      requires Layout()
      reads this, flag, pcb, terminals
      ensures Sized(k)
    {
      KState(flag[..], pcb[..], terminals[..], currentPid, scheduledTerminal, esp0, control)
    }

    /** The directory entry of the 4 MB user page at 128 MB is the current process's. */
    ghost predicate UserMapped()
      requires mmu.Valid()
      reads this, mmu.pageDir
    {
      mmu.pageDir[Paging.USER_SLOT] == Paging.Entry(true, true, true, true, UserPage(currentPid) / KB4)
    }

    ghost predicate Valid()
      reads this, flag, pcb, terminals, mmu.pageDir
    {
      Layout() && initFlag == 0 && Refines(State(), machine) && UserMapped()
    }

    /** In every valid state user addresses translate to the page of the running process,
        and traps enter its kernel stack. */
    lemma UserPageMapped()
      requires Valid()
      ensures currentPid == Current(machine) && esp0 == StackTop(currentPid) == 0x80_0000 - 0x2000 * currentPid - 4
      ensures forall lin :: 0x800_0000 <= lin < 0x840_0000 ==>
                mmu.Translate(lin) == Some(0x80_0000 + 0x40_0000 * currentPid + (lin - 0x800_0000))
    {
    }

    /** A context on the running process's stack lies where the TSS points. */
    lemma OnStack(e: Event)
      requires Valid() && WellFormed(machine) && Legal(machine, e)
      ensures Layout() && esp0 - EIGHT_KB + 4 + PCB_SIZE <= e.ctx.esp <= esp0
    {
      RefinesCpu(State(), machine);
    }

    ghost function Repr(): set<object> { {this, flag, pcb, terminals, mmu.pageDir} }

    /** init_pid, terminal_init and the first execute of the boot sequence. */
    constructor (mmu: Paging.Mmu, bootCtx: Context)
      requires mmu.Valid()
      modifies mmu.pageDir
      ensures this.mmu == mmu && Valid() && machine == BOOT && fresh(flag) && fresh(pcb) && fresh(terminals)
      ensures mmu.pageDir[..] == old(mmu.pageDir[..])[Paging.USER_SLOT := mmu.pageDir[Paging.USER_SLOT]]
    {
      this.mmu := mmu;
      flag := new nat[SLOTS](_ => 0);
      pcb := new Pcb[SLOTS](_ => Pcb(0, 0, 0, NOWHERE));
      terminals := new Terminal[TERMINALS](_ => Terminal(-1, NOWHERE));
      currentPid, scheduledTerminal, esp0, control, initFlag := 0, 0, EIGHT_MB, Continue, 1;
      machine := BOOT;
      new;
      terminals[0] := terminals[0].(shellPid := 0);
      var r, message := SysExecute(bootCtx, Executable, 0);
      BootRefines(State());
    }

    // ----- sys_execute -----------------------------------------------------------------

    /** From the page swap to the jump into the program. */
    method EnterProgram(pid: nat, parent: nat, ctx: Context)
      requires Layout() && pid < SLOTS
      modifies this`currentPid, this`esp0, this`control, pcb, mmu.pageDir
      ensures Layout() && UserMapped()
      ensures State() == Entered(old(State()), pid, parent, ctx)
      ensures mmu.pageDir[..] == old(mmu.pageDir[..])[Paging.USER_SLOT := mmu.pageDir[Paging.USER_SLOT]]
    {
      currentPid := pid;
      mmu.AllocatePage(Paging.USER_SLOT, true, EIGHT_MB + pid * MB4);
      pcb[currentPid] := Pcb(parent, currentPid, esp0, ctx);
      esp0 := EIGHT_MB - EIGHT_KB * currentPid - 4;
      control := Enter(pid);
    }

    /** The whole routine. Every check of the command comes before the first write. No
        result means that the new program runs; `message` is what is handed to puts. */
    method SysExecute(ctx: Context, cmd: Command, disp: nat) returns (r: Option<int>, message: seq<byte>)
      requires Layout() && disp < TERMINALS && initFlag <= 1
      modifies this`currentPid, this`esp0, this`control, this`initFlag, flag, pcb, terminals, mmu.pageDir
      ensures Layout()
      ensures cmd.Executable? && old(initFlag) == 1 ==>
                r == None && message == [] && initFlag == 0 && State() == ExecBase(old(State()), ctx) && UserMapped()
      ensures !(cmd.Executable? && old(initFlag) == 1) ==>
                && (State(), r) == Executed(old(State()), ctx, cmd.Executable?, disp) && initFlag == old(initFlag)
                && message == Said(cmd, FreeSlot(old(flag[..]), TERMINALS).None?)
      ensures r.None? || old(UserMapped()) ==> UserMapped()
      ensures mmu.pageDir[..] == old(mmu.pageDir[..])[Paging.USER_SLOT := mmu.pageDir[Paging.USER_SLOT]]
    {
      hide Ascii;
      control := Continue;
      match cmd {
        case Invalid => return Some(-1), Ascii("Invalid command!\n");
        case Missing => return Some(-1), [];
        case Unreadable => return Some(-1), Ascii("Failed to read file.\n");
        case NotExecutable => return Some(-1), Ascii("Not an executable.\n");
        case Executable =>
      }
      var i: nat, parent: nat;
      if initFlag == 1 {
        initFlag := 0;
        i := scheduledTerminal;
        flag[i] := 1;
        parent := scheduledTerminal;
      } else {
        i := 3;
        while true
          invariant 3 <= i && FreeSlot(flag[..], i) == FreeSlot(flag[..], TERMINALS)
          decreases SLOTS - i
        {
          if i >= 6 {
            return Some(0), Ascii("Process list full.\n");
          }
          if flag[i] == 1 {
            i := i + 1;
          } else {
            flag[i] := 1;
            break;
          }
        }
        parent := terminals[disp].shellPid % 256;
        terminals[disp] := terminals[disp].(shellPid := i);
      }
      EnterProgram(i, parent, ctx);
      r, message := None, [];
    }

    /** The execute system call. A caller's stack frame `ctx` starts at tss.esp0, hence
        lies on the stack the TSS points into. */
    method Execute(ctx: Context, cmd: Command, disp: nat) returns (r: Option<int>, message: seq<byte>)
      requires Valid() && disp < TERMINALS && esp0 - EIGHT_KB + 4 + PCB_SIZE <= ctx.esp <= esp0
      modifies Repr()
      ensures Legal(old(machine), Event.Execute(ctx, cmd.Executable?))
      ensures Layout() && (State(), r) == Executed(old(State()), ctx, cmd.Executable?, disp)
      ensures r == if !cmd.Executable? then Some(-1) else if Free(old(machine)).None? then Some(0) else None
      ensures message == Said(cmd, Free(old(machine)).None?)
      ensures cmd.Invalid? ==> Reads(message, "Invalid command!\n")
      ensures cmd.Missing? ==> message == []
      ensures cmd.Unreadable? ==> Reads(message, "Failed to read file.\n")
      ensures cmd.NotExecutable? ==> Reads(message, "Not an executable.\n")
      ensures cmd.Executable? ==> if r == Some(0) then Reads(message, "Process list full.\n") else message == []
      ensures scheduledTerminal == old(scheduledTerminal)
      ensures Valid() <==> (r.Some? || disp == scheduledTerminal)
      ensures (exists n :: Refines(State(), n)) <==> (r.Some? || disp == scheduledTerminal)
      ensures machine == Step(old(machine), Event.Execute(ctx, cmd.Executable?))
      ensures mmu.pageDir[..] == old(mmu.pageDir[..])[Paging.USER_SLOT := mmu.pageDir[Paging.USER_SLOT]]
    {
      hide Refines, ExecChild, Step, Free, Said, Reads;
      ghost var k, m := State(), machine;
      RefinesCpu(k, m);
      r, message := SysExecute(ctx, cmd, disp);
      machine := Step(m, Event.Execute(ctx, cmd.Executable?));
      assert State() == Executed(k, ctx, cmd.Executable?, disp).0;
      ExecuteRefines(k, m, ctx, cmd.Executable?, disp);
      assert FreeSlot(k.flag, TERMINALS).None? <==> Free(m).None? by {
        FreeIs(k, m);
      }
      SaidReads(cmd, Free(m).None?);
      SaidText(cmd, Free(m).None?);
    }

    // ----- sys_halt --------------------------------------------------------------------

    /** The loop of recover_terminal_curr_pid. */
    method RecoverTerminalCurrPid(pid: nat, newPid: nat)
      requires Layout()
      modifies terminals
      ensures terminals[..] == Recovered(old(terminals[..]), pid, newPid)
    {
      for i := 0 to TERMINALS
        invariant terminals[..] == old(terminals[..])
        invariant Owner(terminals[..], pid, 0) == Owner(terminals[..], pid, i)
      {
        if terminals[i].shellPid == pid {
          terminals[i] := terminals[i].(shellPid := newPid);
          return;
        }
      }
    }

    method SysHalt(ctx: Context)
      requires Layout() && initFlag == 0 && pcb[currentPid].parent < SLOTS
      modifies Repr()
      ensures Layout() && initFlag == 0 && UserMapped() && machine == old(machine)
      ensures State() == Halted(old(State()), ctx)
      ensures mmu.pageDir[..] == old(mmu.pageDir[..])[Paging.USER_SLOT := mmu.pageDir[Paging.USER_SLOT]]
    {
      var block := pcb[currentPid];
      var physAddr := EIGHT_MB + block.parent * MB4;
      esp0 := block.esp0;
      flag[currentPid] := 0;
      RecoverTerminalCurrPid(currentPid, block.parent);
      if currentPid != 0 && currentPid != 1 && currentPid != 2 {
        currentPid := block.parent;
      } else {
        initFlag := 1;
        var r, message := SysExecute(ctx, Executable, 0);
        return;
      }
      mmu.AllocatePage(Paging.USER_SLOT, true, physAddr);
      control := Resume(block.ctx);
    }

    /** The halt system call. A child returns to its parent's execute call; a base shell
        is loaded afresh under the same pid on the same terminal. */
    method Halt(ctx: Context)
      requires Valid() && esp0 - EIGHT_KB + 4 + PCB_SIZE <= ctx.esp <= esp0
      modifies Repr()
      ensures Legal(old(machine), Event.Halt(ctx))
      ensures Valid() && machine == Step(old(machine), Event.Halt(ctx))
      ensures mmu.pageDir[..] == old(mmu.pageDir[..])[Paging.USER_SLOT := mmu.pageDir[Paging.USER_SLOT]]
    {
      hide Refines, Halted, Step;
      ghost var k, m := State(), machine;
      RefinesCpu(k, m);
      HaltRefines(k, m, ctx);
      SysHalt(ctx);
      machine := Step(m, Event.Halt(ctx));
    }

    // ----- schedule and context_switch -------------------------------------------------

    method ContextSwitch(previous: nat, ctx: Context)
      requires Layout() && initFlag == 0 && previous < TERMINALS
      requires scheduledTerminal == (previous + 1) % TERMINALS && -1 <= terminals[scheduledTerminal].shellPid < SLOTS
      modifies Repr()
      ensures Layout() && initFlag == 0 && UserMapped() && machine == old(machine)
      ensures State() == Ticked(old(State()).(scheduled := previous), ctx)
      ensures mmu.pageDir[..] == old(mmu.pageDir[..])[Paging.USER_SLOT := mmu.pageDir[Paging.USER_SLOT]]
    {
      terminals[previous] := terminals[previous].(ctx := ctx);
      if terminals[scheduledTerminal].shellPid == -1 {
        initFlag := 1;
        terminals[scheduledTerminal] := terminals[scheduledTerminal].(shellPid := scheduledTerminal);
        var r, message := SysExecute(ctx, Executable, 0);
      } else {
        currentPid := terminals[scheduledTerminal].shellPid;
        mmu.AllocatePage(Paging.USER_SLOT, true, EIGHT_MB + currentPid * MB4);
        esp0 := EIGHT_MB - EIGHT_KB * currentPid - 4;
        control := Resume(terminals[scheduledTerminal].ctx);
      }
    }

    /** The timer tick. */
    method Schedule(ctx: Context)
      requires Valid() && esp0 - EIGHT_KB + 4 + PCB_SIZE <= ctx.esp <= esp0
      modifies Repr()
      ensures Legal(old(machine), Event.Tick(ctx))
      ensures Valid() && machine == Step(old(machine), Event.Tick(ctx))
      ensures mmu.pageDir[..] == old(mmu.pageDir[..])[Paging.USER_SLOT := mmu.pageDir[Paging.USER_SLOT]]
    {
      hide Refines, Ticked, Step;
      ghost var k, m := State(), machine;
      RefinesCpu(k, m);
      TickRefines(k, m, ctx);
      var temp := scheduledTerminal;
      scheduledTerminal := (scheduledTerminal + 1) % 3;
      ContextSwitch(temp, ctx);
      machine := Step(m, Event.Tick(ctx));
    }
  }
}
