/** The process state of syscall.c and keyboard.c as a value, and what each routine writes
    to it: pid table, process control blocks, terminals, TSS. Every such function is
    proved to carry out the matching step of the stack machine. */
module KernelState {
  import opened Bytes
  import opened Platform
  import opened Machine

  /** `parent` is a uint8_t, `ctx` the esp and ebp of the execute call. */
  datatype Pcb = Pcb(parent: nat, pid: nat, esp0: int, ctx: Context)

  datatype Terminal = Terminal(shellPid: int, ctx: Context)

  datatype KState = KState(flag: seq<nat>, pcb: seq<Pcb>, terms: seq<Terminal>,
                           current: nat, scheduled: nat, esp0: int, control: Control)

  predicate Sized(k: KState) {
    && |k.flag| == |k.pcb| == SLOTS && |k.terms| == TERMINALS
    && k.current < SLOTS && k.scheduled < TERMINALS
  }

  // ----- what the routines write -----------------------------------------------------

  /** The tail of sys_execute: control block, TSS and jump to user mode. */
  function Entered(k: KState, pid: nat, parent: nat, ctx: Context): KState
    requires Sized(k) && pid < SLOTS
  {
    k.(pcb := k.pcb[pid := Pcb(parent, pid, k.esp0, ctx)], current := pid, esp0 := StackTop(pid), control := Enter(pid))
  }

  /** sys_execute for the base shell of the scheduled terminal. */
  function ExecBase(k: KState, ctx: Context): KState
    requires Sized(k)
  {
    Entered(k.(flag := k.flag[k.scheduled := 1]), k.scheduled, k.scheduled, ctx)
  }

  /** sys_execute for any other program, into slot `p`. The parent is read from, and the
      new pid stored in, the displayed terminal. */
  function ExecChild(k: KState, p: nat, ctx: Context, disp: nat): KState
    requires Sized(k) && p < SLOTS && disp < TERMINALS
  {
    Entered(k.(flag := k.flag[p := 1], terms := k.terms[disp := k.terms[disp].(shellPid := p)]),
            p, k.terms[disp].shellPid % 256, ctx)
  }

  /** The first slot from `i` up whose flag is not 1. */
  function FreeSlot(flag: seq<nat>, i: nat): (p: Option<nat>)
    requires |flag| == SLOTS
    ensures p.Some? ==> i <= p.value < SLOTS
    decreases SLOTS - i
  {
    if i >= SLOTS then None else if flag[i] == 1 then FreeSlot(flag, i + 1) else Some(i)
  }

  /** What sys_execute finds out about its command before it changes anything. */
  datatype Command = Invalid | Missing | Unreadable | NotExecutable | Executable

  function Ascii(s: string): (b: seq<byte>)
    ensures |b| == |s|
  {
    seq(|s|, i requires 0 <= i < |s| => s[i] as int % 256)
  }

  /** What it then prints: nothing about a missing file or a program that runs. */
  function Said(cmd: Command, full: bool): seq<byte> {
    match cmd
    case Invalid => Ascii("Invalid command!\n")
    case Missing => []
    case Unreadable => Ascii("Failed to read file.\n")
    case NotExecutable => Ascii("Not an executable.\n")
    case Executable => if full then Ascii("Process list full.\n") else []
  }

  /** Printable text that ends a line. */
  predicate IsLine(s: string) {
    s != "" && s[|s| - 1] == '\n' && forall i :: 0 <= i < |s| ==> 0 < s[i] as int < 256
  }

  /** The bytes are those of the characters. */
  predicate Reads(b: seq<byte>, s: string) {
    |b| == |s| && forall i :: 0 <= i < |s| ==> b[i] as char == s[i]
  }

  lemma AsciiReads(s: string)
    requires forall i :: 0 <= i < |s| ==> s[i] as int < 256
    ensures Reads(Ascii(s), s)
  {
  }

  /** Every exit that prints something says something of its own. */
  lemma SaidReads(cmd: Command, full: bool)
    ensures cmd.Invalid? ==> Reads(Said(cmd, full), "Invalid command!\n")
    ensures cmd.Unreadable? ==> Reads(Said(cmd, full), "Failed to read file.\n")
    ensures cmd.NotExecutable? ==> Reads(Said(cmd, full), "Not an executable.\n")
    ensures cmd.Executable? && full ==> Reads(Said(cmd, full), "Process list full.\n")
    ensures forall other: Command :: other != cmd && Said(other, full) == Said(cmd, full) ==> Said(cmd, full) == []
  {
    hide Ascii, Reads;
    InvalidReads();
    UnreadableReads();
    NotExecutableReads();
    FullReads();
  }

  lemma InvalidReads()
    ensures Reads(Ascii("Invalid command!\n"), "Invalid command!\n") && |Ascii("Invalid command!\n")| == 17
  {
    AsciiReads("Invalid command!\n");
  }

  lemma UnreadableReads()
    ensures var b := Ascii("Failed to read file.\n"); Reads(b, "Failed to read file.\n") && |b| == 21
  {
    AsciiReads("Failed to read file.\n");
  }

  lemma NotExecutableReads()
    ensures var b := Ascii("Not an executable.\n"); Reads(b, "Not an executable.\n") && |b| == 19 && b[0] == 78
  {
    AsciiReads("Not an executable.\n");
  }

  lemma FullReads()
    ensures var b := Ascii("Process list full.\n"); Reads(b, "Process list full.\n") && |b| == 19 && b[0] == 80
  {
    AsciiReads("Process list full.\n");
  }

  lemma LineText(s: string)
    requires IsLine(s)
    ensures Ascii(s) != [] && NUL !in Ascii(s) && Last(Ascii(s)) == NEWLINE
  {
  }

  lemma SaidText(cmd: Command, full: bool)
    ensures NUL !in Said(cmd, full)
    ensures Said(cmd, full) == [] <==> cmd.Missing? || (cmd.Executable? && !full)
    ensures Said(cmd, full) != [] ==> Last(Said(cmd, full)) == NEWLINE
  {
    hide Ascii;
    match cmd {
      case Invalid => LineText("Invalid command!\n");
      case Missing =>
      case Unreadable => LineText("Failed to read file.\n");
      case NotExecutable => LineText("Not an executable.\n");
      case Executable => LineText("Process list full.\n");
    }
  }

  /** The execute system call: new state, and the value returned unless the program runs. */
  function Executed(k: KState, ctx: Context, loadable: bool, disp: nat): (KState, Option<int>)
    requires Sized(k) && disp < TERMINALS
  {
    if !loadable then (k.(control := Continue), Some(-1))
    else match FreeSlot(k.flag, TERMINALS)
      case None => (k.(control := Continue), Some(0))
      case Some(p) => (ExecChild(k, p, ctx, disp), None)
  }

  /** The first terminal from `i` up whose top process is `pid`. */
  function Owner(terms: seq<Terminal>, pid: int, i: nat): (t: Option<nat>)
    ensures t.Some? ==> i <= t.value < |terms|
    decreases |terms| - i
  {
    if i >= |terms| then None else if terms[i].shellPid == pid then Some(i) else Owner(terms, pid, i + 1)
  }

  function Recovered(terms: seq<Terminal>, pid: int, newPid: int): seq<Terminal> {
    match Owner(terms, pid, 0)
    case None => terms
    case Some(t) => terms[t := terms[t].(shellPid := newPid)]
  }

  function Halted(k: KState, ctx: Context): KState
    requires Sized(k) && k.pcb[k.current].parent < SLOTS
  {
    var block := k.pcb[k.current];
    var freed := k.(esp0 := block.esp0, flag := k.flag[k.current := 0],
                    terms := Recovered(k.terms, k.current, block.parent));
    if k.current >= TERMINALS then freed.(current := block.parent, control := Resume(block.ctx))
    else ExecBase(freed, ctx)
  }

  function Ticked(k: KState, ctx: Context): KState
    requires Sized(k)
    requires -1 <= k.terms[(k.scheduled + 1) % TERMINALS].shellPid < SLOTS
  {
    var next := (k.scheduled + 1) % TERMINALS;
    var saved := k.(terms := k.terms[k.scheduled := k.terms[k.scheduled].(ctx := ctx)], scheduled := next);
    var pid := saved.terms[next].shellPid;
    if pid == -1 then ExecBase(saved.(terms := saved.terms[next := saved.terms[next].(shellPid := next)]), ctx)
    else saved.(current := pid, esp0 := StackTop(pid), control := Resume(saved.terms[next].ctx))
  }

  // ----- the encoding of the stacks --------------------------------------------------

  /** The control block of process i of terminal t links to the process below it, whose
      suspended context and stack top it holds; a base shell is its own parent. */
  ghost predicate Linked(k: KState, m: Machine, t: int, i: int)
    requires Sized(k) && IsProc(m, t, i) && m.stacks[t][i].pid < SLOTS
  {
    var pid := m.stacks[t][i].pid;
    && k.pcb[pid].pid == pid
    && if i == 0 then k.pcb[pid].parent == t
       else
         var below := m.stacks[t][i - 1];
         k.pcb[pid] == Pcb(below.pid, pid, StackTop(below.pid), below.saved)
  }

  ghost predicate CpuAgrees(k: KState, m: Machine) {
    && Sized(k) && WellFormed(m)
    && k.scheduled == m.scheduled && k.control == m.control
    && k.current == Current(m) && k.esp0 == StackTop(k.current)
  }

  ghost predicate FlagsAgree(k: KState, m: Machine)
    requires Sized(k)
  {
    forall p :: 0 <= p < SLOTS ==> (k.flag[p] == 1 <==> InUse(m, p))
  }

  ghost predicate TermsAgree(k: KState, m: Machine)
    requires Sized(k) && WellFormed(m)
  {
    forall t :: 0 <= t < TERMINALS ==>
      && k.terms[t].shellPid == (if m.stacks[t] == [] then -1 else Last(m.stacks[t]).pid)
      && (t != m.scheduled && m.stacks[t] != [] ==> k.terms[t].ctx == Last(m.stacks[t]).saved)
  }

  ghost predicate LinksAgree(k: KState, m: Machine)
    requires Sized(k) && WellFormed(m)
  {
    forall t, i :: IsProc(m, t, i) ==> Linked(k, m, t, i)
  }

  ghost predicate Refines(k: KState, m: Machine) {
    CpuAgrees(k, m) && FlagsAgree(k, m) && TermsAgree(k, m) && LinksAgree(k, m)
  }

  lemma RefinesCpu(k: KState, m: Machine)
    requires Refines(k, m)
    ensures Sized(k) && WellFormed(m) && k.scheduled == m.scheduled && k.control == m.control
    ensures k.current == Current(m) && k.esp0 == StackTop(k.current)
  {
  }

  lemma TopIs(k: KState, m: Machine, t: nat)
    requires Refines(k, m) && t < TERMINALS
    ensures k.terms[t].shellPid == if m.stacks[t] == [] then -1 else Last(m.stacks[t]).pid
    ensures t != m.scheduled && m.stacks[t] != [] ==> k.terms[t].ctx == Last(m.stacks[t]).saved
    ensures -1 <= k.terms[t].shellPid < SLOTS
  {
    assert m.stacks[t] != [] ==> IsProc(m, t, |m.stacks[t]| - 1);
  }

  lemma BootFlags(k: KState)
    requires Sized(k) && k.flag[0] == 1 && (forall p :: 0 < p < SLOTS ==> k.flag[p] != 1)
    ensures FlagsAgree(k, BOOT)
  {
    assert IsProc(BOOT, 0, 0);
  }

  lemma BootRefines(k: KState)
    requires Sized(k) && k.current == k.scheduled == 0 && k.control == Enter(0) && k.esp0 == StackTop(0)
    requires k.flag[0] == 1 && (forall p :: 0 < p < SLOTS ==> k.flag[p] != 1)
    requires k.terms[0].shellPid == 0 && k.terms[1].shellPid == k.terms[2].shellPid == -1
    requires k.pcb[0].pid == k.pcb[0].parent == 0
    ensures Refines(k, BOOT)
  {
    hide InUse, FlagsAgree;
    BootFlags(k);
    assert IsProc(BOOT, 0, 0);
  }

  lemma FreeAgrees(k: KState, m: Machine, i: nat)
    requires Refines(k, m)
    ensures FreeSlot(k.flag, i) == FreeFrom(m, i)
    decreases SLOTS - i
  {
  }

  lemma FreeIs(k: KState, m: Machine)
    requires Refines(k, m)
    ensures FreeSlot(k.flag, TERMINALS) == Free(m)
  {
    FreeAgrees(k, m, TERMINALS);
  }

  /** `n` has the processes of `m` and one more, `pid`, on top of terminal t. */
  ghost predicate OneMore(m: Machine, n: Machine, t: int, pid: nat) {
    && (forall u, i :: IsProc(n, u, i) <==> IsProc(m, u, i) || (u == t && 0 <= t < |m.stacks| && i == |m.stacks[t]|))
    && (forall u, i :: IsProc(m, u, i) ==> IsProc(n, u, i) && n.stacks[u][i].pid == m.stacks[u][i].pid)
    && 0 <= t < |m.stacks| && IsProc(n, t, |m.stacks[t]|) && n.stacks[t][|m.stacks[t]|].pid == pid
  }

  lemma OneMoreInUse(m: Machine, n: Machine, t: int, pid: nat)
    requires OneMore(m, n, t, pid)
    ensures forall q :: InUse(n, q) <==> InUse(m, q) || q == pid
  {
  }

  /** A process whose block did not change stays linked if the process below it did not. */
  lemma LinkKept(k: KState, m: Machine, k': KState, n: Machine, t: int, i: int)
    requires Sized(k) && Sized(k') && WellFormed(m) && IsProc(m, t, i) && IsProc(n, t, i) && Linked(k, m, t, i)
    requires n.stacks[t][i].pid == m.stacks[t][i].pid && (i > 0 ==> n.stacks[t][i - 1] == m.stacks[t][i - 1])
    requires k'.pcb[m.stacks[t][i].pid] == k.pcb[m.stacks[t][i].pid]
    ensures Linked(k', n, t, i)
  {
  }

  /** Every process of `n` is one of `m` and lies on the same process as in `m`. */
  ghost predicate Shrunk(m: Machine, n: Machine) {
    forall u, i :: IsProc(n, u, i) ==>
      && IsProc(m, u, i) && n.stacks[u][i].pid == m.stacks[u][i].pid
      && (i > 0 ==> n.stacks[u][i - 1] == m.stacks[u][i - 1])
  }

  lemma ShrunkLinks(k: KState, m: Machine, k': KState, n: Machine)
    requires Sized(k) && WellFormed(m) && LinksAgree(k, m)
    requires Sized(k') && WellFormed(n) && Shrunk(m, n) && k'.pcb == k.pcb
    ensures LinksAgree(k', n)
  {
  }

  lemma SameInUse(m: Machine, n: Machine)
    requires Shrunk(m, n) && Shrunk(n, m)
    ensures forall q :: InUse(m, q) <==> InUse(n, q)
  {
  }

  // ----- execute ---------------------------------------------------------------------

  lemma PushLinks(k: KState, m: Machine, n: Machine, t: nat, p: nat, ctx: Context)
    requires Refines(k, m) && WellFormed(n) && t == m.scheduled && TERMINALS <= p < SLOTS && !InUse(m, p)
    requires n == Machine(m.stacks[t := Suspend(m.stacks[t], ctx) + [Proc(p, NOWHERE)]], t, Enter(p))
    ensures LinksAgree(ExecChild(k, p, ctx, t), n)
  {
    var k' := ExecChild(k, p, ctx, t);
    forall u, i | IsProc(n, u, i)
      ensures Linked(k', n, u, i)
    {
      if IsProc(m, u, i) {
        assert m.stacks[u][i].pid != p;
        LinkKept(k, m, k', n, u, i);
      }
    }
  }

  lemma PushShape(m: Machine, n: Machine, t: nat, p: nat, ctx: Context)
    requires WellFormed(m) && t == m.scheduled && n.stacks == m.stacks[t := Suspend(m.stacks[t], ctx) + [Proc(p, NOWHERE)]]
    ensures OneMore(m, n, t, p)
  {
  }

  lemma PushFlags(k: KState, m: Machine, k': KState, n: Machine, t: nat, p: nat)
    requires Sized(k) && FlagsAgree(k, m) && p < SLOTS && Sized(k') && k'.flag == k.flag[p := 1] && OneMore(m, n, t, p)
    ensures FlagsAgree(k', n)
  {
  }

  lemma ChildRefines(k: KState, m: Machine, ctx: Context)
    requires Refines(k, m) && Free(m).Some?
    ensures Refines(ExecChild(k, Free(m).value, ctx, k.scheduled), Step(m, Execute(ctx, true)))
  {
    hide InUse, Linked, LinksAgree, FlagsAgree, FreeFrom, OneMore;
    var p, t, n := Free(m).value, m.scheduled, Step(m, Execute(ctx, true));
    PushShape(m, n, t, p, ctx);
    PushLinks(k, m, n, t, p, ctx);
    PushFlags(k, m, ExecChild(k, p, ctx, t), n, t, p);
  }

  /** A failed execute, or one that finds the process list full, changes nothing. */
  lemma ContinueRefines(k: KState, m: Machine, ctx: Context, loadable: bool)
    requires Refines(k, m) && (!loadable || Free(m).None?)
    ensures Refines(k.(control := Continue), Step(m, Execute(ctx, loadable)))
  {
    var k', n := k.(control := Continue), Step(m, Execute(ctx, loadable));
    assert Shrunk(m, n) && Shrunk(n, m);
    ShrunkLinks(k, m, k', n);
    SameInUse(m, n);
  }

  // ----- tick ------------------------------------------------------------------------

  lemma TickRefines(k: KState, m: Machine, ctx: Context)
    requires Refines(k, m)
    ensures -1 <= k.terms[(k.scheduled + 1) % TERMINALS].shellPid < SLOTS
    ensures Refines(Ticked(k, ctx), Step(m, Tick(ctx)))
  {
    hide Refines, WellFormed, Ticked;
    RefinesCpu(k, m);
    var next := (m.scheduled + 1) % TERMINALS;
    TopIs(k, m, next);
    if m.stacks[next] == [] {
      StartRefines(k, m, Step(m, Tick(ctx)), ctx, next);
    } else {
      ResumeRefines(k, m, Step(m, Tick(ctx)), ctx, next);
    }
  }

  lemma SuspendShrinks(m: Machine, n: Machine, ctx: Context)
    requires WellFormed(m) && n.stacks == m.stacks[m.scheduled := Suspend(m.stacks[m.scheduled], ctx)]
    ensures Shrunk(m, n) && Shrunk(n, m)
  {
  }

  lemma ResumeRefines(k: KState, m: Machine, n: Machine, ctx: Context, next: nat)
    requires Refines(k, m) && WellFormed(n) && next == (m.scheduled + 1) % TERMINALS && m.stacks[next] != []
    requires 0 <= k.terms[next].shellPid < SLOTS
    requires n == Machine(m.stacks[m.scheduled := Suspend(m.stacks[m.scheduled], ctx)], next,
                          Resume(Last(m.stacks[next]).saved))
    ensures Refines(Ticked(k, ctx), n)
  {
    hide InUse, Shrunk, Linked, LinksAgree, TermsAgree;
    TopIs(k, m, next);
    SuspendShrinks(m, n, ctx);
    ShrunkLinks(k, m, Ticked(k, ctx), n);
    SameInUse(m, n);
    TickTerms(k, m, Ticked(k, ctx), n, ctx, next);
  }

  lemma StartRefines(k: KState, m: Machine, n: Machine, ctx: Context, next: nat)
    requires Refines(k, m) && WellFormed(n) && next == (m.scheduled + 1) % TERMINALS && m.stacks[next] == []
    requires n == Machine(m.stacks[m.scheduled := Suspend(m.stacks[m.scheduled], ctx)][next := [Proc(next, NOWHERE)]],
                          next, Enter(next))
    ensures Refines(Ticked(k, ctx), n)
  {
    hide InUse, OneMore, Linked, LinksAgree, TermsAgree, FlagsAgree;
    TopIs(k, m, next);
    var k' := Ticked(k, ctx);
    StartShape(m, n, ctx, next);
    PushFlags(k, m, k', n, next, next);
    StartLinks(k, m, k', n, next);
    TickTerms(k, m, k', n, ctx, next);
  }

  lemma StartShape(m: Machine, n: Machine, ctx: Context, next: nat)
    requires WellFormed(m) && next < TERMINALS && m.stacks[next] == []
    requires n.stacks == m.stacks[m.scheduled := Suspend(m.stacks[m.scheduled], ctx)][next := [Proc(next, NOWHERE)]]
    ensures OneMore(m, n, next, next)
    ensures forall u, i :: IsProc(m, u, i) && i > 0 ==> n.stacks[u][i - 1] == m.stacks[u][i - 1]
  {
  }

  /** Only the two terminals of a switch change, and each shows its stack's top. */
  lemma TickTerms(k: KState, m: Machine, k': KState, n: Machine, ctx: Context, next: nat)
    requires Sized(k) && WellFormed(m) && TermsAgree(k, m) && Sized(k') && WellFormed(n)
    requires next < TERMINALS && next != m.scheduled && n.scheduled == next
    requires n.stacks[m.scheduled] == Suspend(m.stacks[m.scheduled], ctx)
    requires forall u :: 0 <= u < TERMINALS && u != m.scheduled && u != next ==>
               n.stacks[u] == m.stacks[u] && k'.terms[u] == k.terms[u]
    requires k'.terms[m.scheduled] == Terminal(k.terms[m.scheduled].shellPid, ctx)
    requires n.stacks[next] != [] && k'.terms[next].shellPid == Last(n.stacks[next]).pid
    ensures TermsAgree(k', n)
  {
  }

  lemma StartLinks(k: KState, m: Machine, k': KState, n: Machine, next: nat)
    requires Sized(k) && WellFormed(m) && LinksAgree(k, m) && next < TERMINALS && m.stacks[next] == []
    requires Sized(k') && WellFormed(n) && OneMore(m, n, next, next)
    requires forall u, i :: IsProc(m, u, i) && i > 0 ==> n.stacks[u][i - 1] == m.stacks[u][i - 1]
    requires forall p :: 0 <= p < SLOTS && p != next ==> k'.pcb[p] == k.pcb[p]
    requires k'.pcb[next].pid == k'.pcb[next].parent == next
    ensures LinksAgree(k', n)
  {
  }

  // ----- halt ------------------------------------------------------------------------

  lemma OwnerIsScheduled(k: KState, m: Machine, i: nat)
    requires Refines(k, m) && i <= m.scheduled
    ensures Owner(k.terms, k.current, i) == Some(m.scheduled)
    decreases m.scheduled - i
  {
    if i < m.scheduled {
      if m.stacks[i] != [] {
        assert IsProc(m, i, |m.stacks[i]| - 1);
      }
      OwnerIsScheduled(k, m, i + 1);
    }
  }

  lemma HaltRefines(k: KState, m: Machine, ctx: Context)
    requires Refines(k, m)
    ensures k.pcb[k.current].parent < SLOTS
    ensures Refines(Halted(k, ctx), Step(m, Halt(ctx)))
  {
    var t := m.scheduled;
    OwnerIsScheduled(k, m, 0);
    assert IsProc(m, t, |m.stacks[t]| - 1) && Linked(k, m, t, |m.stacks[t]| - 1);
    if |m.stacks[t]| == 1 {
      RestartRefines(k, m, ctx);
    } else {
      assert IsProc(m, t, |m.stacks[t]| - 2);
      PopRefines(k, m, ctx);
    }
  }

  lemma RestartRefines(k: KState, m: Machine, ctx: Context)
    requires Refines(k, m) && |m.stacks[m.scheduled]| == 1 && k.pcb[k.current].parent == m.scheduled
    requires Owner(k.terms, k.current, 0) == Some(m.scheduled)
    ensures Refines(Halted(k, ctx), Step(m, Halt(ctx)))
  {
    hide InUse, Linked, LinksAgree, TermsAgree, Shrunk;
    var n := Step(m, Halt(ctx));
    RestartShape(m, n);
    RestartLinks(k, m, n, ctx);
    SameInUse(m, n);
    RestartFlags(k, m, n, ctx);
    RestartTerms(k, m, n, ctx);
  }

  /** The base shell's slot is freed and taken again. */
  lemma RestartFlags(k: KState, m: Machine, n: Machine, ctx: Context)
    requires Refines(k, m) && k.current == m.scheduled && k.pcb[k.current].parent < SLOTS
    requires forall q :: InUse(m, q) <==> InUse(n, q)
    ensures FlagsAgree(Halted(k, ctx), n)
  {
    hide Linked, LinksAgree, TermsAgree, InUse;
    InUseCurrent(m);
  }

  lemma InUseCurrent(m: Machine)
    requires WellFormed(m)
    ensures InUse(m, Current(m))
  {
    assert IsProc(m, m.scheduled, |m.stacks[m.scheduled]| - 1);
  }

  lemma RestartShape(m: Machine, n: Machine)
    requires WellFormed(m) && |m.stacks[m.scheduled]| == 1
    requires n.stacks == m.stacks[m.scheduled := [Proc(m.scheduled, NOWHERE)]]
    ensures Shrunk(m, n) && Shrunk(n, m) && Current(m) == m.scheduled
  {
    assert IsProc(m, m.scheduled, 0);
  }

  lemma RestartTerms(k: KState, m: Machine, n: Machine, ctx: Context)
    requires Refines(k, m) && WellFormed(n) && |m.stacks[m.scheduled]| == 1 && k.pcb[k.current].parent == m.scheduled
    requires Owner(k.terms, k.current, 0) == Some(m.scheduled) && k.current == m.scheduled == n.scheduled
    requires n.stacks == m.stacks[m.scheduled := [Proc(m.scheduled, NOWHERE)]]
    ensures TermsAgree(Halted(k, ctx), n)
  {
    hide InUse, Linked, LinksAgree, IsProc, FlagsAgree, WellFormed;
    RefinesCpu(k, m);
  }

  lemma RestartLinks(k: KState, m: Machine, n: Machine, ctx: Context)
    requires Refines(k, m) && WellFormed(n) && |m.stacks[m.scheduled]| == 1 && k.pcb[k.current].parent < SLOTS
    requires n.stacks == m.stacks[m.scheduled := [Proc(m.scheduled, NOWHERE)]]
    requires k.current == m.scheduled
    ensures LinksAgree(Halted(k, ctx), n)
  {
    var k' := Halted(k, ctx);
    forall u, i | IsProc(n, u, i)
      ensures Linked(k', n, u, i)
    {
      assert IsProc(m, u, i);
      if u != m.scheduled {
        assert m.stacks[u][i].pid != m.scheduled by {
          assert IsProc(m, m.scheduled, 0);
        }
        LinkKept(k, m, k', n, u, i);
      }
    }
  }

  lemma PopRefines(k: KState, m: Machine, ctx: Context)
    requires Refines(k, m) && |m.stacks[m.scheduled]| > 1 && k.current >= TERMINALS
    requires k.pcb[k.current].parent == m.stacks[m.scheduled][|m.stacks[m.scheduled]| - 2].pid < SLOTS
    requires Owner(k.terms, k.current, 0) == Some(m.scheduled)
    ensures Refines(Halted(k, ctx), Step(m, Halt(ctx)))
  {
    hide InUse, Linked, LinksAgree, TermsAgree, Shrunk;
    var k', n, t := Halted(k, ctx), Step(m, Halt(ctx)), m.scheduled;
    PopShape(m, n);
    ShrunkLinks(k, m, k', n);
    PopFlags(m, n, t, k.current);
    PopTerms(k, m, n, ctx);
    PopCpu(k, m);
  }

  /** The parent's stack top is the value that the child's control block holds. */
  lemma PopCpu(k: KState, m: Machine)
    requires Refines(k, m) && |m.stacks[m.scheduled]| > 1 && IsProc(m, m.scheduled, |m.stacks[m.scheduled]| - 1)
    ensures m.stacks[m.scheduled][|m.stacks[m.scheduled]| - 1].pid < SLOTS
    ensures Linked(k, m, m.scheduled, |m.stacks[m.scheduled]| - 1)
    ensures var below := m.stacks[m.scheduled][|m.stacks[m.scheduled]| - 2];
            k.pcb[k.current].esp0 == StackTop(below.pid) && k.pcb[k.current].ctx == below.saved
  {
    hide InUse, FlagsAgree, TermsAgree;
  }

  lemma PopShape(m: Machine, n: Machine)
    requires WellFormed(m) && |m.stacks[m.scheduled]| > 1 && n.stacks == m.stacks[m.scheduled := Front(m.stacks[m.scheduled])]
    ensures Shrunk(m, n) && IsProc(m, m.scheduled, |m.stacks[m.scheduled]| - 1)
  {
  }

  lemma PopTerms(k: KState, m: Machine, n: Machine, ctx: Context)
    requires Refines(k, m) && WellFormed(n) && |m.stacks[m.scheduled]| > 1 && k.current >= TERMINALS
    requires k.pcb[k.current].parent == m.stacks[m.scheduled][|m.stacks[m.scheduled]| - 2].pid < SLOTS
    requires Owner(k.terms, k.current, 0) == Some(m.scheduled) && n.scheduled == m.scheduled
    requires n.stacks == m.stacks[m.scheduled := Front(m.stacks[m.scheduled])]
    ensures TermsAgree(Halted(k, ctx), n)
  {
    hide InUse, Linked, LinksAgree, IsProc, FlagsAgree, WellFormed;
    RefinesCpu(k, m);
  }

  lemma PopFlags(m: Machine, n: Machine, t: nat, pid: nat)
    requires WellFormed(m) && t < TERMINALS && |m.stacks[t]| > 0 && Last(m.stacks[t]).pid == pid
    requires n.stacks == m.stacks[t := Front(m.stacks[t])]
    ensures forall q :: InUse(n, q) <==> InUse(m, q) && q != pid
  {
    assert OneMore(n, m, t, pid);
    OneMoreInUse(n, m, t, pid);
    assert IsProc(m, t, |m.stacks[t]| - 1);
  }

  // ----- the displayed terminal ------------------------------------------------------

  lemma OtherDisplayBreaks(k: KState, m: Machine, ctx: Context, disp: nat, n: Machine)
    requires Refines(k, m) && Free(m).Some? && disp < TERMINALS && disp != k.scheduled
    ensures !Refines(ExecChild(k, Free(m).value, ctx, disp), n)
  {
  }

  /** sys_execute uses the displayed terminal where it means the scheduled one. If another
      terminal is displayed when a program is executed, the new state encodes no stacks at
      all; otherwise it encodes the stacks one execute later. */
  lemma ExecuteRefines(k: KState, m: Machine, ctx: Context, loadable: bool, disp: nat)
    requires Refines(k, m) && disp < TERMINALS
    ensures var (k', r) := Executed(k, ctx, loadable, disp);
            && r == (if !loadable then Some(-1) else if Free(m).None? then Some(0) else None)
            && (r.Some? || disp == k.scheduled ==> Refines(k', Step(m, Execute(ctx, loadable))))
            && ((exists n :: Refines(k', n)) <==> r.Some? || disp == k.scheduled)
  {
    FreeIs(k, m);
    var (k', r) := Executed(k, ctx, loadable, disp);
    if r.Some? {
      ContinueRefines(k, m, ctx, loadable);
    } else if disp == k.scheduled {
      ChildRefines(k, m, ctx);
    } else {
      forall n
        ensures !Refines(k', n)
      {
        OtherDisplayBreaks(k, m, ctx, disp, n);
      }
    }
  }

  // ----- following the parent links --------------------------------------------------

  /** The k-th ancestor of a pid along `parent_pid`. */
  function Ancestor(pcb: seq<Pcb>, pid: nat, steps: nat): nat
    decreases steps
  {
    if steps == 0 || pid >= |pcb| then pid else Ancestor(pcb, pcb[pid].parent, steps - 1)
  }

  /** From a started terminal's shell_pid the parent links visit its stack from top to
      base, and stay at the base pid, which is the terminal's number. */
  lemma {:induction false} ParentChain(k: KState, m: Machine, t: nat, i: nat, steps: nat)
    requires Refines(k, m) && IsProc(m, t, i)
    ensures Ancestor(k.pcb, m.stacks[t][i].pid, steps) == if steps <= i then m.stacks[t][i - steps].pid else t
    decreases steps
  {
    if steps > 0 {
      ParentLink(k, m, t, i);
      ParentChain(k, m, t, if i == 0 then 0 else i - 1, steps - 1);
    }
  }

  lemma ParentLink(k: KState, m: Machine, t: nat, i: nat)
    requires Refines(k, m) && IsProc(m, t, i)
    ensures m.stacks[t][0].pid == t && m.stacks[t][i].pid < SLOTS
    ensures k.pcb[m.stacks[t][i].pid].parent == m.stacks[t][if i == 0 then 0 else i - 1].pid
  {
  }
}
