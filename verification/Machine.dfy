/** What the scheduler promises: three stacks of processes, one per terminal, and a CPU.

    The kernel never stores these stacks. It encodes them in the pid table, in the parent
    links of the process control blocks and in the three `shell_pid` fields; the Kernel
    module proves that the encoding is kept. Here are the laws of the stacks themselves,
    over whole runs. */
module Machine {
  import opened Bytes
  import opened Platform

  const SLOTS := 6
  const EIGHT_MB := 0x80_0000
  const EIGHT_KB := 0x2000
  const PCB_SIZE := 160

  /** The stack and frame pointers saved at a switch. */
  datatype Context = Context(esp: nat, ebp: nat)

  const NOWHERE := Context(0, 0)

  /** A live process. `saved` is where it resumes; meaningless while it runs. */
  datatype Proc = Proc(pid: nat, saved: Context)

  /** Where a step sends the CPU: back to its caller, to the entry point of a freshly
      loaded program, or to a saved context. */
  datatype Control = Continue | Enter(pid: nat) | Resume(ctx: Context)

  /** `stacks[t]` is terminal t's processes, its base shell first; empty if not started. */
  datatype Machine = Machine(stacks: seq<seq<Proc>>, scheduled: nat, control: Control)

  datatype Event = Tick(ctx: Context) | Execute(ctx: Context, loadable: bool) | Halt(ctx: Context)

  function Last<T>(s: seq<T>): T
    requires s != []
  {
    s[|s| - 1]
  }

  function Front<T>(s: seq<T>): seq<T>
    requires s != []
  {
    s[..|s| - 1]
  }

  // ----- memory layout ---------------------------------------------------------------

  function UserPage(pid: nat): nat { EIGHT_MB + MB4 * pid }

  function PcbBase(pid: nat): int { EIGHT_MB - EIGHT_KB * (pid + 1) }

  /** The value of tss.esp0 while `pid` runs. */
  function StackTop(pid: nat): int { EIGHT_MB - EIGHT_KB * pid - 4 }

  /** The kernel stack of `pid` lies above its control block in the same 8 KB. */
  predicate InStack(pid: nat, esp: nat) { PcbBase(pid) + PCB_SIZE <= esp <= StackTop(pid) }

  // ----- well-formed machines --------------------------------------------------------

  ghost predicate IsProc(m: Machine, t: int, i: int) {
    0 <= t < |m.stacks| && 0 <= i < |m.stacks[t]|
  }

  ghost predicate WellFormed(m: Machine) {
    && |m.stacks| == TERMINALS && m.scheduled < TERMINALS && m.stacks[m.scheduled] != []
    && (forall t, i :: IsProc(m, t, i) ==>
          if i == 0 then m.stacks[t][i].pid == t else TERMINALS <= m.stacks[t][i].pid < SLOTS)
    && (forall t, i, u, j :: IsProc(m, t, i) && IsProc(m, u, j) && m.stacks[t][i].pid == m.stacks[u][j].pid ==>
          t == u && i == j)
  }

  ghost predicate InUse(m: Machine, pid: nat) {
    exists t, i :: IsProc(m, t, i) && m.stacks[t][i].pid == pid
  }

  function Current(m: Machine): nat
    requires m.scheduled < |m.stacks| && m.stacks[m.scheduled] != []
  {
    Last(m.stacks[m.scheduled]).pid
  }

  /** The least unused pid from `from` up. */
  ghost function FreeFrom(m: Machine, from: nat): (p: Option<nat>)
    ensures p.Some? ==> from <= p.value < SLOTS && !InUse(m, p.value)
    ensures p.Some? ==> forall q :: from <= q < p.value ==> InUse(m, q)
    ensures p.None? ==> forall q :: from <= q < SLOTS ==> InUse(m, q)
    decreases SLOTS - from
  {
    if from >= SLOTS then None else if InUse(m, from) then FreeFrom(m, from + 1) else Some(from)
  }

  ghost function Free(m: Machine): Option<nat> { FreeFrom(m, TERMINALS) }

  // ----- steps -----------------------------------------------------------------------

  /** `s` with its running process suspended at `ctx`. */
  function Suspend(s: seq<Proc>, ctx: Context): (r: seq<Proc>)
    requires s != []
  {
    Front(s) + [Last(s).(saved := ctx)]
  }

  ghost function Next(m: Machine, e: Event): Machine
    requires WellFormed(m)
  {
    var t := m.scheduled;
    var s := m.stacks[t];
    match e
    case Tick(ctx) =>
      var next := (t + 1) % TERMINALS;
      var stacks := m.stacks[t := Suspend(s, ctx)];
      if stacks[next] == [] then Machine(stacks[next := [Proc(next, NOWHERE)]], next, Enter(next))
      else Machine(stacks, next, Resume(Last(stacks[next]).saved))
    case Execute(ctx, loadable) =>
      if !loadable || Free(m).None? then m.(control := Continue)
      else
        var p := Free(m).value;
        Machine(m.stacks[t := Suspend(s, ctx) + [Proc(p, NOWHERE)]], t, Enter(p))
    case Halt(_) =>
      if |s| == 1 then Machine(m.stacks[t := [Proc(t, NOWHERE)]], t, Enter(t))
      else Machine(m.stacks[t := Front(s)], t, Resume(Last(Front(s)).saved))
  }

  /** Contexts are captured on the kernel stack of the running process. */
  ghost predicate Legal(m: Machine, e: Event)
    requires WellFormed(m)
  {
    InStack(Current(m), e.ctx.esp)
  }

  // ----- what every step keeps -------------------------------------------------------

  /** Every process of `n` was at the same place in `m`, is a base shell of its terminal,
      or is the new process `added` on top of the scheduled stack. */
  ghost predicate Grown(m: Machine, n: Machine, added: Option<nat>) {
    forall u, i :: IsProc(n, u, i) ==>
      || (IsProc(m, u, i) && n.stacks[u][i].pid == m.stacks[u][i].pid)
      || (i == 0 && n.stacks[u][i].pid == u)
      || (added == Some(n.stacks[u][i].pid) && u == m.scheduled < |m.stacks| && i == |m.stacks[u]|)
  }

  lemma GrownWellFormed(m: Machine, n: Machine, added: Option<nat>)
    requires WellFormed(m) && Grown(m, n, added)
    requires added.Some? ==> TERMINALS <= added.value < SLOTS && !InUse(m, added.value)
    requires |n.stacks| == TERMINALS && n.scheduled < TERMINALS && n.stacks[n.scheduled] != []
    ensures WellFormed(n)
  {
  }

  lemma NextWellFormed(m: Machine, e: Event)
    requires WellFormed(m)
    ensures WellFormed(Next(m, e))
  {
    var n, added := Next(m, e), if e.Execute? then Free(m) else None;
    NextGrown(m, e);
    assert n.scheduled < TERMINALS && n.stacks[n.scheduled] != [];
    hide InUse, WellFormed, Next, Grown;
    GrownWellFormed(m, n, added);
  }

  lemma NextGrown(m: Machine, e: Event)
    requires WellFormed(m)
    ensures |Next(m, e).stacks| == TERMINALS && Grown(m, Next(m, e), if e.Execute? then Free(m) else None)
  {
    hide InUse, FreeFrom;
    var t, n := m.scheduled, Next(m, e);
    match e {
      case Tick(_) =>
        assert forall u :: 0 <= u < TERMINALS && u != t && u != n.scheduled ==> n.stacks[u] == m.stacks[u];
      case _ =>
        assert forall u :: 0 <= u < TERMINALS && u != t ==> n.stacks[u] == m.stacks[u];
    }
  }

  ghost function Step(m: Machine, e: Event): (n: Machine)
    requires WellFormed(m)
    ensures WellFormed(n)
  {
    NextWellFormed(m, e);
    Next(m, e)
  }

  /** A process other than the running one. */
  ghost predicate Suspended(m: Machine, t: int, i: int) {
    IsProc(m, t, i) && !(t == m.scheduled && i == |m.stacks[t]| - 1)
  }

  /** Every suspended process resumes on its own kernel stack. */
  ghost predicate Placed(m: Machine) {
    forall t, i :: Suspended(m, t, i) ==> InStack(m.stacks[t][i].pid, m.stacks[t][i].saved.esp)
  }

  lemma StepPlaced(m: Machine, e: Event)
    requires WellFormed(m) && Placed(m) && Legal(m, e)
    ensures Placed(Step(m, e))
  {
    forall u, i | Suspended(Step(m, e), u, i)
      ensures InStack(Step(m, e).stacks[u][i].pid, Step(m, e).stacks[u][i].saved.esp)
    {
      SuspendedBefore(m, e, u, i);
    }
  }

  /** A process suspended after a step was so before it, or was running. */
  lemma SuspendedBefore(m: Machine, e: Event, u: int, i: int)
    requires WellFormed(m) && Suspended(Step(m, e), u, i)
    ensures IsProc(m, u, i)
    ensures Step(m, e).stacks[u][i] ==
            if u == m.scheduled && i == |m.stacks[u]| - 1 then m.stacks[u][i].(saved := e.ctx) else m.stacks[u][i]
  {
    hide InUse, FreeFrom;
  }

  /** Two suspended processes never share a resume point: their stacks are disjoint. */
  lemma ResumePointsDistinct(m: Machine, t: int, i: int, u: int, j: int)
    requires WellFormed(m) && Placed(m) && Suspended(m, t, i) && Suspended(m, u, j)
    requires m.stacks[t][i].saved.esp == m.stacks[u][j].saved.esp
    ensures t == u && i == j
  {
  }

  /** User pages, control blocks and kernel stacks of two pids do not overlap, and the
      stacks stay below the user pages. */
  lemma RegionsDisjoint(p: nat, q: nat)
    requires p < q < SLOTS
    ensures UserPage(p) + MB4 <= UserPage(q)
    ensures StackTop(q) + 4 <= PcbBase(p) && PcbBase(p) + PCB_SIZE < StackTop(p) < UserPage(0)
  {
  }

  // ----- runs ------------------------------------------------------------------------

  ghost function Run(m: Machine, es: seq<Event>): (n: Machine)
    requires WellFormed(m)
    ensures WellFormed(n)
    decreases |es|
  {
    if es == [] then m else Run(Step(m, es[0]), es[1..])
  }

  ghost predicate AllLegal(m: Machine, es: seq<Event>)
    requires WellFormed(m)
    decreases |es|
  {
    es == [] || (Legal(m, es[0]) && AllLegal(Step(m, es[0]), es[1..]))
  }

  /** Right after boot: terminal 0 runs its base shell, the others have not started. */
  const BOOT := Machine([[Proc(0, NOWHERE)], [], []], 0, Enter(0))

  lemma {:induction false} RunKeeps(m: Machine, es: seq<Event>)
    requires WellFormed(m) && Placed(m) && AllLegal(m, es)
    ensures Placed(Run(m, es))
    decreases |es|
  {
    if es != [] {
      StepPlaced(m, es[0]);
      RunKeeps(Step(m, es[0]), es[1..]);
    }
  }

  /** Every state reachable from boot. */
  lemma ReachableStates(es: seq<Event>)
    requires AllLegal(BOOT, es)
    ensures WellFormed(Run(BOOT, es)) && Placed(Run(BOOT, es))
  {
    hide Placed, WellFormed, AllLegal, Run;
    BootGood();
    RunKeeps(BOOT, es);
  }

  lemma BootGood()
    ensures WellFormed(BOOT) && Placed(BOOT)
  {
  }

  // ----- LIFO returns ----------------------------------------------------------------

  /** Terminal t keeps more than `d` processes in this state and in every later one. */
  ghost predicate StaysAbove(m: Machine, es: seq<Event>, t: nat, d: nat)
    requires WellFormed(m) && t < TERMINALS
    decreases |es|
  {
    && |m.stacks[t]| > d
    && (es == [] || StaysAbove(Step(m, es[0]), es[1..], t, d))
  }

  lemma StepKeepsBelow(m: Machine, e: Event, t: nat, d: nat)
    requires WellFormed(m) && t < TERMINALS && |m.stacks[t]| > d && |Step(m, e).stacks[t]| > d
    ensures Step(m, e).stacks[t][..d] == m.stacks[t][..d]
  {
  }

  lemma {:induction false} LowerProcessesKept(m: Machine, es: seq<Event>, t: nat, d: nat)
    requires WellFormed(m) && t < TERMINALS && StaysAbove(m, es, t, d)
    ensures var n := Run(m, es); |n.stacks| == TERMINALS && |n.stacks[t]| > d && n.stacks[t][..d] == m.stacks[t][..d]
    decreases |es|
  {
    if es != [] {
      var n := Step(m, es[0]);
      assert StaysAbove(n, es[1..], t, d);
      LowerProcessesKept(n, es[1..], t, d);
      StepKeepsBelow(m, es[0], t, d);
    }
  }

  /** A program executed from context `ctx` may run, be preempted and execute others for
      any length of time: when it halts, control is back at exactly `ctx`, in the caller,
      with the caller's terminal as the caller left it. */
  lemma HaltReturnsToCaller(m: Machine, ctx: Context, es: seq<Event>, last: Context)
    requires WellFormed(m) && Free(m).Some?
    requires StaysAbove(Step(m, Execute(ctx, true)), es, m.scheduled, |m.stacks[m.scheduled]|)
    requires var n := Run(Step(m, Execute(ctx, true)), es);
             n.scheduled == m.scheduled && |n.stacks[n.scheduled]| == |m.stacks[m.scheduled]| + 1
    ensures var r := Step(Run(Step(m, Execute(ctx, true)), es), Halt(last));
            && r.control == Resume(ctx) && r.scheduled == m.scheduled
            && r.stacks[r.scheduled] == Suspend(m.stacks[m.scheduled], ctx)
  {
    var t := m.scheduled;
    var d := |m.stacks[t]|;
    var called := Step(m, Execute(ctx, true));
    LowerProcessesKept(called, es, t, d);
    var n := Run(called, es);
    assert Front(n.stacks[t]) == n.stacks[t][..d] == called.stacks[t][..d] == Suspend(m.stacks[t], ctx);
  }

  /** A base shell that halts is loaded afresh, under the same pid on the same terminal. */
  lemma HaltRestartsShell(m: Machine, last: Context)
    requires WellFormed(m) && |m.stacks[m.scheduled]| == 1
    ensures var n := Step(m, Halt(last));
            && n.control == Enter(m.scheduled) && n.scheduled == m.scheduled
            && |n.stacks[n.scheduled]| == 1 && n.stacks[n.scheduled][0].pid == m.stacks[m.scheduled][0].pid == m.scheduled
  {
    assert IsProc(m, m.scheduled, 0);
  }

  /** A program that starts gets the least unused pid from 3 up, on top of its caller, who
      is suspended at the call; one that does not start leaves everything to its caller. */
  lemma ExecuteStarts(m: Machine, ctx: Context, loadable: bool)
    requires WellFormed(m)
    ensures var n, t := Step(m, Execute(ctx, loadable)), m.scheduled;
            if loadable && exists q :: 3 <= q < 6 && !InUse(m, q)
            then
              && n.control.Enter? && n.scheduled == t && |n.stacks[t]| == |m.stacks[t]| + 1
              && 3 <= n.control.pid < 6 && !InUse(m, n.control.pid) && (forall q :: 3 <= q < n.control.pid ==> InUse(m, q))
              && n.stacks[t][|m.stacks[t]|].pid == n.control.pid
              && n.stacks[t][|m.stacks[t]| - 1] == Last(m.stacks[t]).(saved := ctx)
              && n.stacks[t][..|m.stacks[t]| - 1] == Front(m.stacks[t])
            else n == m.(control := Continue)
  {
    hide WellFormed;
    RunningHere(m);
  }

  lemma RunningHere(m: Machine)
    requires WellFormed(m)
    ensures |m.stacks| == TERMINALS && m.scheduled < TERMINALS && m.stacks[m.scheduled] != []
  {
  }

  /** The first tick to a terminal that has not started runs its base shell there. */
  lemma TickStarts(m: Machine, ctx: Context)
    requires WellFormed(m) && m.stacks[(m.scheduled + 1) % TERMINALS] == []
    ensures var n, next := Step(m, Tick(ctx)), (m.scheduled + 1) % TERMINALS;
            && n.control == Enter(next) && n.scheduled == next
            && |n.stacks[next]| == 1 && n.stacks[next][0].pid == next
            && n.stacks[m.scheduled] == Suspend(m.stacks[m.scheduled], ctx)
  {
  }

  /** A step changes no stack but the running one and that of a terminal it starts. */
  lemma OthersKept(m: Machine, e: Event, u: nat)
    requires WellFormed(m) && u < TERMINALS && u != m.scheduled
    requires e.Tick? ==> m.stacks[u] != [] || u != (m.scheduled + 1) % TERMINALS
    ensures Step(m, e).stacks[u] == m.stacks[u]
  {
  }

  // ----- preemption ------------------------------------------------------------------

  lemma TickSwitches(m: Machine, e: Event)
    requires WellFormed(m) && e.Tick?
    ensures var n, next := Step(m, e), (m.scheduled + 1) % TERMINALS;
            && n.scheduled == next != m.scheduled && |n.stacks| == TERMINALS
            && n.stacks[m.scheduled] == Suspend(m.stacks[m.scheduled], e.ctx)
            && (m.stacks[next] != [] ==>
                  n.stacks[next] == m.stacks[next] && n.control == Resume(Last(m.stacks[next]).saved))
  {
  }

  ghost predicate NeverScheduled(m: Machine, es: seq<Event>, t: nat)
    requires WellFormed(m)
    decreases |es|
  {
    && m.scheduled != t
    && (es == [] || NeverScheduled(Step(m, es[0]), es[1..], t))
  }

  lemma {:induction false} DescheduledFrozen(m: Machine, es: seq<Event>, t: nat)
    requires WellFormed(m) && t < TERMINALS && m.stacks[t] != [] && NeverScheduled(m, es, t)
    ensures var n := Run(m, es); |n.stacks| == TERMINALS && n.stacks[t] == m.stacks[t] && n.scheduled != t
    decreases |es|
  {
    if es != [] {
      DescheduledFrozen(Step(m, es[0]), es[1..], t);
    }
  }

  lemma ResumesAfter(off: Machine, es: seq<Event>, t: nat, last: Context)
    requires WellFormed(off) && t < TERMINALS && off.stacks[t] != [] && NeverScheduled(off, es, t)
    requires (Run(off, es).scheduled + 1) % TERMINALS == t
    ensures var r := Step(Run(off, es), Tick(last));
            && r.control == Resume(Last(off.stacks[t]).saved) && r.scheduled == t
            && |r.stacks| == TERMINALS && r.stacks[t] == off.stacks[t]
  {
    hide Next, Step, Run, NeverScheduled;
    DescheduledFrozen(off, es, t);
    TickSwitches(Run(off, es), Tick(last));
  }

  /** A preempted process goes on exactly where the tick stopped it, whatever the other
      terminals did meanwhile. */
  lemma PreemptedResumes(m: Machine, ctx: Context, es: seq<Event>, last: Context)
    requires WellFormed(m)
    requires NeverScheduled(Step(m, Tick(ctx)), es, m.scheduled)
    requires (Run(Step(m, Tick(ctx)), es).scheduled + 1) % TERMINALS == m.scheduled
    ensures var r := Step(Run(Step(m, Tick(ctx)), es), Tick(last));
            && r.control == Resume(ctx) && r.scheduled == m.scheduled
            && r.stacks[r.scheduled] == Suspend(m.stacks[m.scheduled], ctx)
  {
    hide Next;
    TickSwitches(m, Tick(ctx));
    ResumesAfter(Step(m, Tick(ctx)), es, m.scheduled, last);
  }
}
