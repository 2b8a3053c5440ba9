/** The three virtual terminals as their users see them: every terminal has its own
    screen, cursor and edit line, the keyboard acts on the displayed one and a program's
    output on the scheduled one. The Console module stores them in one live copy and three
    backing copies; here are the laws of the terminals, over whole runs. */
module Terminals {
  import opened Bytes
  import opened Platform
  import opened Screen

  /** `tbuf` is terminal_buffer, `ready` terminal_read_flag. */
  datatype World = World(terms: seq<Term>, disp: nat, tbuf: seq<byte>, ready: seq<bool>)

  datatype Event = Press(key: Key) | Write(sched: nat, bytes: seq<byte>) | Read(sched: nat)

  ghost predicate Sound(w: World) {
    && |w.terms| == |w.ready| == TERMINALS && |w.tbuf| == LINE && w.disp < TERMINALS
    && forall t :: 0 <= t < TERMINALS ==> Bounded(w.terms[t])
  }

  predicate EventOk(e: Event) {
    match e
    case Press(key) => KeyOk(key)
    case Write(sched, _) => sched < TERMINALS
    case Read(sched) => sched < TERMINALS
  }

  // ----- steps -----------------------------------------------------------------------

  ghost function AfterKey(w: World, key: Key): World
    requires Sound(w) && KeyOk(key)
  {
    var d := w.disp;
    var t := w.terms[d];
    var u := w.(terms := w.terms[d := Pressed(t, key, COLOR[d])]);
    match key
    case Switch(n) => w.(disp := n)
    case Enter => u.(tbuf := Blit(w.tbuf, 0, Edited(t)), ready := w.ready[d := true])
    case _ => u
  }

  /** A key other than a terminal switch. */
  lemma AfterKeyHere(w: World, key: Key)
    requires Sound(w) && KeyOk(key) && !key.Switch?
    ensures var t := w.terms[w.disp];
            AfterKey(w, key) == w.(terms := w.terms[w.disp := Pressed(t, key, COLOR[w.disp])],
                                   tbuf := if key.Enter? then Blit(w.tbuf, 0, Edited(t)) else w.tbuf,
                                   ready := if key.Enter? then w.ready[w.disp := true] else w.ready)
  {
  }

  lemma SoundKey(w: World, key: Key)
    requires Sound(w) && KeyOk(key)
    ensures w.disp < TERMINALS && |w.terms| == TERMINALS && Bounded(w.terms[w.disp])
    ensures Bounded(Pressed(w.terms[w.disp], key, COLOR[w.disp])) && Sound(AfterKey(w, key))
  {
  }

  ghost function AfterWrite(w: World, sched: nat, bytes: seq<byte>): World
    requires Sound(w) && sched < TERMINALS
  {
    w.(terms := w.terms[sched := PutAll(w.terms[sched], Visible(bytes), COLOR[sched])])
  }

  lemma WriteNothing(w: World, sched: nat)
    requires Sound(w) && sched < TERMINALS
    ensures AfterWrite(w, sched, []) == w
  {
  }

  /** One byte more. */
  lemma WriteMore(w: World, sched: nat, bytes: seq<byte>, n: nat)
    requires Sound(w) && sched < TERMINALS && n < |bytes|
    ensures var v, c := AfterWrite(w, sched, bytes[..n]), if bytes[n] == NUL then SPACE else bytes[n];
            && sched < |v.terms| && Bounded(v.terms[sched])
            && AfterWrite(w, sched, bytes[..n + 1]) == v.(terms := v.terms[sched := Put(v.terms[sched], c, COLOR[sched])])
  {
    hide Put, Visible, Bounded;
    VisibleSnoc(bytes, n);
    PutAllSnoc(w.terms[sched], Visible(bytes[..n]), if bytes[n] == NUL then SPACE else bytes[n], COLOR[sched]);
  }

  ghost function AfterRead(w: World, sched: nat): World
    requires Sound(w) && sched < TERMINALS
  {
    w.(tbuf := Zeros(LINE), ready := w.ready[sched := false])
  }

  lemma SoundRead(w: World, sched: nat)
    requires Sound(w) && sched < TERMINALS
    ensures Sound(AfterRead(w, sched))
  {
  }

  ghost function Step(w: World, e: Event): (n: World)
    requires Sound(w) && EventOk(e)
    ensures Sound(n)
  {
    match e
    case Press(key) => SoundKey(w, key); AfterKey(w, key)
    case Write(sched, bytes) => AfterWrite(w, sched, bytes)
    case Read(sched) => AfterRead(w, sched)
  }

  /** Every reachable state is sound: in any mixture of typing, terminal switching and
      program output, no cursor leaves its screen and no line outgrows its cursor. */
  ghost function Run(w: World, es: seq<Event>): (n: World)
    requires Sound(w) && forall e :: e in es ==> EventOk(e)
    ensures Sound(n)
    decreases |es|
  {
    if es == [] then w else Run(Step(w, es[0]), es[1..])
  }

  /** A read goes on only when a line has been entered on its terminal. */
  ghost predicate ReadsReady(w: World, es: seq<Event>)
    requires Sound(w) && forall e :: e in es ==> EventOk(e)
    decreases |es|
  {
    es == [] || (
      assert EventOk(es[0]);
      (es[0].Read? ==> w.ready[es[0].sched]) && ReadsReady(Step(w, es[0]), es[1..]))
  }

  predicate NoRead(es: seq<Event>) { forall e :: e in es ==> !e.Read? }

  lemma {:induction false} NothingRead(w: World, es: seq<Event>)
    requires Sound(w) && (forall e :: e in es ==> EventOk(e)) && NoRead(es)
    ensures ReadsReady(w, es)
    decreases |es|
  {
    if es != [] {
      assert EventOk(es[0]);
      NothingRead(Step(w, es[0]), es[1..]);
    }
  }

  // ----- echo agreement --------------------------------------------------------------

  ghost predicate AllEcho(w: World) {
    Sound(w) && forall t :: 0 <= t < TERMINALS ==> Echoes(w.terms[t])
  }

  /** Programs write only to terminals with no line under edit. */
  ghost predicate Quiet(w: World, es: seq<Event>)
    requires Sound(w) && forall e :: e in es ==> EventOk(e)
    decreases |es|
  {
    es == [] || (
      assert EventOk(es[0]);
      (es[0].Write? ==> w.terms[es[0].sched].count == 0) && Quiet(Step(w, es[0]), es[1..]))
  }

  lemma {:induction false} EchoAgreement(w: World, es: seq<Event>)
    requires AllEcho(w) && (forall e :: e in es ==> EventOk(e)) && Quiet(w, es)
    ensures AllEcho(Run(w, es))
    decreases |es|
  {
    if es != [] {
      assert EventOk(es[0]);
      if es[0].Press? {
        PressedEchoes(w.terms[w.disp], es[0].key, COLOR[w.disp]);
      }
      EchoAgreement(Step(w, es[0]), es[1..]);
    }
  }

  /** Any other output hides the line, once it ends a row. */
  lemma OutputHidesLine(w: World, d: nat, canvas: seq<byte>, bytes: seq<byte>)
    requires Sound(w) && d < TERMINALS && NUL !in bytes && bytes != [] && IsNewline(bytes[|bytes| - 1])
    requires var t := w.terms[d]; Shows(t, canvas) && t.count > 0 && Blank(t.line[t.count - 1]) != SPACE
    ensures !AllEcho(Step(w, Write(d, bytes)))
  {
    hide Shows, Put, PutAll, Echoes;
    var front, c := bytes[..|bytes| - 1], bytes[|bytes| - 1];
    assert Visible(bytes) == bytes == front + [c];
    LineBreakHidesLine(w.terms[d], canvas, front, c, COLOR[d]);
    assert Step(w, Write(d, bytes)).terms[d] == PutAll(w.terms[d], front + [c], COLOR[d]);
  }

  // ----- line delivery ---------------------------------------------------------------

  /** The line that the keys pressed while terminal d was displayed spell, starting from
      `line`. */
  ghost function TypedLine(w: World, es: seq<Event>, d: nat, line: seq<byte>): seq<byte>
    requires Sound(w) && forall e :: e in es ==> EventOk(e)
    decreases |es|
  {
    if es == [] then line
    else TypedLine(Step(w, es[0]), es[1..], d,
                   if es[0].Press? && w.disp == d then Edit(line, es[0].key) else line)
  }

  lemma {:induction false} EditLineIsTyped(w: World, es: seq<Event>, d: nat)
    requires Sound(w) && (forall e :: e in es ==> EventOk(e)) && d < TERMINALS
    ensures Edited(Run(w, es).terms[d]) == TypedLine(w, es, d, Edited(w.terms[d]))
    decreases |es|
  {
    if es != [] {
      assert EventOk(es[0]);
      if es[0].Press? && w.disp == d {
        PressedEdits(w.terms[d], es[0].key, COLOR[d]);
      }
      EditLineIsTyped(Step(w, es[0]), es[1..], d);
    }
  }

  /** Lines hold no NUL, so that they survive as C strings. */
  lemma {:induction false} TypedHasNoNul(w: World, es: seq<Event>, d: nat, line: seq<byte>)
    requires Sound(w) && (forall e :: e in es ==> EventOk(e)) && NUL !in line && |line| <= LINE
    ensures NUL !in TypedLine(w, es, d, line) && |TypedLine(w, es, d, line)| <= LINE
    decreases |es|
  {
    if es != [] {
      TypedHasNoNul(Step(w, es[0]), es[1..], d, if es[0].Press? && w.disp == d then Edit(line, es[0].key) else line);
    }
  }

  predicate NoEnter(es: seq<Event>) { forall e :: e in es ==> e.Press? ==> e.key != Enter }

  lemma {:induction false} TbufKept(w: World, es: seq<Event>)
    requires Sound(w) && (forall e :: e in es ==> EventOk(e)) && NoEnter(es)
    ensures w.tbuf == Zeros(LINE) ==> Run(w, es).tbuf == Zeros(LINE)
    ensures NoRead(es) ==> Run(w, es).tbuf == w.tbuf && Run(w, es).ready == w.ready
    decreases |es|
  {
    if es != [] {
      TbufKept(Step(w, es[0]), es[1..]);
    }
  }

  /** What terminal_read finds in terminal_buffer. */
  function Pending(tbuf: seq<byte>): seq<byte> { tbuf[..CLength(tbuf)] }

  /** Whatever is typed on terminal d and then entered is pending, as edited, when d next
      reads, provided no Enter or read comes between; what terminal_buffer held beyond the
      line's length is pending after it. So the line is delivered exactly if it fills the
      buffer or terminal_buffer was empty from the line's length on. */
  lemma LineDelivery(w: World, es: seq<Event>, rest: seq<Event>)
    requires Sound(w) && (forall e :: e in es ==> EventOk(e)) && (forall e :: e in rest ==> EventOk(e))
    requires NUL !in Edited(w.terms[Run(w, es).disp]) && NoEnter(rest) && NoRead(rest)
    ensures var d, tbuf := Run(w, es).disp, Run(w, es).tbuf;
            var line := TypedLine(w, es, d, Edited(w.terms[d]));
            var n := Run(Step(Run(w, es), Press(Enter)), rest);
            && |line| <= LINE && n.ready[d] && Pending(n.tbuf) == line + Pending(tbuf[|line|..])
            && (Pending(n.tbuf) == line <==> |line| == LINE || tbuf[|line|] == NUL)
  {
    hide Run, TypedLine, CLength;
    var typed := Run(w, es);
    var d := typed.disp;
    var line := TypedLine(w, es, d, Edited(w.terms[d]));
    EditLineIsTyped(w, es, d);
    TypedHasNoNul(w, es, d, Edited(w.terms[d]));
    TbufKept(Step(typed, Press(Enter)), rest);
    EnteredPending(typed, line);
  }

  lemma EnteredPending(w: World, line: seq<byte>)
    requires Sound(w) && line == Edited(w.terms[w.disp]) && NUL !in line && |line| <= LINE
    ensures var n := Step(w, Press(Enter));
            && n.ready == w.ready[w.disp := true] && Pending(n.tbuf) == line + Pending(w.tbuf[|line|..])
            && (Pending(w.tbuf[|line|..]) == [] <==> |line| == LINE || w.tbuf[|line|] == NUL)
  {
    hide Pressed, CLength;
    var n, stale := Step(w, Press(Enter)), w.tbuf[|line|..];
    assert n.tbuf == line + stale;
    CLengthAfter(line, stale);
    assert Pending(n.tbuf) == line + Pending(stale);
    assert |line| < LINE ==> stale[0] == w.tbuf[|line|];
    FirstNul(stale);
  }

  lemma FirstNul(s: seq<byte>)
    ensures CLength(s) == 0 <==> s == [] || s[0] == NUL
  {
  }
}
