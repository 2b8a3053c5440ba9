/** One blinking character of blink.S and its clock. A pool slot is free when its location
    is 0. Pointers are slot numbers, NULL is -1; the struct's fields are 16-bit. */
module BlinkNode {
  import opened Bytes
  import opened Platform

  const POOL := CELLS
  const NULL := -1
  const WORD := 0x1_0000

  datatype Node = Node(location: nat, onChar: byte, offChar: byte, onLength: nat, offLength: nat,
                       countdown: nat, status: nat, next: int)

  /** A slot cleared by mp1_free. */
  const FREE := Node(0, NUL, NUL, 0, 0, 0, 0, NULL)

  predicate Words(b: Node) {
    && b.location < WORD && b.onLength < WORD && b.offLength < WORD && b.countdown < WORD && b.status < WORD
  }

  // ----- one node's clock ------------------------------------------------------------

  predicate On(b: Node) { b.status % 2 == 1 }

  /** What the node's cell should show. */
  function Face(b: Node): byte { if On(b) then b.onChar else b.offChar }

  /** decw, then `jg` on the signed result. */
  predicate Expires(b: Node) {
    var c := (b.countdown - 1) % WORD;
    c == 0 || c >= 0x8000
  }

  function Toggled(b: Node): Node {
    if On(b) then b.(countdown := b.offLength, status := b.status - 1)
    else b.(countdown := b.onLength, status := b.status + 1)
  }

  function Ticked(b: Node): (n: Node)
    ensures Words(b) ==> Words(n)
    ensures n.location == b.location && n.next == b.next
  {
    if Expires(b) then Toggled(b) else b.(countdown := (b.countdown - 1) % WORD)
  }

  function TickedTimes(b: Node, k: nat): Node {
    if k == 0 then b else Ticked(TickedTimes(b, k - 1))
  }

  /** The ticks a phase of nominal length `length` takes: a countdown that starts at 0 or
      above 0x8000 is not positive as a signed number after one decrement. */
  function PhaseTicks(length: nat): (p: nat)
    ensures p > 0
  {
    if 1 <= length <= 0x8000 then length else 1
  }

  /** A node `m` ticks into its period, which starts with the on phase. */
  function AtTick(b: Node, m: nat): Node
    requires m < PhaseTicks(b.onLength) + PhaseTicks(b.offLength)
  {
    var on := PhaseTicks(b.onLength);
    if m < on then b.(status := 1, countdown := b.onLength - m)
    else b.(status := 0, countdown := b.offLength - (m - on))
  }

  lemma AtTickMoves(b: Node, m: nat)
    requires Words(b) && m < PhaseTicks(b.onLength) + PhaseTicks(b.offLength)
    ensures Ticked(AtTick(b, m)) ==
            AtTick(b, if m + 1 == PhaseTicks(b.onLength) + PhaseTicks(b.offLength) then 0 else m + 1)
  {
  }

  /** Where in its period a node is `k` ticks after it was added. */
  function PhasePos(b: Node, k: nat): (m: nat)
    ensures m < PhaseTicks(b.onLength) + PhaseTicks(b.offLength)
  {
    k % (PhaseTicks(b.onLength) + PhaseTicks(b.offLength))
  }

  lemma PhasePosMoves(b: Node, k: nat)
    ensures PhasePos(b, 0) == 0
    ensures PhasePos(b, k + 1) ==
            if PhasePos(b, k) + 1 == PhaseTicks(b.onLength) + PhaseTicks(b.offLength) then 0 else PhasePos(b, k) + 1
  {
    ModStep(k, PhaseTicks(b.onLength) + PhaseTicks(b.offLength));
  }

  lemma AtStart(b: Node)
    requires Words(b) && b.status == 1 && b.countdown == b.onLength
    ensures AtTick(b, 0) == b
  {
  }

  lemma {:induction false} PhaseAt(b: Node, k: nat)
    requires Words(b) && b.status == 1 && b.countdown == b.onLength
    ensures TickedTimes(b, k) == AtTick(b, PhasePos(b, k))
  {
    hide PhasePos, Ticked, AtTick, PhaseTicks;
    if k > 0 {
      PhaseAt(b, k - 1);
      AtTickMoves(b, PhasePos(b, k - 1));
      PhasePosMoves(b, k - 1);
    } else {
      PhasePosMoves(b, 0);
      AtStart(b);
    }
  }

  /** k ticks after it was added, for all 16-bit lengths: a node is on in the first part of
      each period, and its countdown is the phase's length less the ticks spent in it. */
  lemma Phase(b: Node, k: nat)
    requires Words(b) && b.status == 1 && b.countdown == b.onLength
    ensures var on := if 1 <= b.onLength <= 0x8000 then b.onLength else 1;
            var off := if 1 <= b.offLength <= 0x8000 then b.offLength else 1;
            var m, n := k % (on + off), TickedTimes(b, k);
            && (On(n) <==> m < on)
            && n.countdown == (if m < on then b.onLength - m else b.offLength - (m - on))
            && n == b.(status := n.status, countdown := n.countdown)
  {
    hide TickedTimes;
    PhaseAt(b, k);
    assert PhasePos(b, k) == k % (PhaseTicks(b.onLength) + PhaseTicks(b.offLength));
  }

  /** A phase under way ends with the tick that its countdown announces, not before. */
  lemma {:induction false} StillCounting(b: Node, k: nat)
    requires Words(b) && k < PhaseTicks(b.countdown)
    ensures TickedTimes(b, k) == b.(countdown := b.countdown - k)
    ensures Expires(TickedTimes(b, k)) <==> k + 1 == PhaseTicks(b.countdown)
  {
    hide Ticked, Expires, PhaseTicks;
    if k > 0 {
      StillCounting(b, k - 1);
      CountsOn(b, k - 1);
    }
    CountsOn(b, k);
  }

  lemma CountsOn(b: Node, k: nat)
    requires Words(b) && k < PhaseTicks(b.countdown)
    ensures var n := b.(countdown := b.countdown - k);
            && (Expires(n) <==> k + 1 == PhaseTicks(b.countdown))
            && (!Expires(n) ==> Ticked(n) == b.(countdown := b.countdown - (k + 1)))
  {
  }

  lemma ModStep(k: nat, p: nat)
    requires p > 0
    ensures (k + 1) % p == if k % p + 1 == p then 0 else k % p + 1
  {
    var q, r := k / p, k % p;
    assert k == q * p + r;
    if r + 1 == p {
      assert k + 1 == (q + 1) * p;
      ModIs(k + 1, q + 1, 0, p);
    } else {
      ModIs(k + 1, q, r + 1, p);
    }
  }

  lemma ModIs(n: nat, q: nat, r: nat, p: nat)
    requires p > 0 && n == q * p + r && r < p
    ensures n % p == r
  {
    var d, e := n / p - q, r - n % p;
    assert d * p == e;
    MulSmall(d, p);
  }

  lemma MulSmall(d: int, p: int)
    requires 0 < p && -p < d * p < p
    ensures d == 0
  {
  }

  /** The fields mp1_ioctl_sync copies. */
  predicate InStep(a: Node, b: Node) {
    && a.onLength == b.onLength && a.offLength == b.offLength
    && a.countdown == b.countdown && a.status == b.status
  }

  function WithClock(dst: Node, src: Node): (n: Node)
    ensures InStep(src, n) && n.onChar == dst.onChar && n.offChar == dst.offChar
    ensures n.location == dst.location && n.next == dst.next
  {
    dst.(onLength := src.onLength, offLength := src.offLength, countdown := src.countdown, status := src.status)
  }

  /** Two synchronised nodes stay so. */
  lemma {:induction false} StayInStep(a: Node, b: Node, k: nat)
    requires InStep(a, b)
    ensures InStep(TickedTimes(a, k), TickedTimes(b, k))
  {
    hide Ticked, InStep;
    if k > 0 {
      StayInStep(a, b, k - 1);
      TickInStep(TickedTimes(a, k - 1), TickedTimes(b, k - 1));
    }
  }

  lemma TickInStep(a: Node, b: Node)
    requires InStep(a, b)
    ensures InStep(Ticked(a), Ticked(b))
  {
  }
}
