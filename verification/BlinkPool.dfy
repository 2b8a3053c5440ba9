/** The blinking characters as a list threaded through the pool of fish.c, and what the
    screen shows of them. */
module BlinkPool {
  import opened Bytes
  import opened Platform
  import opened BlinkNode

  // ----- the list --------------------------------------------------------------------

  /** The pointer to the node after position `i`. */
  function NextIn(list: seq<nat>, i: int): int {
    if 0 <= i + 1 < |list| then list[i + 1] else NULL
  }

  /** `list` is the linked list from `head`, each slot once. */
  ghost predicate Chain(pool: seq<Node>, head: int, list: seq<nat>) {
    && head == (if list == [] then NULL else list[0])
    && (forall i :: 0 <= i < |list| ==> list[i] < |pool|)
    && (forall i {:trigger NextIn(list, i)} :: 0 <= i < |list| ==> pool[list[i]].next == NextIn(list, i))
    && (forall i, j :: 0 <= i < j < |list| ==> list[i] != list[j])
  }

  /** The list's nodes are exactly the slots in use. */
  ghost predicate ExactlyUsed(pool: seq<Node>, list: seq<nat>) {
    forall slot :: 0 <= slot < |pool| ==> (slot in list <==> pool[slot].location != 0)
  }

  /** Every field in range, every location on the screen. */
  ghost predicate Sane(pool: seq<Node>) {
    |pool| == POOL && forall slot :: 0 <= slot < POOL ==> Words(pool[slot]) && pool[slot].location < POOL
  }

  /** A node as it is added: on, at the start of its phase. */
  function Fresh(user: Node): Node { user.(status := 1, countdown := user.onLength) }

  /** The first free slot from `i` on. */
  function FirstFree(pool: seq<Node>, i: nat): (k: nat)
    requires i <= |pool|
    ensures i <= k <= |pool| && (k < |pool| ==> pool[k].location == 0)
    ensures forall j :: i <= j < k ==> pool[j].location != 0
    decreases |pool| - i
  {
    if i == |pool| || pool[i].location == 0 then i else FirstFree(pool, i + 1)
  }

  /** A new node, on, in the first free slot and in front of the list. */
  function Added(pool: seq<Node>, head: int, user: Node): (r: (seq<Node>, int))
    requires FirstFree(pool, 0) < |pool|
  {
    var slot := FirstFree(pool, 0);
    (pool[slot := Fresh(user).(next := head)], slot)
  }

  /** Position in the list of the first node at `location`. */
  function FindIn(pool: seq<Node>, list: seq<nat>, location: nat, i: nat): (k: nat)
    requires forall j :: 0 <= j < |list| ==> list[j] < |pool|
    requires i <= |list|
    ensures i <= k <= |list| && (k < |list| ==> pool[list[k]].location == location)
    ensures forall j :: i <= j < k ==> pool[list[j]].location != location
    decreases |list| - i
  {
    if i == |list| || pool[list[i]].location == location then i else FindIn(pool, list, location, i + 1)
  }

  /** The list without its k-th node. */
  function Without(list: seq<nat>, k: nat): (l: seq<nat>)
    requires k < |list|
    ensures |l| == |list| - 1 && forall i :: 0 <= i < |l| ==> l[i] == list[if i < k then i else i + 1]
  {
    list[..k] + list[k + 1..]
  }

  /** The pool after node `k` of the list is unlinked and cleared. */
  ghost predicate UnlinkedFrom(pool: seq<Node>, list: seq<nat>, k: nat, n: seq<Node>)
    requires |pool| == |n| == POOL && k < |list| && forall i :: 0 <= i < |list| ==> list[i] < POOL
  {
    && n[list[k]] == FREE
    && forall s :: 0 <= s < POOL && s != list[k] ==>
         n[s] == if k > 0 && s == list[k - 1] then pool[s].(next := pool[list[k]].next) else pool[s]
  }

  /** A node without its link. */
  function Bare(b: Node): Node { b.(next := NULL) }

  // ----- what the screen shows -------------------------------------------------------

  /** The screen after one node's turn in a tick. */
  function Drawn(screen: seq<byte>, b: Node): seq<byte>
    requires |screen| == SCREEN && b.location < POOL
  {
    if Expires(b) then screen[2 * b.location := Face(Toggled(b))] else screen
  }

  /** The screen after the turns of the first `i` nodes. */
  function Redrawn(pool: seq<Node>, list: seq<nat>, screen: seq<byte>, i: nat): (r: seq<byte>)
    requires Sane(pool) && |screen| == SCREEN && i <= |list| && forall j :: 0 <= j < |list| ==> list[j] < POOL
    ensures |r| == SCREEN
  {
    if i == 0 then screen else Drawn(Redrawn(pool, list, screen, i - 1), pool[list[i - 1]])
  }

  lemma NoneDrawn(pool: seq<Node>, list: seq<nat>, screen: seq<byte>)
    requires Sane(pool) && |screen| == SCREEN && forall j :: 0 <= j < |list| ==> list[j] < POOL
    ensures Redrawn(pool, list, screen, 0) == screen
  {
  }

  lemma NextDrawn(pool: seq<Node>, list: seq<nat>, screen: seq<byte>, i: nat)
    requires Sane(pool) && |screen| == SCREEN && i < |list| && forall j :: 0 <= j < |list| ==> list[j] < POOL
    ensures pool[list[i]].location < POOL
    ensures Redrawn(pool, list, screen, i + 1) == Drawn(Redrawn(pool, list, screen, i), pool[list[i]])
  {
  }

  ghost predicate DistinctLocations(pool: seq<Node>, list: seq<nat>) {
    && (forall i :: 0 <= i < |list| ==> list[i] < |pool|)
    && forall i, j :: 0 <= i < j < |list| ==> pool[list[i]].location != pool[list[j]].location
  }

  /** Every node's cell shows the character its status selects, except perhaps those of the
      nodes in `stale`. */
  ghost predicate Shown(pool: seq<Node>, list: seq<nat>, screen: seq<byte>, stale: set<nat>) {
    forall i :: 0 <= i < |list| && list[i] !in stale ==>
      && list[i] < |pool| && 2 * pool[list[i]].location < |screen|
      && screen[2 * pool[list[i]].location] == Face(pool[list[i]])
  }

  /** If no two nodes share a location, all but the stale ones are shown. */
  ghost predicate Display(pool: seq<Node>, list: seq<nat>, screen: seq<byte>, stale: set<nat>) {
    && (forall slot :: slot in stale ==> slot in list)
    && (DistinctLocations(pool, list) ==> Shown(pool, list, screen, stale))
  }

  /** The stale nodes that a tick does not redraw. */
  ghost function Unexpired(pool: seq<Node>, stale: set<nat>): set<nat> {
    set slot | slot in stale && slot < |pool| && !Expires(pool[slot])
  }

  /** A node added at a location of its own is shown, and the others as before. */
  lemma AddShows(pool: seq<Node>, list: seq<nat>, screen: seq<byte>, stale: set<nat>, slot: nat, b: Node)
    requires |pool| == POOL && |screen| == SCREEN && slot < POOL && slot !in list && On(b) && b.location < POOL
    requires forall i :: 0 <= i < |list| ==> list[i] < POOL
    requires Display(pool, list, screen, stale)
    ensures Display(pool[slot := b], [slot] + list, screen[2 * b.location := b.onChar], stale)
    ensures DistinctLocations(pool[slot := b], [slot] + list) <==>
            && DistinctLocations(pool, list)
            && forall i :: 0 <= i < |list| ==> pool[list[i]].location != b.location
  {
    var n, l := pool[slot := b], [slot] + list;
    forall i | 0 < i < |l|
      ensures l[i] == list[i - 1] && n[l[i]] == pool[list[i - 1]]
    {
      assert list[i - 1] in list;
    }
    if DistinctLocations(n, l) {
      forall i, k | 0 <= i < k < |list|
        ensures pool[list[i]].location != pool[list[k]].location
      {
        assert n[l[i + 1]].location != n[l[k + 1]].location;
      }
      forall i | 0 <= i < |list|
        ensures pool[list[i]].location != b.location
      {
        assert n[l[0]].location != n[l[i + 1]].location;
      }
    }
  }

  /** Removing a node uncovers nothing if it shared its location with none. */
  lemma RemoveShows(pool: seq<Node>, list: seq<nat>, screen: seq<byte>, stale: set<nat>, k: nat, n: seq<Node>)
    requires |pool| == |n| == POOL && k < |list| && Chain(pool, list[0], list) && UnlinkedFrom(pool, list, k, n)
    requires Display(pool, list, screen, stale)
    ensures Display(n, Without(list, k), screen,
                    if DistinctLocations(pool, list) then stale - {list[k]} else Elements(Without(list, k)))
    ensures DistinctLocations(pool, list) ==> DistinctLocations(n, Without(list, k))
  {
    hide Chain, UnlinkedFrom, Without, DistinctLocations;
    var l := Without(list, k);
    KeptNodes(pool, list, k, n);
    KeptDistinct(pool, list, k, n);
    forall slot | slot in stale && slot != list[k]
      ensures slot in l
    {
      var j :| 0 <= j < |list| && list[j] == slot;
      assert l[if j < k then j else j - 1] == slot;
    }
  }

  /** Removing a node changes no other but in its link. */
  lemma KeptNodes(pool: seq<Node>, list: seq<nat>, k: nat, n: seq<Node>)
    requires |pool| == |n| == POOL && k < |list| && Chain(pool, list[0], list) && UnlinkedFrom(pool, list, k, n)
    ensures forall i :: 0 <= i < |list| ==> list[i] < POOL
    ensures forall i {:trigger Without(list, k)[i]} :: 0 <= i < |list| - 1 ==>
              var slot := Without(list, k)[i]; slot in list && slot != list[k] && Bare(n[slot]) == Bare(pool[slot])
  {
    hide Without;
    forall i | 0 <= i < |list| - 1
      ensures var slot := Without(list, k)[i]; slot in list && slot != list[k] && Bare(n[slot]) == Bare(pool[slot])
    {
      assert Without(list, k)[i] == list[if i < k then i else i + 1];
    }
  }

  lemma KeptDistinct(pool: seq<Node>, list: seq<nat>, k: nat, n: seq<Node>)
    requires |pool| == |n| == POOL && k < |list| && Chain(pool, list[0], list) && UnlinkedFrom(pool, list, k, n)
    ensures DistinctLocations(pool, list) ==> DistinctLocations(n, Without(list, k))
  {
    hide Chain, UnlinkedFrom, Without;
    KeptNodes(pool, list, k, n);
    var l := Without(list, k);
    assert forall i :: 0 <= i < |l| ==> l[i] == list[if i < k then i else i + 1];
    assert forall i :: 0 <= i < |l| ==> n[l[i]].location == pool[l[i]].location;
  }

  /** After sync the target's cell shows its off character. */
  lemma SyncShows(pool: seq<Node>, list: seq<nat>, screen: seq<byte>, stale: set<nat>, j: nat, b: Node)
    requires |pool| == POOL && |screen| == SCREEN && j < |list| && b.location < POOL
    requires forall i :: 0 <= i < |list| ==> list[i] < POOL
    requires forall i, k :: 0 <= i < k < |list| ==> list[i] != list[k]
    requires b.location == pool[list[j]].location && Display(pool, list, screen, stale)
    ensures Display(pool[list[j] := b], list, screen[2 * b.location := b.offChar],
                    if Face(b) == b.offChar then stale - {list[j]} else stale + {list[j]})
  {
    var n := pool[list[j] := b];
    forall i | 0 <= i < |list| && i != j
      ensures n[list[i]] == pool[list[i]]
    {
    }
    if DistinctLocations(n, list) {
      forall i, k | 0 <= i < k < |list|
        ensures pool[list[i]].location != pool[list[k]].location
      {
        assert n[list[i]].location != n[list[k]].location;
      }
    }
  }

  /** The nodes whose countdown does not end their phase within `k` ticks. */
  ghost function Counting(pool: seq<Node>, stale: set<nat>, k: nat): set<nat> {
    set slot | slot in stale && slot < |pool| && k < PhaseTicks(pool[slot].countdown)
  }

  lemma StaleListed(pool: seq<Node>, list: seq<nat>, screen: seq<byte>, stale: set<nat>)
    requires Display(pool, list, screen, stale) && Sane(pool) && forall i :: 0 <= i < |list| ==> list[i] < POOL
    ensures forall slot :: slot in stale ==> slot in list && slot < POOL && Words(pool[slot])
    ensures Counting(pool, stale, 0) == stale
  {
  }

  lemma StaleTicks(pool: seq<Node>, now: seq<Node>, list: seq<nat>, stale: set<nat>, k: nat)
    requires |pool| == |now| == POOL && forall slot :: slot in stale ==> slot in list && slot < POOL && Words(pool[slot])
    requires forall s :: 0 <= s < POOL && s in list ==> now[s] == TickedTimes(pool[s], k)
    ensures Unexpired(now, Counting(pool, stale, k)) == Counting(pool, stale, k + 1)
  {
    hide PhaseTicks, Expires, TickedTimes;
    forall slot | slot in stale && k < PhaseTicks(pool[slot].countdown)
      ensures Expires(now[slot]) <==> k + 1 == PhaseTicks(pool[slot].countdown)
    {
      StillCounting(pool[slot], k);
    }
  }

  lemma {:induction false} TicksStay(b: Node, k: nat)
    ensures TickedTimes(b, k).location == b.location
  {
    if k > 0 {
      TicksStay(b, k - 1);
    }
  }

  /** The countdown ends within `k` ticks; one of 0 or above 0x8000 ends with the first. */
  predicate Ended(b: Node, k: nat) { k >= if 1 <= b.countdown <= 0x8000 then b.countdown else 1 }

  lemma WaitShows(pool: seq<Node>, n: seq<Node>, list: seq<nat>, screen: seq<byte>, was: set<nat>, k: nat)
    requires Display(n, list, screen, Counting(pool, was, k)) && |pool| == |n| && forall i :: 0 <= i < |list| ==> list[i] < |pool|
    requires forall s :: 0 <= s < |pool| ==> n[s] == if s in list then TickedTimes(pool[s], k) else pool[s]
    ensures DistinctLocations(pool, list) ==>
              forall i :: 0 <= i < |list| && (list[i] !in was || Ended(pool[list[i]], k)) ==>
                && 2 * n[list[i]].location < |screen| && screen[2 * n[list[i]].location] == Face(n[list[i]])
  {
    hide TickedTimes;
    forall s | 0 <= s < |pool|
      ensures n[s].location == pool[s].location
    {
      TicksStay(pool[s], k);
    }
    if DistinctLocations(pool, list) {
      assert Shown(n, list, screen, Counting(pool, was, k));
      forall i | 0 <= i < |list| && (list[i] !in was || Ended(pool[list[i]], k))
        ensures list[i] !in Counting(pool, was, k)
      {
      }
    }
  }

  lemma {:induction false} RedrawnAt(pool: seq<Node>, list: seq<nat>, screen: seq<byte>, i: nat, j: nat)
    requires Sane(pool) && |screen| == SCREEN && i <= |list| && j < |list| && DistinctLocations(pool, list)
    ensures Redrawn(pool, list, screen, i)[2 * pool[list[j]].location] ==
            if j < i && Expires(pool[list[j]]) then Face(Ticked(pool[list[j]])) else screen[2 * pool[list[j]].location]
  {
    if i > 0 {
      RedrawnAt(pool, list, screen, i - 1, j);
    }
  }

  /** A tick redraws the nodes whose phase ends; the others keep their character. */
  lemma TickShows(pool: seq<Node>, n: seq<Node>, list: seq<nat>, screen: seq<byte>, stale: set<nat>)
    requires Sane(pool) && |n| == POOL && |screen| == SCREEN && Display(pool, list, screen, stale)
    requires forall i :: 0 <= i < |list| ==> list[i] < POOL && n[list[i]] == Ticked(pool[list[i]])
    ensures Display(n, list, Redrawn(pool, list, screen, |list|), Unexpired(pool, stale))
    ensures DistinctLocations(pool, list) ==> DistinctLocations(n, list)
  {
    if DistinctLocations(n, list) {
      forall i, k | 0 <= i < k < |list|
        ensures pool[list[i]].location != pool[list[k]].location
      {
        assert n[list[i]].location != n[list[k]].location;
      }
      forall i | 0 <= i < |list| && list[i] !in Unexpired(pool, stale)
        ensures Redrawn(pool, list, screen, |list|)[2 * pool[list[i]].location] == Face(n[list[i]])
      {
        RedrawnAt(pool, list, screen, |list|, i);
      }
    }
  }

  // ----- relinking ------------------------------------------------------------------

  /** The first `i` nodes of the list have ticked. */
  ghost predicate Partly(before: seq<Node>, now: seq<Node>, list: seq<nat>, i: nat)
    requires i <= |list|
  {
    |now| == |before| && forall s :: 0 <= s < |now| ==> now[s] == if s in list[..i] then Ticked(before[s]) else before[s]
  }

  lemma NoneTicked(pool: seq<Node>, list: seq<nat>)
    ensures Partly(pool, pool, list, 0)
  {
  }

  lemma PartlyStep(before: seq<Node>, now: seq<Node>, list: seq<nat>, i: nat)
    requires i < |list| && Partly(before, now, list, i) && list[i] < |now|
    requires forall j, k :: 0 <= j < k < |list| ==> list[j] != list[k]
    ensures now[list[i]] == before[list[i]]
    ensures Partly(before, now[list[i] := Ticked(now[list[i]])], list, i + 1)
  {
  }

  lemma AllTicked(before: seq<Node>, now: seq<Node>, head: int, list: seq<nat>)
    requires Partly(before, now, list, |list|) && Sane(before) && Chain(before, head, list) && ExactlyUsed(before, list)
    ensures Sane(now) && Chain(now, head, list) && ExactlyUsed(now, list)
    ensures forall s :: 0 <= s < POOL ==> now[s] == if s in list then Ticked(before[s]) else before[s]
  {
  }

  lemma SaneAt(pool: seq<Node>)
    requires Sane(pool)
    ensures |pool| == POOL && forall s :: 0 <= s < POOL ==> Words(pool[s]) && pool[s].location < POOL
  {
  }

  /** Changing one node's clock leaves the list alone. */
  lemma ClockKeeps(pool: seq<Node>, head: int, list: seq<nat>, slot: nat, b: Node)
    requires Sane(pool) && Chain(pool, head, list) && ExactlyUsed(pool, list) && slot < POOL && Words(b)
    requires b.location == pool[slot].location && b.next == pool[slot].next
    ensures Sane(pool[slot := b]) && Chain(pool[slot := b], head, list) && ExactlyUsed(pool[slot := b], list)
  {
  }

  lemma ChainShape(pool: seq<Node>, head: int, list: seq<nat>)
    requires Chain(pool, head, list)
    ensures forall i :: 0 <= i < |list| ==> list[i] < |pool|
    ensures forall i {:trigger NextIn(list, i)} :: 0 <= i < |list| ==> pool[list[i]].next == NextIn(list, i)
    ensures forall i, j :: 0 <= i < j < |list| ==> list[i] != list[j]
    ensures head == if list == [] then NULL else list[0]
  {
  }

  lemma UnlinkedSlots(pool: seq<Node>, list: seq<nat>, k: nat, n: seq<Node>)
    requires |pool| == |n| == POOL && k < |list| && (forall i :: 0 <= i < |list| ==> list[i] < POOL)
    requires UnlinkedFrom(pool, list, k, n)
    ensures n[list[k]] == FREE
    ensures forall s :: 0 <= s < POOL && s != list[k] ==> n[s] == pool[s].(next := n[s].next)
  {
  }

  lemma UnlinkedNext(pool: seq<Node>, list: seq<nat>, k: nat, n: seq<Node>, j: nat)
    requires |pool| == |n| == POOL && k < |list| && Chain(pool, list[0], list) && UnlinkedFrom(pool, list, k, n)
    requires j < |list| && j != k
    ensures list[j] < POOL
    ensures n[list[j]].next == if j + 1 == k then pool[list[k]].next else pool[list[j]].next
    ensures pool[list[j]].next == NextIn(list, j) && pool[list[k]].next == NextIn(list, k)
  {
  }

  lemma UnlinkedChain(pool: seq<Node>, list: seq<nat>, k: nat, n: seq<Node>)
    requires |pool| == |n| == POOL && k < |list| && Chain(pool, list[0], list) && UnlinkedFrom(pool, list, k, n)
    ensures Chain(n, if Without(list, k) == [] then NULL else Without(list, k)[0], Without(list, k))
  {
    hide Without;
    var l := Without(list, k);
    forall i | 0 <= i < |l|
      ensures l[i] < POOL && n[l[i]].next == NextIn(l, i)
    {
      var j := if i < k then i else i + 1;
      assert l[i] == list[j] && (i + 1 < |l| ==> l[i + 1] == list[if i + 1 < k then i + 1 else i + 2]);
      UnlinkedNext(pool, list, k, n, j);
    }
    forall i, j | 0 <= i < j < |l|
      ensures l[i] != l[j]
    {
      assert list[if i < k then i else i + 1] != list[if j < k then j else j + 1];
    }
    assert l != [] ==> l[0] == list[if 0 < k then 0 else 1];
  }

  lemma UnlinkedSane(pool: seq<Node>, list: seq<nat>, k: nat, n: seq<Node>)
    requires Sane(pool) && |n| == POOL && k < |list| && Chain(pool, list[0], list) && UnlinkedFrom(pool, list, k, n)
    ensures Sane(n)
  {
  }

  lemma UnlinkedUsed(pool: seq<Node>, list: seq<nat>, k: nat, n: seq<Node>)
    requires |pool| == |n| == POOL && k < |list| && Chain(pool, list[0], list) && UnlinkedFrom(pool, list, k, n)
    requires ExactlyUsed(pool, list)
    ensures ExactlyUsed(n, Without(list, k))
  {
  }

  /** Putting a node into a free slot, in front of the list. */
  lemma PrependedChain(pool: seq<Node>, list: seq<nat>, slot: nat, b: Node)
    requires |pool| == POOL && slot < POOL && slot !in list
    requires Chain(pool, if list == [] then NULL else list[0], list)
    requires b.next == if list == [] then NULL else list[0]
    ensures Chain(pool[slot := b], slot, [slot] + list)
  {
    var n, l := pool[slot := b], [slot] + list;
    forall i | 0 < i < |l|
      ensures l[i] == list[i - 1] != slot
    {
      assert list[i - 1] in list;
    }
    forall i | 0 <= i < |l|
      ensures n[l[i]].next == NextIn(l, i)
    {
      assert i > 0 ==> pool[list[i - 1]].next == NextIn(list, i - 1);
    }
  }

  lemma PrependedUsed(pool: seq<Node>, list: seq<nat>, slot: nat, b: Node)
    requires |pool| == POOL && slot < POOL && pool[slot].location == 0 && ExactlyUsed(pool, list)
    ensures slot !in list
    ensures ExactlyUsed(pool[slot := b], [slot] + list) <==> b.location != 0
  {
    var n, l := pool[slot := b], [slot] + list;
    assert slot in l;
    forall s | 0 <= s < |n| && s != slot
      ensures s in l <==> n[s].location != 0
    {
      assert s in l <==> s in list;
    }
  }

  /** The new list is a list again exactly if its slot was not in it before. */
  lemma AddLinks(pool: seq<Node>, list: seq<nat>, slot: nat, b: Node)
    requires Sane(pool) && slot < POOL && Words(b) && b.location < POOL
    requires Chain(pool, if list == [] then NULL else list[0], list)
    requires b.next == if list == [] then NULL else list[0]
    ensures Sane(pool[slot := b])
    ensures Chain(pool[slot := b], slot, [slot] + list) <==> slot !in list
  {
    var l := [slot] + list;
    if slot in list {
      var j :| 0 <= j < |list| && list[j] == slot;
      assert l[0] == l[j + 1];
    } else {
      PrependedChain(pool, list, slot, b);
    }
  }

  /** After an add at location 0, the next add that succeeds makes the list's first node
      point at itself: no sequence of slots is the list any more, and a walk along it, like
      that of the tick, never comes to an end. */
  lemma AddedAtZero(pool: seq<Node>, head: int, u: Node, v: Node, list: seq<nat>)
    requires FirstFree(pool, 0) < |pool| && u.location == 0
    ensures var (p, h) := Added(pool, head, u);
            FirstFree(p, 0) < |p| &&
            var (q, g) := Added(p, h, v);
            g == h && 0 <= g < |q| && q[g].next == g && !Chain(q, g, list)
  {
    var (p, h) := Added(pool, head, u);
    assert p[h].location == 0 && 0 <= h < |p|;
    FirstFreeIs(p, h);
    var (q, g) := Added(p, h, v);
    assert q[g].next == g;
    hide Chain;
    SelfLoop(q, g, list);
  }

  lemma FirstFreeIs(pool: seq<Node>, k: nat)
    requires k < |pool| && pool[k].location == 0 && forall j :: 0 <= j < k ==> pool[j].location != 0
    ensures FirstFree(pool, 0) == k
  {
  }

  lemma SelfLoop(pool: seq<Node>, head: nat, list: seq<nat>)
    requires head < |pool| && pool[head].next == head
    ensures !Chain(pool, head, list)
  {
    assert list != [] && list[0] == head ==> NextIn(list, 0) == NULL || list[1] == NextIn(list, 0);
  }

  // ----- runs ------------------------------------------------------------------------

  datatype Event = Elapse | Insert(user: Node)

  /** The nodes of the list, newest first. */
  ghost function Contents(pool: seq<Node>, list: seq<nat>): (c: seq<Node>)
    requires forall i :: 0 <= i < |list| ==> list[i] < |pool|
    ensures |c| == |list|
  {
    seq(|list|, i requires 0 <= i < |list| => Bare(pool[list[i]]))
  }

  /** What ticks and adds make of the nodes. */
  function Play(nodes: seq<Node>, es: seq<Event>): (r: seq<Node>)
    ensures |nodes| <= |r| && (|nodes| <= POOL ==> |r| <= POOL)
  {
    if es == [] then nodes
    else
      var before := Play(nodes, es[..|es| - 1]);
      match es[|es| - 1]
      case Elapse => seq(|before|, i requires 0 <= i < |before| => Ticked(before[i]))
      case Insert(user) => if user.location < POOL && |before| < POOL then [Bare(Fresh(user))] + before else before
  }

  function Ticks(es: seq<Event>): nat {
    if es == [] then 0 else Ticks(es[..|es| - 1]) + if es[|es| - 1].Elapse? then 1 else 0
  }

  lemma NoEvents(nodes: seq<Node>)
    ensures Play(nodes, []) == nodes && NewLocations(nodes, [])
  {
  }

  /** A node's clock is that of the ticks since it was there, whatever is added meanwhile. */
  lemma {:induction false} Aged(nodes: seq<Node>, es: seq<Event>, i: nat)
    requires i < |nodes|
    ensures var r := Play(nodes, es); r[|r| - |nodes| + i] == TickedTimes(nodes[i], Ticks(es))
  {
    hide Ticked, Fresh;
    if es != [] {
      Aged(nodes, es[..|es| - 1], i);
    }
  }

  /** The closed form for a node added at any time, after which ticks and adds go on. */
  lemma AddedPhase(nodes: seq<Node>, user: Node, es: seq<Event>)
    requires Words(user)
    ensures var r := Play([Bare(Fresh(user))] + nodes, es);
            var b := r[|r| - |nodes| - 1];
            var on := if 1 <= user.onLength <= 0x8000 then user.onLength else 1;
            var off := if 1 <= user.offLength <= 0x8000 then user.offLength else 1;
            var m := Ticks(es) % (on + off);
            && (On(b) <==> m < on)
            && b.countdown == (if m < on then user.onLength - m else user.offLength - (m - on))
            && b == Bare(user).(status := b.status, countdown := b.countdown)
  {
    hide Play, TickedTimes, PhaseTicks, Ticks;
    var b := Bare(Fresh(user));
    Aged([b] + nodes, es, 0);
    Phase(b, Ticks(es));
  }

  predicate IsAt(b: Node, location: nat) { b.location == location }

  /** Every node is added at a location of its own. */
  predicate NewLocations(nodes: seq<Node>, es: seq<Event>) {
    es == [] ||
    (var front, last := es[..|es| - 1], es[|es| - 1];
     NewLocations(nodes, front) &&
     (last.Insert? ==> forall i :: 0 <= i < |Play(nodes, front)| ==> !IsAt(Play(nodes, front)[i], last.user.location)))
  }

  ghost function AllSlots(n: nat): (a: set<nat>)
    ensures |a| == n && forall slot: nat :: slot in a <==> slot < n
  {
    if n == 0 then {} else AllSlots(n - 1) + {n - 1}
  }

  /** The pool is full exactly when the list has as many nodes as the pool has slots. */
  lemma PoolFull(pool: seq<Node>, head: int, list: seq<nat>)
    requires Chain(pool, head, list) && ExactlyUsed(pool, list)
    ensures |list| <= |pool| && (FirstFree(pool, 0) == |pool| <==> |list| == |pool|)
  {
    var used, all, k := Elements(list), AllSlots(|pool|), FirstFree(pool, 0);
    NoDuplicates(list);
    assert k < |pool| ==> k !in list;
    assert used <= all && (k == |pool| ==> all <= used);
    hide Chain, ExactlyUsed, FirstFree, AllSlots, Elements;
    assert |all - used| == |pool| - |used|;
    assert k < |pool| ==> k in all - used;
  }

  lemma TickedContents(pool: seq<Node>, n: seq<Node>, list: seq<nat>, nodes: seq<Node>, es: seq<Event>)
    requires |pool| == |n| && forall i :: 0 <= i < |list| ==> list[i] < |pool| && n[list[i]] == Ticked(pool[list[i]])
    requires Contents(pool, list) == Play(nodes, es)
    ensures Contents(n, list) == Play(nodes, es + [Elapse])
    ensures DistinctLocations(pool, list) ==> DistinctLocations(n, list)
  {
    assert (es + [Elapse])[..|es|] == es;
  }

  lemma AddedContents(pool: seq<Node>, n: seq<Node>, list: seq<nat>, slot: nat, user: Node, nodes: seq<Node>, es: seq<Event>)
    requires slot < |pool| && slot !in list && (forall i :: 0 <= i < |list| ==> list[i] < |pool|)
    requires exists next :: n == pool[slot := Fresh(user).(next := next)]
    requires Contents(pool, list) == Play(nodes, es) && user.location < POOL && |list| < POOL
    ensures Contents(n, [slot] + list) == Play(nodes, es + [Insert(user)])
    ensures NewLocations(nodes, es + [Insert(user)]) ==>
              NewLocations(nodes, es) && forall s :: s in list ==> pool[s].location != user.location
  {
    assert (es + [Insert(user)])[..|es|] == es;
    var l, more := [slot] + list, Contents(n, [slot] + list);
    assert more[0] == Bare(Fresh(user));
    forall i | 0 <= i < |list|
      ensures more[i + 1] == Contents(pool, list)[i]
    {
      assert l[i + 1] == list[i] && list[i] in list;
    }
    assert more == [more[0]] + more[1..];
    if NewLocations(nodes, es + [Insert(user)]) {
      forall i | 0 <= i < |list|
        ensures pool[list[i]].location != user.location
      {
        assert !IsAt(Play(nodes, es)[i], user.location);
      }
    }
  }

  /** An add that fails. */
  lemma RefusedContents(pool: seq<Node>, list: seq<nat>, user: Node, nodes: seq<Node>, es: seq<Event>)
    requires (forall i :: 0 <= i < |list| ==> list[i] < |pool|) && Contents(pool, list) == Play(nodes, es)
    requires user.location >= POOL || |list| >= POOL
    ensures Contents(pool, list) == Play(nodes, es + [Insert(user)])
  {
    assert (es + [Insert(user)])[..|es|] == es;
  }

  lemma EarlierNew(nodes: seq<Node>, es: seq<Event>, e: Event)
    ensures NewLocations(nodes, es + [e]) ==> NewLocations(nodes, es)
  {
    assert (es + [e])[..|es|] == es;
  }
}
