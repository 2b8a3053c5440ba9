/** The routines of blink.S, relinking the pool and writing the screen in place. */
module Blink {
  import opened Bytes
  import opened Platform
  import opened BlinkNode
  import opened BlinkPool

  class BlinkList {
    const pool: array<Node>
    const screen: array<byte>
    var head: int
    ghost var list: seq<nat>
    /** Nodes whose cell may not show what their status selects. */
    ghost var stale: set<nat>

    /** What one add at location 0 leaves standing. */
    ghost predicate Linked()
      reads this, pool
    {
      pool.Length == POOL && screen.Length == SCREEN && Chain(pool[..], head, list) && Sane(pool[..])
    }

    ghost predicate Valid()
      reads this, pool, screen
    {
      Linked() && ExactlyUsed(pool[..], list) && Display(pool[..], list, screen[..], stale)
    }

    /** main clears the pool before it uses it. */
    constructor (screen: array<byte>)
      requires screen.Length == SCREEN
      ensures Valid() && list == [] && stale == {} && this.screen == screen
    {
      pool := new Node[POOL](_ => FREE);
      this.screen := screen;
      head := NULL;
      list := [];
      stale := {};
    }

    method Poke(location: nat, c: byte)
      requires screen.Length == SCREEN && location < POOL
      modifies screen
      ensures screen[..] == old(screen[..])[2 * location := c]
    {
      screen[2 * location] := c;
    }

    /** mp1_malloc: the first free slot. */
    method Malloc() returns (slot: int)
      requires pool.Length == POOL
      ensures slot == if FirstFree(pool[..], 0) == POOL then NULL else FirstFree(pool[..], 0)
    {
      for i := 0 to POOL
        invariant FirstFree(pool[..], 0) == FirstFree(pool[..], i)
      {
        if pool[i].location == 0 {
          return i;
        }
      }
      slot := NULL;
    }

    /** mp1_find_helper. */
    method FindHelper(location: nat) returns (slot: int)
      requires Valid()
      ensures var k := FindIn(pool[..], list, location, 0); slot == if k < |list| then list[k] else NULL
    {
      slot := head;
      ghost var i := 0;
      while slot != NULL
        invariant 0 <= i <= |list| && slot == (if i < |list| then list[i] else NULL)
        invariant FindIn(pool[..], list, location, 0) == FindIn(pool[..], list, location, i)
        decreases |list| - i
      {
        if pool[slot].location == location {
          return;
        }
        assert pool[slot].next == NextIn(list, i);
        slot := pool[slot].next;
        i := i + 1;
      }
    }

    // ----- add -------------------------------------------------------------------------

    /** mp1_ioctl_add. Location 0 is let in, but cannot be told from a free slot: the pool
        then holds one more list node than used slots, and the next add that succeeds takes
        the same slot again. */
    method Add(user: Node) returns (r: int)
      requires Linked() && Words(user)
      modifies this, pool, screen
      ensures r == 0 || r == -1
      ensures r == -1 <==> user.location >= POOL || FirstFree(old(pool[..]), 0) == POOL
      ensures r == -1 ==> pool[..] == old(pool[..]) && screen[..] == old(screen[..]) && list == old(list) && head == old(head)
      ensures r == 0 ==>
                && (pool[..], head) == Added(old(pool[..]), old(head), user) && list == [head] + old(list)
                && screen[..] == old(screen[..])[2 * user.location := user.onChar]
      ensures Linked() <==> (r == 0 ==> head !in old(list))
      ensures stale == old(stale)
      ensures old(Valid()) ==> (Valid() <==> (r == 0 ==> user.location != 0))
      ensures old(Valid()) && r == 0 ==>
                (DistinctLocations(pool[..], list) <==>
                 && old(DistinctLocations(pool[..], list))
                 && forall s :: s in old(list) ==> old(pool[s]).location != user.location)
    {
      if user.location >= POOL {
        return -1;
      }
      var temp := user.(status := 1, countdown := user.onLength);
      var slot := Malloc();
      if slot == NULL {
        return -1;
      }
      ghost var before, links, cells := pool[..], list, screen[..];
      pool[slot] := temp;
      pool[slot] := pool[slot].(next := head);
      head := slot;
      list := [slot] + list;
      Poke(pool[slot].location, pool[slot].onChar);
      assert pool[..] == before[slot := temp.(next := old(head))];
      AddLinks(before, links, slot, pool[slot]);
      if old(Valid()) {
        PrependedUsed(before, links, slot, pool[slot]);
        AddShows(before, links, cells, stale, slot, pool[slot]);
      }
      r := 0;
    }

    // ----- remove ----------------------------------------------------------------------

    /** mp1_ioctl_remove: the newest node at the location leaves the list, and its slot is
        cleared. */
    method Remove(arg: nat) returns (r: int)
      requires Valid()
      modifies this, pool
      ensures Valid()
      ensures var k := FindIn(old(pool[..]), old(list), arg % WORD, 0);
              if k == |old(list)| then r == -1 && pool[..] == old(pool[..]) && list == old(list) && stale == old(stale)
              else
                && r == 0 && list == Without(old(list), k) && pool[old(list)[k]] == FREE
                && stale == (if old(DistinctLocations(pool[..], list)) then old(stale) - {old(list)[k]} else Elements(list))
                && forall s :: 0 <= s < POOL && s != old(list)[k] ==> pool[s] == old(pool[s]).(next := pool[s].next)
    {
      hide Chain, ExactlyUsed, Sane, Without, Display, DistinctLocations, UnlinkedFrom;
      ChainShape(pool[..], head, list);
      var slot := FindHelper(arg % WORD);
      if slot == NULL {
        return -1;
      }
      ghost var k, before, links := FindIn(pool[..], list, arg % WORD, 0), pool[..], list;
      var prev := FindPrev(slot, k);
      Unlink(slot, prev, k);
      list := Without(list, k);
      UnlinkedSlots(before, links, k, pool[..]);
      UnlinkedChain(before, links, k, pool[..]);
      UnlinkedUsed(before, links, k, pool[..]);
      UnlinkedSane(before, links, k, pool[..]);
      RemoveShows(before, links, screen[..], stale, k, pool[..]);
      stale := if DistinctLocations(before, links) then stale - {links[k]} else Elements(list);
      r := 0;
    }

    /** The relinking, and mp1_free. */
    method Unlink(slot: nat, prev: int, ghost k: nat)
      requires Linked() && k < |list| && slot == list[k] && prev == if k == 0 then NULL else list[k - 1]
      modifies this`head, pool
      ensures forall i :: 0 <= i < |list| ==> list[i] < POOL
      ensures |pool[..]| == |old(pool[..])| == POOL && UnlinkedFrom(old(pool[..]), list, k, pool[..])
      ensures head == if Without(list, k) == [] then NULL else Without(list, k)[0]
    {
      hide Sane;
      ChainShape(pool[..], head, list);
      assert pool[slot].next == NextIn(list, k);
      if prev == NULL {
        head := pool[slot].next;
      } else {
        pool[prev] := pool[prev].(next := pool[slot].next);
      }
      pool[slot] := FREE;
    }

    /** The walk to the pointer that points at `slot`; NULL stands for the head's. */
    method FindPrev(slot: nat, ghost k: nat) returns (prev: int)
      requires Valid() && k < |list| && slot == list[k]
      ensures prev == if k == 0 then NULL else list[k - 1]
    {
      prev := NULL;
      var cur := head;
      ghost var i := 0;
      while cur != slot
        invariant 0 <= i <= k && cur == list[i] && prev == if i == 0 then NULL else list[i - 1]
        decreases k - i
      {
        prev := cur;
        assert pool[cur].next == NextIn(list, i);
        cur := pool[cur].next;
        i := i + 1;
      }
    }

    /** mp1_ioctl_find: a copy of the newest node at a location. */
    method Find(location: nat) returns (r: int, found: Node)
      requires Valid() && location < WORD
      ensures var k := FindIn(pool[..], list, location, 0);
              if k < |list| then r == 0 && found == pool[list[k]] else r == -1
    {
      var slot := FindHelper(location);
      if slot == NULL {
        return -1, FREE;
      }
      r, found := 0, pool[slot];
    }

    // ----- sync ------------------------------------------------------------------------

    /** mp1_ioctl_sync: the node at the low half takes over the clock of the one at the
        high half. Its cell is redrawn with the off character whatever its new status is
        (the conditional move never happens), so it shows the right character exactly if
        the node is off or its two characters are the same. */
    method Sync(arg: nat) returns (r: int)
      requires Valid() && arg < TWO32
      modifies pool, screen, this`stale
      ensures Valid()
      ensures var i, j := FindIn(old(pool[..]), list, arg / WORD, 0), FindIn(old(pool[..]), list, arg % WORD, 0);
              if i == |list| || j == |list| then
                r == -1 && pool[..] == old(pool[..]) && screen[..] == old(screen[..]) && stale == old(stale)
              else
                var src, dst := old(pool[..])[list[i]], old(pool[..])[list[j]];
                var synced := WithClock(dst, src);
                && r == 0 && pool[..] == old(pool[..])[list[j] := synced] && InStep(pool[list[i]], pool[list[j]])
                && screen[..] == old(screen[..])[2 * dst.location := dst.offChar]
                && (screen[2 * dst.location] == Face(synced) <==> !On(synced) || dst.onChar == dst.offChar)
                && stale == (if Face(synced) == dst.offChar then old(stale) - {list[j]} else old(stale) + {list[j]})
    {
      hide Chain, ExactlyUsed, Sane, Display;
      ghost var before, cells := pool[..], screen[..];
      ChainShape(before, head, list);
      SaneAt(before);
      var esi := FindHelper(arg / WORD);
      if esi == NULL {
        return -1;
      }
      var edi := FindHelper(arg % WORD);
      if edi == NULL {
        return -1;
      }
      CopyClock(esi, edi);
      Poke(pool[edi].location, pool[edi].offChar);
      ClockKeeps(before, head, list, edi, pool[edi]);
      SyncShows(before, list, cells, stale, FindIn(before, list, arg % WORD, 0), pool[edi]);
      stale := if Face(pool[edi]) == pool[edi].offChar then stale - {edi} else stale + {edi};
      r := 0;
    }

    method CopyClock(esi: nat, edi: nat)
      requires pool.Length == POOL && esi < POOL && edi < POOL
      modifies pool
      ensures pool[..] == old(pool[..])[edi := WithClock(old(pool[edi]), old(pool[esi]))]
    {
      pool[edi] := pool[edi].(onLength := pool[esi].onLength);
      pool[edi] := pool[edi].(offLength := pool[esi].offLength);
      pool[edi] := pool[edi].(countdown := pool[esi].countdown);
      pool[edi] := pool[edi].(status := pool[esi].status);
    }

    // ----- the tick --------------------------------------------------------------------

    /** One pass of mp1_rtc_tasklet's loop body. */
    method TickNode(slot: nat)
      requires pool.Length == POOL && screen.Length == SCREEN && slot < POOL
      requires Words(pool[slot]) && pool[slot].location < POOL
      modifies pool, screen
      ensures pool[..] == old(pool[..])[slot := Ticked(old(pool[slot]))]
      ensures screen[..] == Drawn(old(screen[..]), old(pool[slot]))
    {
      ghost var b := pool[slot];
      pool[slot] := pool[slot].(countdown := (pool[slot].countdown - 1) % WORD);
      if !(0 < pool[slot].countdown < 0x8000) {
        var dx;
        if pool[slot].status % 2 == 0 {
          Poke(pool[slot].location, pool[slot].onChar);
          dx := pool[slot].onLength;
        } else {
          Poke(pool[slot].location, pool[slot].offChar);
          dx := pool[slot].offLength;
        }
        pool[slot] := pool[slot].(countdown := dx);
        pool[slot] := pool[slot].(status := if pool[slot].status % 2 == 1 then pool[slot].status - 1 else pool[slot].status + 1);
      }
    }

    /** mp1_rtc_tasklet. */
    method Tick()
      requires Valid()
      modifies pool, screen, this`stale
      ensures Valid() && stale == Unexpired(old(pool[..]), old(stale))
      ensures forall s :: 0 <= s < POOL ==> pool[s] == if s in list then Ticked(old(pool[s])) else old(pool[s])
      ensures screen[..] == Redrawn(old(pool[..]), list, old(screen[..]), |list|)
    {
      hide Chain, ExactlyUsed, Sane, Ticked, Partly, Drawn, Redrawn, Display, Unexpired;
      ghost var before, cells := pool[..], screen[..];
      ChainShape(before, head, list);
      SaneAt(before);
      NoneTicked(before, list);
      NoneDrawn(before, list, cells);
      ghost var was := stale;
      assert Display(before, list, cells, was);
      var slot := head;
      ghost var i := 0;
      while slot != NULL
        invariant 0 <= i <= |list| && slot == (if i < |list| then list[i] else NULL)
        invariant Partly(before, pool[..], list, i)
        invariant screen[..] == Redrawn(before, list, cells, i) && stale == was
        decreases |list| - i
      {
        PartlyStep(before, pool[..], list, i);
        NextDrawn(before, list, cells, i);
        assert before[list[i]].next == NextIn(list, i);
        TickNode(slot);
        slot := pool[slot].next;
        i := i + 1;
      }
      AllTicked(before, pool[..], head, list);
      TickShows(before, pool[..], list, cells, stale);
      stale := Unexpired(before, stale);
    }

    /** k ticks, as in main's waiting loops. A stale cell is right again from the tick that
        ends its node's phase. */
    method Wait(k: nat)
      requires Valid()
      modifies pool, screen, this`stale
      ensures Valid()
      ensures forall s :: 0 <= s < POOL ==> pool[s] == if s in list then TickedTimes(old(pool[s]), k) else old(pool[s])
      ensures stale == Counting(old(pool[..]), old(stale), k)
      ensures old(DistinctLocations(pool[..], list)) ==>
                forall i :: 0 <= i < |list| && (list[i] !in old(stale) || Ended(old(pool[..])[list[i]], k)) ==>
                  screen[2 * pool[list[i]].location] == Face(pool[list[i]])
    {
      hide Chain, ExactlyUsed, Sane, Ticked, Display, PhaseTicks, Expires, Unexpired;
      ghost var before, was := pool[..], stale;
      ChainShape(before, head, list);
      StaleListed(before, list, screen[..], was);
      for i := 0 to k
        invariant Valid()
        invariant forall s :: 0 <= s < POOL ==> pool[s] == if s in list then TickedTimes(old(pool[s]), i) else old(pool[s])
        invariant stale == Counting(before, was, i)
      {
        StaleTicks(before, pool[..], list, was, i);
        Tick();
      }
      WaitShows(before, pool[..], list, screen[..], was, k);
    }

    /** The nodes are those of the run `es` from `nodes`, and shown if all is distinct. */
    ghost predicate Played(nodes: seq<Node>, es: seq<Event>, fits: bool)
      reads this, pool, screen
    {
      && Valid() && (forall j :: 0 <= j < |list| ==> list[j] < POOL)
      && Contents(pool[..], list) == Play(nodes, es)
      && (fits && NewLocations(nodes, es) ==> stale == {} && DistinctLocations(pool[..], list))
    }

    method PlayTick(ghost nodes: seq<Node>, ghost es: seq<Event>, ghost fits: bool)
      requires Played(nodes, es, fits)
      modifies pool, screen, this`stale
      ensures Played(nodes, es + [Elapse], fits)
    {
      hide Chain, ExactlyUsed, Sane, Display, Ticked, Play, DistinctLocations;
      ghost var before := pool[..];
      Tick();
      TickedContents(before, pool[..], list, nodes, es);
      EarlierNew(nodes, es, Elapse);
    }

    method PlayAdd(user: Node, ghost nodes: seq<Node>, ghost es: seq<Event>, ghost fits: bool)
      requires Played(nodes, es, fits) && Words(user) && user.location != 0
      modifies this, pool, screen
      ensures Played(nodes, es + [Insert(user)], fits)
    {
      hide Chain, ExactlyUsed, Sane, Display, Play, DistinctLocations, NewLocations;
      ghost var before, was := pool[..], list;
      PoolFull(before, head, was);
      ChainShape(before, head, was);
      EarlierNew(nodes, es, Insert(user));
      var r := Add(user);
      if r == 0 {
        AddedContents(before, pool[..], was, head, user, nodes, es);
      } else {
        RefusedContents(before, was, user, nodes, es);
      }
    }

    /** Any run of ticks and adds, like main's. The screen stays right if every node has a
        location of its own. */
    method Drive(es: seq<Event>)
      requires Valid() && forall e :: e in es && e.Insert? ==> Words(e.user) && e.user.location != 0
      modifies this, pool, screen
      ensures Valid() && Contents(pool[..], list) == Play(old(Contents(pool[..], list)), es)
      ensures old(stale) == {} && old(DistinctLocations(pool[..], list)) && NewLocations(old(Contents(pool[..], list)), es) ==>
                Shown(pool[..], list, screen[..], {})
    {
      hide Chain, ExactlyUsed, Sane, Play, NewLocations;
      ChainShape(pool[..], head, list);
      ghost var nodes, fits := Contents(pool[..], list), stale == {} && DistinctLocations(pool[..], list);
      NoEvents(nodes);
      assert es[..0] == [] && es[..|es|] == es;
      for i := 0 to |es|
        invariant Played(nodes, es[..i], fits)
      {
        assert es[..i + 1] == es[..i] + [es[i]] && es[i] in es;
        match es[i] {
          case Elapse => PlayTick(nodes, es[..i], fits);
          case Insert(user) => PlayAdd(user, nodes, es[..i], fits);
        }
      }
    }
  }
}
