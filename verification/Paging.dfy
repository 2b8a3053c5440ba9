/** paging.c: the page directory, its two page tables, and the two-level page walk of
    32-bit paging (section 4.3 of the Intel SDM, Volume 3A). */
module Paging {
  import opened Bytes
  import opened Platform

  const ENTRIES := 1024
  /** Page-directory slots used by the kernel. */
  const USER_SLOT := 0x20
  const VIDEO_SLOT := 33
  /** Physical video memory and the backing buffer of a terminal. */
  const VIDEO := 0xB_8000

  function VideoMem(t: nat): nat { 0xB_A000 + 2 * KB4 * t }

  /** Index in the user video page table of the page given to terminal `t`. */
  function VideoIdx(t: nat): nat { 0xBA + 2 * t }

  /** The attribute bits this kernel sets, and bits 31:12 of the entry. */
  datatype Entry = Entry(present: bool, readWrite: bool, user: bool, pageSize: bool, frame: nat)

  const CLEAR := Entry(false, false, false, false, 0)

  /** Decodes `entry.value = v`. */
  function FromValue(v: nat): Entry {
    Entry(v % 2 == 1, v / 2 % 2 == 1, v / 4 % 2 == 1, v / 128 % 2 == 1, v / KB4)
  }

  /** The translation of one linear address. `tables` gives the page tables by the
      physical frame they occupy. */
  function Walk(dir: seq<Entry>, tables: map<nat, seq<Entry>>, lin: nat): Option<nat>
    requires |dir| == ENTRIES && lin < TWO32
    requires forall f :: f in tables ==> |tables[f]| == ENTRIES
  {
    var pde := dir[lin / MB4];
    if !pde.present then None
    else if pde.pageSize then Some(pde.frame / ENTRIES * MB4 + lin % MB4)
    else if pde.frame !in tables then None
    else
      var pte := tables[pde.frame][lin / KB4 % ENTRIES];
      if pte.present then Some(pte.frame * KB4 + lin % KB4) else None
  }

  // ----- what the kernel promises about translation ----------------------------------

  /** Where the page walk must lead right after boot: the identity on the kernel's first
      8 MB without page 0 and on the 40 MB of kmalloc, three user video pages (terminal
      0 is displayed, so its page is the screen itself), and nothing else. */
  function BootMap(lin: nat): Option<nat> {
    if KB4 <= lin < 2 * MB4 || 50 * MB4 <= lin < 60 * MB4 then Some(lin)
    else if lin / KB4 == 0x84BA then Some(VIDEO + lin % KB4)
    else if lin / KB4 == 0x84BC then Some(VideoMem(1) + lin % KB4)
    else if lin / KB4 == 0x84BE then Some(VideoMem(2) + lin % KB4)
    else None
  }

  /** What the kernel never changes after boot: all of the directory but the user page, and
      the table of the first 4 MB. */
  ghost predicate KernelTables(dir: seq<Entry>, low: seq<Entry>, lowFrame: nat, videoFrame: nat) {
    && |dir| == |low| == ENTRIES
    && (forall i :: 0 <= i < ENTRIES && i != USER_SLOT ==>
          dir[i] == if i == 0 then Entry(true, true, false, false, lowFrame)
                    else if i == 1 then Entry(true, true, false, true, ENTRIES)
                    else if i == VIDEO_SLOT then Entry(true, true, true, false, videoFrame)
                    else if 50 <= i < 60 then Entry(true, true, true, true, i * ENTRIES)
                    else CLEAR)
    && (forall i :: 0 <= i < ENTRIES ==>
          low[i] == if i == 0 then CLEAR else Entry(true, true, i in {0xB8, 0xBA, 0xBC, 0xBE}, false, i))
  }

  lemma UserSlotFree(dir: seq<Entry>, low: seq<Entry>, lowFrame: nat, videoFrame: nat, user: Entry)
    requires KernelTables(dir, low, lowFrame, videoFrame)
    ensures |dir| == ENTRIES && KernelTables(dir[USER_SLOT := user], low, lowFrame, videoFrame)
  {
  }

  /** The three tables as pagingInit leaves them. */
  ghost predicate BootTables(dir: seq<Entry>, low: seq<Entry>, video: seq<Entry>, lowFrame: nat, videoFrame: nat) {
    && |dir| == |low| == |video| == ENTRIES
    && KernelTables(dir, low, lowFrame, videoFrame) && dir[USER_SLOT] == CLEAR
    && (forall i :: 0 <= i < ENTRIES ==>
          video[i] == if i == 0xBA then Entry(true, true, true, false, 0xB8)
                      else if i == 0xBC || i == 0xBE then Entry(true, true, true, false, i)
                      else CLEAR)
  }

  lemma BootTranslation(dir: seq<Entry>, low: seq<Entry>, video: seq<Entry>, lowFrame: nat, videoFrame: nat, lin: nat)
    requires BootTables(dir, low, video, lowFrame, videoFrame) && lowFrame != videoFrame && lin < TWO32
    ensures Walk(dir, map[lowFrame := low, videoFrame := video], lin) == BootMap(lin)
  {
  }

  /** The entries `(frame * 4096) | 3` and `(frame * 4096) | 7`. */
  lemma TableEntries(frame: nat)
    ensures FromValue(frame * KB4 + 3) == Entry(true, true, false, false, frame)
    ensures FromValue(frame * KB4 + 7) == Entry(true, true, true, false, frame)
  {
    Quotients(frame, 3);
    Quotients(frame, 7);
    LastBit(1024 * frame, 1);
    LastBit(1024 * frame + 1, 1);
    LastBit(512 * frame, 0);
    LastBit(512 * frame, 1);
    LastBit(16 * frame, 0);
  }

  lemma Quotients(frame: nat, low: nat)
    requires low < 8
    ensures var v := frame * KB4 + low;
            && v % 2 == low % 2 && v / 2 == 2 * (1024 * frame) + low / 2
            && v / 4 == 2 * (512 * frame) + low / 4 && v / 128 == 2 * (16 * frame) && v / KB4 == frame
  {
  }

  lemma LastBit(high: nat, bit: nat)
    requires bit < 2
    ensures (2 * high + bit) % 2 == bit
  {
  }

  class Mmu {
    const pageDir: array<Entry>
    const lowTable: array<Entry>
    const videoTable: array<Entry>
    /** Physical frames of the two tables: their (page-aligned) addresses over 4 KB. */
    const lowFrame: nat
    const videoFrame: nat

    ghost predicate Valid() {
      && pageDir.Length == lowTable.Length == videoTable.Length == ENTRIES
      && pageDir != lowTable && pageDir != videoTable && lowTable != videoTable
      && lowFrame != videoFrame
    }

    ghost function Tables(): map<nat, seq<Entry>>
      reads lowTable, videoTable
    {
      map[lowFrame := lowTable[..], videoFrame := videoTable[..]]
    }

    ghost function Translate(lin: nat): Option<nat>
      requires Valid() && lin < TWO32
      reads pageDir, lowTable, videoTable
    {
      Walk(pageDir[..], Tables(), lin)
    }

    /** Fresh, zeroed tables (they live in the kernel's BSS). */
    constructor (lowFrame: nat, videoFrame: nat)
      requires lowFrame != videoFrame
      ensures Valid() && fresh(pageDir) && fresh(lowTable) && fresh(videoTable)
      ensures forall i :: 0 <= i < ENTRIES ==> videoTable[i] == CLEAR
      ensures this.lowFrame == lowFrame && this.videoFrame == videoFrame
    {
      pageDir := new Entry[ENTRIES](_ => CLEAR);
      lowTable := new Entry[ENTRIES](_ => CLEAR);
      videoTable := new Entry[ENTRIES](_ => CLEAR);
      this.lowFrame, this.videoFrame := lowFrame, videoFrame;
    }

    method PagingInit()
      requires Valid() && forall i :: 0 <= i < ENTRIES ==> videoTable[i] == CLEAR
      modifies pageDir, lowTable, videoTable
      ensures BootTables(pageDir[..], lowTable[..], videoTable[..], lowFrame, videoFrame)
      ensures forall lin :: 0 <= lin < TWO32 ==> Translate(lin) == BootMap(lin)
    {
      ClearTables();
      MapKernel();
      MapUserVideo();
      AllocateKmallocMem();
      forall lin | 0 <= lin < TWO32
        ensures Translate(lin) == BootMap(lin)
      {
        BootTranslation(pageDir[..], lowTable[..], videoTable[..], lowFrame, videoFrame, lin);
      }
    }

    method ClearTables()
      requires Valid()
      modifies pageDir, lowTable
      ensures forall j :: 0 <= j < ENTRIES ==> pageDir[j] == CLEAR
      ensures forall j :: 0 <= j < ENTRIES ==> lowTable[j] == Entry(true, true, false, false, j)
    {
      hide FromValue;
      for i := 0 to ENTRIES
        invariant forall j :: 0 <= j < i ==> pageDir[j] == CLEAR
      {
        pageDir[i] := CLEAR;
      }
      for i := 0 to ENTRIES
        invariant forall j :: 0 <= j < i ==> lowTable[j] == Entry(true, true, false, false, j)
        invariant forall j :: 0 <= j < ENTRIES ==> pageDir[j] == CLEAR
      {
        TableEntries(i);
        lowTable[i] := FromValue(i * KB4 + 3);
      }
    }

    /** Page 0 is left out; the kernel's 4 MB page and the video pages are put in. */
    method MapKernel()
      requires Valid()
      modifies pageDir, lowTable
      ensures pageDir[..] == old(pageDir[..])[0 := Entry(true, true, false, false, lowFrame)]
                                             [1 := Entry(true, true, false, true, ENTRIES)]
      ensures forall j :: 0 <= j < ENTRIES ==>
                lowTable[j] == if j == 0 then CLEAR
                               else if j in {0xB8, 0xBA, 0xBC, 0xBE} then Entry(true, true, true, false, j)
                               else old(lowTable[j])
    {
      TableEntries(lowFrame);
      lowTable[0] := CLEAR;
      pageDir[0] := FromValue(lowFrame * KB4 + 3);
      pageDir[1] := FromValue(0x0040_0083);
      TableEntries(0xB8);
      TableEntries(0xBA);
      TableEntries(0xBC);
      TableEntries(0xBE);
      assert FromValue(0x0040_0083) == Entry(true, true, false, true, ENTRIES);
      hide FromValue;
      lowTable[0xB8] := FromValue(VIDEO + 7);
      lowTable[0xB8 + 2] := FromValue(VideoMem(0) + 7);
      lowTable[0xB8 + 4] := FromValue(VideoMem(1) + 7);
      lowTable[0xB8 + 6] := FromValue(VideoMem(2) + 7);
    }

    method MapUserVideo()
      requires Valid()
      modifies pageDir, videoTable
      ensures pageDir[..] == old(pageDir[..])[VIDEO_SLOT := Entry(true, true, true, false, videoFrame)]
      ensures forall j :: 0 <= j < ENTRIES ==>
                videoTable[j] == if j == 0xBA then Entry(true, true, true, old(videoTable[j].pageSize), 0xB8)
                                 else if j == 0xBC || j == 0xBE then Entry(true, true, true, old(videoTable[j].pageSize), j)
                                 else old(videoTable[j])
    {
      pageDir[VIDEO_SLOT] := pageDir[VIDEO_SLOT].(frame := videoFrame);
      pageDir[VIDEO_SLOT] := pageDir[VIDEO_SLOT].(present := true, readWrite := true, user := true, pageSize := false);
      videoTable[VideoIdx(0)] := videoTable[VideoIdx(0)].(frame := 0xB8, present := true, readWrite := true, user := true);
      videoTable[VideoIdx(1)] := videoTable[VideoIdx(1)].(frame := VideoIdx(1), present := true, readWrite := true, user := true);
      videoTable[VideoIdx(2)] := videoTable[VideoIdx(2)].(frame := VideoIdx(2), present := true, readWrite := true, user := true);
    }

    /** Ten 4 MB pages from 200 MB. */
    method AllocateKmallocMem()
      requires Valid()
      modifies pageDir
      ensures forall j :: 0 <= j < ENTRIES ==>
                pageDir[j] == if 50 <= j < 60 then Entry(true, true, true, true, j * ENTRIES) else old(pageDir[j])
    {
      for i := 0 to 10
        invariant forall j :: 0 <= j < ENTRIES ==>
                    pageDir[j] == if 50 <= j < 50 + i then Entry(true, true, true, true, j * ENTRIES) else old(pageDir[j])
      {
        pageDir[50 + i] := pageDir[50 + i].(present := true, readWrite := true, user := true,
                                            frame := (200 * 0x10_0000 + i * MB4) / MB4 * ENTRIES, pageSize := true);
      }
    }

    /** Points a directory slot at a physical page; every other region keeps its map. */
    method AllocatePage(idx: nat, pageSize: bool, phys: nat)
      requires Valid() && idx < ENTRIES
      modifies pageDir
      ensures pageDir[..] == old(pageDir[..])[idx := Entry(true, true, true, pageSize, phys / MB4 * ENTRIES)]
      ensures pageSize && phys % MB4 == 0 ==>
                forall lin :: 0 <= lin < TWO32 && lin / MB4 == idx ==> Translate(lin) == Some(phys + lin % MB4)
      ensures forall lin :: 0 <= lin < TWO32 && lin / MB4 != idx ==> Translate(lin) == old(Translate(lin))
    {
      pageDir[idx] := Entry(true, true, true, pageSize, phys / MB4 * ENTRIES);
      assert pageSize && phys % MB4 == 0 ==> phys / MB4 * ENTRIES / ENTRIES * MB4 == phys;
    }

    method VidmemAlloc(idx: nat, phys: nat)
      requires Valid() && idx < ENTRIES && phys % KB4 == 0
      modifies videoTable
      ensures forall i :: 0 <= i < ENTRIES ==>
                videoTable[i] == if i == idx then Entry(true, true, true, false, phys / KB4) else old(videoTable[i])
    {
      TableEntries(phys / KB4);
      hide FromValue;
      videoTable[idx] := FromValue(phys + 7);
    }
  }
}
