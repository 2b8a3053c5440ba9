/** read_data and file_read of filesys.c: the block-indexed, read-only file system. */
module FileSys {
  import opened Bytes
  import Lib

  const BLOCK := 4096
  /** Data-block numbers in an inode. */
  const INDEX := 1023
  const FD_SIZE := 8

  datatype Inode = Inode(length: nat, blocks: seq<nat>)

  ghost predicate WellFormed(ino: Inode) {
    |ino.blocks| == INDEX && ino.length <= INDEX * BLOCK
  }

  /** The data blocks up to number `n`, one after the other. */
  function Concatenated(disk: seq<byte>, blocks: seq<nat>, n: nat): (s: seq<byte>)
    requires n <= |blocks| && forall k :: 0 <= k < n ==> BLOCK * (blocks[k] + 1) <= |disk|
    ensures |s| == BLOCK * n
  {
    if n == 0 then []
    else Concatenated(disk, blocks, n - 1) + disk[BLOCK * blocks[n - 1]..BLOCK * (blocks[n - 1] + 1)]
  }

  /** Every block of the file is on the disk. */
  ghost predicate OnDisk(disk: seq<byte>, ino: Inode) {
    WellFormed(ino) && forall k :: 0 <= k < INDEX && BLOCK * k < ino.length ==> BLOCK * (ino.blocks[k] + 1) <= |disk|
  }

  function BlockCount(ino: Inode): nat { (ino.length + BLOCK - 1) / BLOCK }

  /** The contents of a file: its data blocks concatenated, up to its length. */
  ghost function FileBytes(disk: seq<byte>, ino: Inode): (f: seq<byte>)
    requires OnDisk(disk, ino)
    ensures |f| == ino.length
  {
    Concatenated(disk, ino.blocks, BlockCount(ino))[..ino.length]
  }

  lemma {:induction false} ConcatenatedAt(disk: seq<byte>, blocks: seq<nat>, n: nat, i: nat)
    requires n <= |blocks| && (forall k :: 0 <= k < n ==> BLOCK * (blocks[k] + 1) <= |disk|) && i < BLOCK * n
    ensures Concatenated(disk, blocks, n)[i] == disk[BLOCK * blocks[i / BLOCK] + i % BLOCK]
  {
    if i < BLOCK * (n - 1) {
      ConcatenatedAt(disk, blocks, n - 1, i);
    }
  }

  /** The block that holds byte `i` of the file is on the disk. */
  predicate Reachable(disk: seq<byte>, ino: Inode, i: nat) {
    i / BLOCK < |ino.blocks| && BLOCK * (ino.blocks[i / BLOCK] + 1) <= |disk|
  }

  /** Byte `i` of the file, if its block is on the disk. */
  function ByteAt(disk: seq<byte>, ino: Inode, i: nat): byte {
    if Reachable(disk, ino, i) then disk[BLOCK * ino.blocks[i / BLOCK] + i % BLOCK] else NUL
  }

  ghost predicate AllReachable(disk: seq<byte>, ino: Inode, lo: nat, hi: nat) {
    forall i :: lo <= i < hi ==> Reachable(disk, ino, i)
  }

  /** The bytes at [offset, offset + n) of a file; meant for ranges that are on the disk. */
  function Slice(disk: seq<byte>, ino: Inode, offset: nat, n: nat): (s: seq<byte>)
    ensures |s| == n && forall j :: 0 <= j < n ==> s[j] == ByteAt(disk, ino, offset + j)
  {
    if n == 0 then [] else Slice(disk, ino, offset, n - 1) + [ByteAt(disk, ino, offset + n - 1)]
  }

  lemma FileByte(disk: seq<byte>, ino: Inode, i: nat)
    requires OnDisk(disk, ino) && i < ino.length
    ensures Reachable(disk, ino, i) && FileBytes(disk, ino)[i] == ByteAt(disk, ino, i)
  {
    hide Concatenated;
    ConcatenatedAt(disk, ino.blocks, BlockCount(ino), i);
  }

  lemma SliceOfFile(disk: seq<byte>, ino: Inode, offset: nat, n: nat)
    requires OnDisk(disk, ino) && offset + n <= ino.length
    ensures AllReachable(disk, ino, offset, offset + n)
    ensures Slice(disk, ino, offset, n) == FileBytes(disk, ino)[offset..offset + n]
  {
    hide OnDisk, FileBytes, ByteAt, Reachable, Slice;
    forall i | offset <= i < offset + n
      ensures Reachable(disk, ino, i) && FileBytes(disk, ino)[i] == ByteAt(disk, ino, i)
    {
      FileByte(disk, ino, i);
    }
    assert forall j :: 0 <= j < n ==> Slice(disk, ino, offset, n)[j] == FileBytes(disk, ino)[offset..offset + n][j];
  }

  /** How much of a request the length check lets through; the sum is a uint32_t. */
  function Granted(length: nat, offset: nat, fileLength: nat): nat
    requires offset < fileLength
  {
    if (length + offset) % TWO32 >= fileLength then fileLength - offset else length
  }

  /** The check does its job exactly when the sum does not wrap around. */
  lemma GrantedExact(length: nat, offset: nat, fileLength: nat)
    requires offset < fileLength < TWO32 && length < TWO32
    ensures Granted(length, offset, fileLength) == Min(length, fileLength - offset) <==> length + offset < TWO32
  {
  }

  lemma SliceGrows(disk: seq<byte>, ino: Inode, offset: nat, n: nat, more: nat)
    requires AllReachable(disk, ino, offset, offset + n + more)
    requires (offset + n) % BLOCK + more <= BLOCK && more > 0
    ensures Reachable(disk, ino, offset + n)
    ensures var start := BLOCK * ino.blocks[(offset + n) / BLOCK] + (offset + n) % BLOCK;
            && start + more <= |disk|
            && Slice(disk, ino, offset, n + more) == Slice(disk, ino, offset, n) + disk[start..start + more]
  {
    hide Slice;
    assert Reachable(disk, ino, offset + n);
    var all, start := Slice(disk, ino, offset, n + more), BLOCK * ino.blocks[(offset + n) / BLOCK] + (offset + n) % BLOCK;
    forall j | 0 <= j < more
      ensures all[n..][j] == disk[start..start + more][j]
    {
      var i := offset + n + j;
      assert i / BLOCK == (offset + n) / BLOCK && i % BLOCK == (offset + n) % BLOCK + j;
    }
    assert all[n..] == disk[start..start + more];
    assert all[..n] == Slice(disk, ino, offset, n);
    assert all == all[..n] + all[n..];
  }

  /** If the block at `offset` is on the disk, so is every byte of it. */
  lemma BlockReachable(disk: seq<byte>, ino: Inode, start: nat, offset: nat, n: nat)
    requires start <= offset && AllReachable(disk, ino, start, offset) && Reachable(disk, ino, offset)
    requires offset % BLOCK + n <= BLOCK
    ensures AllReachable(disk, ino, start, offset + n)
  {
  }

  /** How many of the `n` bytes from `start` lie before the first block that is not on the
      disk. */
  function Reached(disk: seq<byte>, ino: Inode, start: nat, n: nat): (k: nat)
    ensures k <= n && AllReachable(disk, ino, start, start + k)
    ensures k < n ==> !Reachable(disk, ino, start + k)
    decreases n
  {
    if n == 0 || !Reachable(disk, ino, start) then 0 else 1 + Reached(disk, ino, start + 1, n - 1)
  }

  lemma ReachedIs(disk: seq<byte>, ino: Inode, start: nat, n: nat, k: nat)
    requires k <= n && AllReachable(disk, ino, start, start + k)
    requires k < n ==> !Reachable(disk, ino, start + k)
    ensures Reached(disk, ino, start, n) == k
  {
  }

  /** On a file that is wholly on the disk, a request within it yields that slice. */
  lemma WholeFile(disk: seq<byte>, ino: Inode, start: nat, n: nat)
    requires OnDisk(disk, ino) && start + n <= ino.length
    ensures Reached(disk, ino, start, n) == n
    ensures Slice(disk, ino, start, n) == FileBytes(disk, ino)[start..start + n]
  {
    SliceOfFile(disk, ino, start, n);
    hide OnDisk, FileBytes, Slice, AllReachable;
    ReachedIs(disk, ino, start, n, n);
  }

  class FileSystem {
    const inodes: seq<Inode>
    /** The data blocks of the image. */
    const disk: array<byte>
    const numBlocks: nat

    ghost predicate Valid() {
      disk.Length == BLOCK * numBlocks && forall ino :: ino in inodes ==> WellFormed(ino)
    }

    constructor (inodes: seq<Inode>, disk: array<byte>, numBlocks: nat)
      requires disk.Length == BLOCK * numBlocks && forall ino :: ino in inodes ==> WellFormed(ino)
      ensures Valid() && this.inodes == inodes && this.disk == disk
    {
      this.inodes, this.disk, this.numBlocks := inodes, disk, numBlocks;
    }

    /** Reads into `buf[at..]`. -1 means a bad inode number, or a bad block number met
        before the request was filled; the bytes before it have been copied then. */
    method ReadData(inode: nat, start: nat, buf: array<byte>, at: nat, count: nat) returns (r: int)
      requires Valid() && buf != disk && start + count < TWO32 && at <= buf.Length
      requires inode < |inodes| && start < inodes[inode].length ==>
                 at + Min(count, inodes[inode].length - start) <= buf.Length
      modifies buf
      ensures inode >= |inodes| ==> r == -1 && buf[..] == old(buf[..])
      ensures inode < |inodes| && start >= inodes[inode].length ==> r == 0 && buf[..] == old(buf[..])
      ensures inode < |inodes| && start < inodes[inode].length ==>
                var n := Min(count, inodes[inode].length - start);
                var k := Reached(disk[..], inodes[inode], start, n);
                && r == (if k == n then n else -1)
                && buf[..] == Blit(old(buf[..]), at, Slice(disk[..], inodes[inode], start, k))
    {
      if inode >= |inodes| {
        return -1;
      }
      var ino := inodes[inode];
      if start >= ino.length {
        return 0;
      }
      assert WellFormed(ino);
      GrantedExact(count, start, ino.length);
      var length := Granted(count, start, ino.length);
      r := ReadBlocks(ino, start, buf, at, length);
    }

    method ReadBlocks(ino: Inode, start: nat, buf: array<byte>, at: nat, count: nat) returns (r: int)
      requires Valid() && WellFormed(ino) && buf != disk && start + count <= ino.length && at + count <= buf.Length
      modifies buf
      ensures var k := Reached(disk[..], ino, start, count);
              && r == (if k == count then count else -1)
              && buf[..] == Blit(old(buf[..]), at, Slice(disk[..], ino, start, k))
    {
      hide Blit, Slice, ByteAt, AllReachable, Reached;
      ReachedIs(disk[..], ino, start, 0, 0);
      var offset, length, byteRead := start, count, 0;
      ghost var before, d := buf[..], disk[..];
      assert Slice(d, ino, start, 0) == [];
      BlitNone(before, at);
      while length > 0
        invariant offset == start + byteRead && byteRead + length == count && 0 <= byteRead <= count
        invariant AllReachable(d, ino, start, start + byteRead) && disk[..] == d
        invariant buf[..] == Blit(before, at, Slice(d, ino, start, byteRead))
        decreases length
      {
        var blockIndex := ino.blocks[offset / BLOCK];
        if blockIndex >= numBlocks {
          ReachedIs(d, ino, start, count, byteRead);
          return -1;
        }
        var readStart := BLOCK * blockIndex + offset % BLOCK;
        var lengthReading := BLOCK - offset % BLOCK;
        if offset % BLOCK + length < BLOCK {
          lengthReading := length;
        }
        BlockReachable(d, ino, start, offset, lengthReading);
        SliceGrows(d, ino, start, byteRead, lengthReading);
        BlitGrows(before, at, Slice(d, ino, start, byteRead), disk[readStart..readStart + lengthReading]);
        Lib.Memcpy(buf, at + byteRead, disk, readStart, lengthReading);
        offset, byteRead, length := offset + lengthReading, byteRead + lengthReading, length - lengthReading;
      }
      ReachedIs(d, ino, start, count, count);
      r := byteRead;
    }
  }

  /** The open files of a process: inode number and file position by descriptor. */
  class OpenFiles {
    const inode: array<nat>
    const filePos: array<nat>

    ghost predicate Valid()
      reads filePos
    {
      && inode.Length == filePos.Length == FD_SIZE && inode != filePos
      && forall fd :: 0 <= fd < FD_SIZE ==> filePos[fd] <= INDEX * BLOCK
    }

    constructor ()
      ensures Valid() && fresh(inode) && fresh(filePos)
    {
      inode := new nat[FD_SIZE](_ => 0);
      filePos := new nat[FD_SIZE](_ => 0);
    }

    /** Descriptor `fd` is open on a file whose blocks are all on the disk. */
    ghost predicate Opened(fs: FileSystem, fd: nat)
      requires fs.Valid()
      reads inode, fs.disk
    {
      fd < inode.Length && inode[fd] < |fs.inodes| && OnDisk(fs.disk[..], fs.inodes[inode[fd]])
    }

    /** The file behind a descriptor. */
    ghost function File(fs: FileSystem, fd: nat): seq<byte>
      requires fs.Valid() && Opened(fs, fd)
      reads inode, fs.disk
    {
      FileBytes(fs.disk[..], fs.inodes[inode[fd]])
    }

    /** Where the next bytes that a request for `count` bytes asks for end, in the file. */
    ghost function Wanted(fs: FileSystem, fd: nat, count: nat): nat
      requires fs.Valid() && Valid() && fd < FD_SIZE
      reads inode, filePos
    {
      if inode[fd] < |fs.inodes| then Max(0, Min(count, fs.inodes[inode[fd]].length - filePos[fd])) else 0
    }

    /** file_read: the next bytes of the file; nothing at its end. The count reaches
        read_data as a uint32_t, so that a negative one asks for all the rest. */
    method FileRead(fs: FileSystem, fd: int, buf: array<byte>, at: nat, nbytes: int) returns (r: int)
      requires fs.Valid() && Valid() && buf != fs.disk && at <= buf.Length && -0x8000_0000 <= nbytes < 0x8000_0000
      requires 2 <= fd < FD_SIZE ==>
                 filePos[fd] + nbytes % TWO32 < TWO32 && at + Wanted(fs, fd, nbytes % TWO32) <= buf.Length
      modifies buf, filePos
      ensures Valid()
      ensures fd <= 1 || fd >= FD_SIZE || inode[fd] >= |fs.inodes| ==>
                r == -1 && buf[..] == old(buf[..]) && filePos[..] == old(filePos[..])
      ensures 2 <= fd < FD_SIZE && inode[fd] < |fs.inodes| ==>
                var ino, pos, n := fs.inodes[inode[fd]], old(filePos[fd]), old(Wanted(fs, fd, nbytes % TWO32));
                var k := Reached(fs.disk[..], ino, pos, n);
                && r == (if k == n then n else -1)
                && filePos[..] == old(filePos[..])[fd := pos + Max(0, r)]
                && buf[..] == Blit(old(buf[..]), at, Slice(fs.disk[..], ino, pos, k))
    {
      if fd <= 1 || fd >= FD_SIZE {
        return -1;
      }
      hide Wanted, Blit, Slice, Reached;
      r := Advance(fs, fd, buf, at, nbytes % TWO32);
    }

    /** The read and the new file position. */
    method Advance(fs: FileSystem, fd: nat, buf: array<byte>, at: nat, count: nat) returns (r: int)
      requires fs.Valid() && Valid() && buf != fs.disk && at <= buf.Length && fd < FD_SIZE
      requires filePos[fd] + count < TWO32 && at + Wanted(fs, fd, count) <= buf.Length
      modifies buf, filePos
      ensures Valid()
      ensures inode[fd] >= |fs.inodes| ==> r == -1 && buf[..] == old(buf[..]) && filePos[..] == old(filePos[..])
      ensures inode[fd] < |fs.inodes| ==>
                var ino, pos, n := fs.inodes[inode[fd]], old(filePos[fd]), old(Wanted(fs, fd, count));
                var k := Reached(fs.disk[..], ino, pos, n);
                && r == (if k == n then n else -1)
                && filePos[..] == old(filePos[..])[fd := pos + Max(0, r)]
                && buf[..] == Blit(old(buf[..]), at, Slice(fs.disk[..], ino, pos, k))
    {
      hide OnDisk, FileBytes, Blit, Slice, Reached, WellFormed, Wanted;
      WantedIs(fs, fd, count);
      Aligned(fs, fd, filePos[fd], Wanted(fs, fd, count));
      BlitNone(buf[..], at);
      r := fs.ReadData(inode[fd], filePos[fd], buf, at, count);
      if r == -1 {
        return -1;
      }
      filePos[fd] := filePos[fd] + r;
    }

    /** file_read on a descriptor whose file is wholly on the disk. */
    method ReadOpened(fs: FileSystem, fd: nat, buf: array<byte>, at: nat, nbytes: nat) returns (r: nat)
      requires fs.Valid() && Valid() && 2 <= fd < FD_SIZE && Opened(fs, fd)
      requires buf != fs.disk && at + nbytes <= buf.Length && nbytes < 0x8000_0000
      modifies buf, filePos
      ensures Valid()
      ensures var file, pos := File(fs, fd), old(filePos[fd]);
              && r == Max(0, Min(nbytes, |file| - pos))
              && filePos[..] == old(filePos[..])[fd := pos + r]
              && (r > 0 ==> buf[..] == Blit(old(buf[..]), at, file[pos..pos + r]))
              && (r == 0 ==> buf[..] == old(buf[..]))
    {
      hide OnDisk, FileBytes, Blit, Slice, Reached, WellFormed;
      assert nbytes % TWO32 == nbytes;
      ghost var n := Wanted(fs, fd, nbytes);
      assert n > 0 ==> filePos[fd] + n <= fs.inodes[inode[fd]].length;
      Aligned(fs, fd, filePos[fd], n);
      BlitNone(buf[..], at);
      hide Wanted;
      var got := FileRead(fs, fd, buf, at, nbytes);
      r := got;
    }

    lemma WantedIs(fs: FileSystem, fd: nat, count: nat)
      requires fs.Valid() && Valid() && fd < FD_SIZE
      ensures var n := Wanted(fs, fd, count);
              if inode[fd] < |fs.inodes| && filePos[fd] < fs.inodes[inode[fd]].length
              then n == Min(count, fs.inodes[inode[fd]].length - filePos[fd]) else n == 0
    {
    }

    /** What a read within the bounds of a file finds. */
    lemma Aligned(fs: FileSystem, fd: nat, pos: nat, n: nat)
      requires fs.Valid() && fd < inode.Length
      ensures inode[fd] < |fs.inodes| ==>
                && fs.inodes[inode[fd]].length <= INDEX * BLOCK
                && (n == 0 ==> Reached(fs.disk[..], fs.inodes[inode[fd]], pos, n) == 0)
                && (n == 0 ==> Slice(fs.disk[..], fs.inodes[inode[fd]], pos, n) == [])
      ensures Opened(fs, fd) && pos + n <= fs.inodes[inode[fd]].length ==>
                && Reached(fs.disk[..], fs.inodes[inode[fd]], pos, n) == n
                && Slice(fs.disk[..], fs.inodes[inode[fd]], pos, n) == File(fs, fd)[pos..pos + n]
    {
      if inode[fd] < |fs.inodes| {
        assert WellFormed(fs.inodes[inode[fd]]);
      }
      if Opened(fs, fd) && pos + n <= fs.inodes[inode[fd]].length {
        WholeFile(fs.disk[..], fs.inodes[inode[fd]], pos, n);
      }
    }

    /** One read into a buffer of its own. */
    method ReadPiece(fs: FileSystem, fd: nat, count: nat) returns (piece: seq<byte>)
      requires fs.Valid() && Valid() && 2 <= fd < FD_SIZE && Opened(fs, fd) && filePos[fd] <= |File(fs, fd)|
      requires count < 0x8000_0000
      modifies filePos
      ensures Valid() && filePos[fd] == Min(|File(fs, fd)|, old(filePos[fd]) + count)
      ensures piece == File(fs, fd)[old(filePos[fd])..filePos[fd]]
    {
      hide OnDisk, FileBytes, Blit;
      var buf := new byte[count](_ => NUL);
      ghost var file, pos, before := File(fs, fd), filePos[fd], buf[..];
      var r := ReadOpened(fs, fd, buf, 0, count);
      BlitSlices(before, 0, file[pos..pos + r], 0, 0);
      assert buf[..r] == buf[..][0..r] == file[pos..pos + r];
      piece := buf[..r];
    }

    /** Any sequence of reads yields consecutive pieces of the file. */
    method ReadMany(fs: FileSystem, fd: nat, counts: seq<nat>) returns (got: seq<byte>)
      requires fs.Valid() && Valid() && 2 <= fd < FD_SIZE && Opened(fs, fd) && filePos[fd] <= |File(fs, fd)|
      requires forall i :: 0 <= i < |counts| ==> counts[i] < 0x8000_0000
      modifies filePos
      ensures Valid() && filePos[fd] == Min(|File(fs, fd)|, old(filePos[fd]) + Sum(counts))
      ensures old(filePos[fd]) <= filePos[fd] && got == File(fs, fd)[old(filePos[fd])..filePos[fd]]
    {
      hide OnDisk, FileBytes;
      got := [];
      ghost var file, start := File(fs, fd), filePos[fd];
      assert counts[..0] == [];
      for i := 0 to |counts|
        invariant Valid() && start <= filePos[fd] == Min(|file|, start + Sum(counts[..i]))
        invariant got == file[start..filePos[fd]]
      {
        var piece := ReadPiece(fs, fd, counts[i]);
        got := got + piece;
        assert counts[..i + 1][..i] == counts[..i];
      }
      assert counts[..|counts|] == counts;
    }
  }

  function Sum(s: seq<nat>): nat {
    if s == [] then 0 else Sum(s[..|s| - 1]) + s[|s| - 1]
  }
}
