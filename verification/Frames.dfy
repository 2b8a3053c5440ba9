/** add_frames of fish.c: two text files merged into blinking characters. */
module Frames {
  import opened Bytes
  import opened Platform
  import opened FileSys
  import opened Text

  const OFFSET := 40

  /** One RTC_ADD request; `location` is an unsigned short. */
  datatype Add = Add(onChar: byte, offChar: byte, location: nat)

  // ----- what must be added ----------------------------------------------------------

  function First(lines: seq<seq<byte>>): seq<byte> { if lines == [] then [] else lines[0] }

  function Rest(lines: seq<seq<byte>>): seq<seq<byte>> { if lines == [] then [] else lines[1..] }

  /** A line goes on with spaces. */
  function PadAt(line: seq<byte>, col: nat): byte { if col < |line| then line[col] else SPACE }

  /** The characters of one row, from `col` on: a pair for every column not blank in both. */
  function RowAdds(row: nat, l0: seq<byte>, l1: seq<byte>, col: nat): seq<Add>
    decreases |l0| + |l1| - col
  {
    if col >= Max(|l0|, |l1|) then []
    else
      (if PadAt(l0, col) == SPACE && PadAt(l1, col) == SPACE then []
       else [Add(PadAt(l0, col), PadAt(l1, col), (row * COLS + col + OFFSET) % 0x1_0000)])
      + RowAdds(row, l0, l1, col + 1)
  }

  /** Line by line; the shorter file goes on with empty lines. */
  function AllAdds(lines0: seq<seq<byte>>, lines1: seq<seq<byte>>, row: nat): seq<Add>
    decreases |lines0| + |lines1|
  {
    if lines0 == [] && lines1 == [] then []
    else RowAdds(row, First(lines0), First(lines1), 0) + AllAdds(Rest(lines0), Rest(lines1), row + 1)
  }

  // ----- that this is the merge of the two files ---------------------------------------

  datatype At = At(row: nat, col: nat)

  predicate Before(p: At, q: At) { p.row < q.row || (p.row == q.row && p.col < q.col) }

  /** What a text shows at a position: spaces around its characters. */
  function CharAt(lines: seq<seq<byte>>, p: At): byte {
    if p.row < |lines| && p.col < |lines[p.row]| then lines[p.row][p.col] else SPACE
  }

  /** The two texts are not both blank at `p`. */
  predicate Marked(lines0: seq<seq<byte>>, lines1: seq<seq<byte>>, p: At) {
    CharAt(lines0, p) != SPACE || CharAt(lines1, p) != SPACE
  }

  /** `a` is the request for `p`, which is shown on screen row `row + p.row`. */
  predicate IsAdd(lines0: seq<seq<byte>>, lines1: seq<seq<byte>>, row: nat, p: At, a: Add) {
    && Marked(lines0, lines1, p)
    && a == Add(CharAt(lines0, p), CharAt(lines1, p), ((row + p.row) * COLS + p.col + OFFSET) % 0x1_0000)
  }

  /** The requests are those for the positions not blank in both texts, each once, row by
      row and column by column; `at` lists the positions. */
  ghost predicate Covers(adds: seq<Add>, at: seq<At>, lines0: seq<seq<byte>>, lines1: seq<seq<byte>>, row: nat) {
    && |adds| == |at|
    && (forall k :: 0 <= k < |at| ==> IsAdd(lines0, lines1, row, at[k], adds[k]))
    && (forall k, l :: 0 <= k < l < |at| ==> Before(at[k], at[l]))
    && (forall p :: Marked(lines0, lines1, p) ==> p in at)
  }

  /** The same for one row, from column `col` on. */
  ghost predicate RowCovers(adds: seq<Add>, cols: seq<nat>, row: nat, l0: seq<byte>, l1: seq<byte>, col: nat) {
    && |adds| == |cols|
    && (forall k :: 0 <= k < |cols| ==> col <= cols[k] && IsAdd([l0], [l1], row, At(0, cols[k]), adds[k]))
    && (forall k, l :: 0 <= k < l < |cols| ==> cols[k] < cols[l])
    && (forall c :: col <= c && Marked([l0], [l1], At(0, c)) ==> c in cols)
  }

  lemma {:induction false} RowCovered(row: nat, l0: seq<byte>, l1: seq<byte>, col: nat) returns (cols: seq<nat>)
    ensures RowCovers(RowAdds(row, l0, l1, col), cols, row, l0, l1, col)
    decreases |l0| + |l1| - col
  {
    hide RowCovers, Marked, PadAt;
    if col >= Max(|l0|, |l1|) {
      cols := [];
      RowEnds(row, l0, l1, col);
    } else {
      var rest := RowCovered(row, l0, l1, col + 1);
      var more := RowAdds(row, l0, l1, col + 1);
      PadMarked(l0, l1, col);
      if PadAt(l0, col) == SPACE && PadAt(l1, col) == SPACE {
        cols := rest;
        ColumnSkipped(row, l0, l1, col, rest, more);
        assert [] + more == more;
      } else {
        cols := [col] + rest;
        ColumnCovers(row, l0, l1, col, rest, more);
      }
    }
  }

  lemma PadMarked(l0: seq<byte>, l1: seq<byte>, col: nat)
    ensures CharAt([l0], At(0, col)) == PadAt(l0, col) && CharAt([l1], At(0, col)) == PadAt(l1, col)
    ensures Marked([l0], [l1], At(0, col)) <==> !(PadAt(l0, col) == SPACE && PadAt(l1, col) == SPACE)
  {
  }

  lemma RowEnds(row: nat, l0: seq<byte>, l1: seq<byte>, col: nat)
    requires col >= Max(|l0|, |l1|)
    ensures RowCovers([], [], row, l0, l1, col)
  {
    forall c | col <= c
      ensures !Marked([l0], [l1], At(0, c))
    {
      PadMarked(l0, l1, c);
    }
  }

  lemma ColumnSkipped(row: nat, l0: seq<byte>, l1: seq<byte>, col: nat, cols: seq<nat>, adds: seq<Add>)
    requires RowCovers(adds, cols, row, l0, l1, col + 1) && !Marked([l0], [l1], At(0, col))
    ensures RowCovers(adds, cols, row, l0, l1, col)
  {
    hide Marked, IsAdd;
    forall c | col <= c && Marked([l0], [l1], At(0, c))
      ensures c in cols
    {
      assert c != col;
    }
  }

  lemma ColumnCovers(row: nat, l0: seq<byte>, l1: seq<byte>, col: nat, cols: seq<nat>, adds: seq<Add>)
    requires RowCovers(adds, cols, row, l0, l1, col + 1) && Marked([l0], [l1], At(0, col))
    ensures RowCovers([Add(PadAt(l0, col), PadAt(l1, col), (row * COLS + col + OFFSET) % 0x1_0000)] + adds,
                      [col] + cols, row, l0, l1, col)
  {
    hide Marked, IsAdd, PadAt;
    var first := Add(PadAt(l0, col), PadAt(l1, col), (row * COLS + col + OFFSET) % 0x1_0000);
    FirstColumn(row, l0, l1, col);
    forall k | 0 < k < |cols| + 1
      ensures ([col] + cols)[k] == cols[k - 1] && ([first] + adds)[k] == adds[k - 1]
    {
    }
    forall c | col <= c && Marked([l0], [l1], At(0, c))
      ensures c in [col] + cols
    {
      assert c == col || c in cols;
    }
  }

  lemma FirstColumn(row: nat, l0: seq<byte>, l1: seq<byte>, col: nat)
    requires Marked([l0], [l1], At(0, col))
    ensures IsAdd([l0], [l1], row, At(0, col), Add(PadAt(l0, col), PadAt(l1, col), (row * COLS + col + OFFSET) % 0x1_0000))
  {
    PadMarked(l0, l1, col);
  }

  function InRow(cols: seq<nat>): (at: seq<At>)
    ensures |at| == |cols| && forall k :: 0 <= k < |cols| ==> at[k] == At(0, cols[k])
  {
    seq(|cols|, k requires 0 <= k < |cols| => At(0, cols[k]))
  }

  function Lower(at: seq<At>): (l: seq<At>)
    ensures |l| == |at| && forall k :: 0 <= k < |at| ==> l[k] == At(at[k].row + 1, at[k].col)
  {
    seq(|at|, k requires 0 <= k < |at| => At(at[k].row + 1, at[k].col))
  }

  /** The requests of add_frames, in their order. */
  lemma {:induction false} AllCovered(lines0: seq<seq<byte>>, lines1: seq<seq<byte>>, row: nat) returns (at: seq<At>)
    ensures Covers(AllAdds(lines0, lines1, row), at, lines0, lines1, row)
    decreases |lines0| + |lines1|
  {
    hide Covers, RowCovers, RowAdds;
    if lines0 == [] && lines1 == [] {
      at := [];
      NothingCovers(row);
    } else {
      var cols := RowCovered(row, First(lines0), First(lines1), 0);
      var rest := AllCovered(Rest(lines0), Rest(lines1), row + 1);
      at := InRow(cols) + Lower(rest);
      RowsCover(lines0, lines1, row, cols, rest, RowAdds(row, First(lines0), First(lines1), 0),
                AllAdds(Rest(lines0), Rest(lines1), row + 1));
    }
  }

  lemma NothingCovers(row: nat)
    ensures Covers([], [], [], [], row)
  {
  }

  /** The first row's positions and the others'. */
  lemma CharBelow(lines: seq<seq<byte>>, p: At)
    ensures CharAt(lines, p) ==
            if p.row == 0 then CharAt([First(lines)], p) else CharAt(Rest(lines), At(p.row - 1, p.col))
  {
  }

  lemma RowsCover(lines0: seq<seq<byte>>, lines1: seq<seq<byte>>, row: nat, cols: seq<nat>, rest: seq<At>,
                  first: seq<Add>, more: seq<Add>)
    requires RowCovers(first, cols, row, First(lines0), First(lines1), 0)
    requires Covers(more, rest, Rest(lines0), Rest(lines1), row + 1)
    ensures Covers(first + more, InRow(cols) + Lower(rest), lines0, lines1, row)
  {
    hide InRow, Lower, First, Rest, CharAt;
    var at, adds := InRow(cols) + Lower(rest), first + more;
    forall k | 0 <= k < |at|
      ensures IsAdd(lines0, lines1, row, at[k], adds[k])
    {
      CharBelow(lines0, at[k]);
      CharBelow(lines1, at[k]);
      if k >= |cols| {
        assert IsAdd(Rest(lines0), Rest(lines1), row + 1, rest[k - |cols|], more[k - |cols|]);
      }
    }
    forall p | Marked(lines0, lines1, p)
      ensures p in at
    {
      CharBelow(lines0, p);
      CharBelow(lines1, p);
      if p.row == 0 {
        RowListed(cols, rest, p);
      } else {
        assert At(p.row - 1, p.col) in rest;
        LowerListed(cols, rest, p);
      }
    }
  }

  lemma RowListed(cols: seq<nat>, rest: seq<At>, p: At)
    requires p.row == 0 && p.col in cols
    ensures p in InRow(cols) + Lower(rest)
  {
    var k :| 0 <= k < |cols| && cols[k] == p.col;
    assert (InRow(cols) + Lower(rest))[k] == p;
  }

  lemma LowerListed(cols: seq<nat>, rest: seq<At>, p: At)
    requires p.row > 0 && At(p.row - 1, p.col) in rest
    ensures p in InRow(cols) + Lower(rest)
  {
    var k :| 0 <= k < |rest| && rest[k] == At(p.row - 1, p.col);
    assert (InRow(cols) + Lower(rest))[|cols| + k] == p;
  }

  // ----- one file's place in the current row -----------------------------------------

  predicate NoNewline(line: seq<byte>) { forall i :: 0 <= i < |line| ==> line[i] != NEWLINE }

  /** Column `col` of `line` is next and the lines in `rest` follow. A newline in `c` says
      that the line is over, or that the file was already over before it. */
  ghost predicate Place(file: seq<byte>, pos: nat, eof: bool, c: byte, line: seq<byte>, rest: seq<seq<byte>>, col: nat) {
    && pos <= |file| && NoNewline(line)
    && if c != NEWLINE then !eof && col <= |line| && Lines(file[pos..]) == [line[col..]] + rest
       else |line| <= col && (if eof then rest == [] else Lines(file[pos..]) == rest)
  }

  /** The end of the file, or its next character. */
  lemma PlaceMoves(file: seq<byte>, pos: nat, c: byte, line: seq<byte>, rest: seq<seq<byte>>, col: nat)
    requires Place(file, pos, false, c, line, rest, col) && c != NEWLINE
    ensures pos == |file| ==> col == |line| && Place(file, pos, true, NEWLINE, line, rest, col + 1)
    ensures pos < |file| ==>
              && file[pos] == (if col < |line| then line[col] else NEWLINE)
              && Place(file, pos + 1, false, file[pos], line, rest, col + 1)
  {
    if pos < |file| {
      var text, below := file[pos..], file[pos + 1..];
      assert text == [file[pos]] + below;
      FirstOfLines(text);
      if file[pos] == NEWLINE {
        LineEndIs(text, 0);
        hide Lines, LineEnd;
        assert text[1..] == below && line[col..] == [];
      } else {
        CharFirst(file[pos], below);
        hide Lines, LineEnd;
        assert Lines(below)[0] == line[col..][1..] == line[col + 1..];
      }
    } else {
      FirstOfLines([]);
      assert file[pos..] == [];
    }
  }

  /** Reads the next character of one file unless its line is over. */
  method NextChar(fs: FileSystem, files: OpenFiles, fd: nat, c0: byte, eof0: bool,
                  ghost line: seq<byte>, ghost rest: seq<seq<byte>>, ghost col: nat)
    returns (c: byte, eof: bool)
    requires fs.Valid() && files.Valid() && 2 <= fd < FD_SIZE && files.Opened(fs, fd)
    requires Place(files.File(fs, fd), files.filePos[fd], eof0, c0, line, rest, col)
    modifies files.filePos
    ensures files.Valid() && files.filePos[..] == old(files.filePos[..])[fd := files.filePos[fd]]
    ensures Place(files.File(fs, fd), files.filePos[fd], eof, c, line, rest, col + 1)
    ensures c == if col < |line| then line[col] else NEWLINE
  {
    c, eof := c0, eof0;
    ghost var file, pos := files.File(fs, fd), files.filePos[fd];
    assert pos <= |file|;
    assert c == NEWLINE ==> Place(file, pos, eof, c, line, rest, col + 1) && |line| <= col;
    assert c != NEWLINE ==> !eof;
    hide OnDisk, FileBytes, Place, Blit;
    if c != NEWLINE {
      PlaceMoves(file, pos, c, line, rest, col);
      c, eof := ReadChar(fs, files, fd, file);
    }
  }

  method ReadChar(fs: FileSystem, files: OpenFiles, fd: nat, ghost file: seq<byte>) returns (c: byte, eof: bool)
    requires fs.Valid() && files.Valid() && 2 <= fd < FD_SIZE && files.Opened(fs, fd)
    requires file == files.File(fs, fd) && files.filePos[fd] <= |file|
    modifies files.filePos
    ensures files.Valid() && files.filePos[..] == old(files.filePos[..])[fd := files.filePos[fd]]
    ensures eof <==> old(files.filePos[fd]) == |file|
    ensures eof ==> c == NEWLINE && files.filePos[fd] == old(files.filePos[fd])
    ensures !eof ==> c == file[old(files.filePos[fd])] && files.filePos[fd] == old(files.filePos[fd]) + 1
  {
    var buf := new byte[1](_ => NEWLINE);
    ghost var pos, before := files.filePos[fd], buf[..];
    var numBytes := files.ReadOpened(fs, fd, buf, 0, 1);
    if numBytes == 0 {
      return NEWLINE, true;
    }
    BlitSlices(before, 0, file[pos..pos + 1], 0, 0);
    assert buf[..] == [file[pos]];
    c, eof := buf[0], false;
  }

  // ----- add_frames ------------------------------------------------------------------

  /** One row: the inner loop. */
  method AddRow(fs: FileSystem, files: OpenFiles, fd0: nat, fd1: nat, row: nat, ca: byte, cb: byte, ea: bool, eb: bool,
                ghost l0: seq<byte>, ghost l1: seq<byte>, ghost r0: seq<seq<byte>>, ghost r1: seq<seq<byte>>)
    returns (adds: seq<Add>, eof0: bool, eof1: bool, ghost end: nat)
    requires fs.Valid() && files.Valid() && 2 <= fd0 < FD_SIZE && 2 <= fd1 < FD_SIZE && fd0 != fd1
    requires files.Opened(fs, fd0) && files.Opened(fs, fd1)
    requires Place(files.File(fs, fd0), files.filePos[fd0], ea, ca, l0, r0, 0)
    requires Place(files.File(fs, fd1), files.filePos[fd1], eb, cb, l1, r1, 0)
    requires NoNewline(l0) && NoNewline(l1)
    modifies files.filePos
    ensures files.Valid()
    ensures adds == RowAdds(row, l0, l1, 0)
    ensures Place(files.File(fs, fd0), files.filePos[fd0], eof0, NEWLINE, l0, r0, end)
    ensures Place(files.File(fs, fd1), files.filePos[fd1], eof1, NEWLINE, l1, r1, end)
  {
    hide OnDisk, FileBytes, Place;
    var c0, c1, col: nat := ca, cb, 0;
    eof0, eof1, adds := ea, eb, [];
    ghost var f0, f1 := files.File(fs, fd0), files.File(fs, fd1);
    while true
      invariant files.Valid()
      invariant Place(f0, files.filePos[fd0], eof0, c0, l0, r0, col)
      invariant Place(f1, files.filePos[fd1], eof1, c1, l1, r1, col)
      invariant adds + RowAdds(row, l0, l1, col) == RowAdds(row, l0, l1, 0)
      decreases Max(|l0|, |l1|) + 1 - col
    {
      c0, eof0 := NextChar(fs, files, fd0, c0, eof0, l0, r0, col);
      c1, eof1 := NextChar(fs, files, fd1, c1, eof1, l1, r1, col);
      end := col + 1;
      if c0 == NEWLINE && c1 == NEWLINE {
        break;
      }
      ghost var before, later := adds, RowAdds(row, l0, l1, col + 1);
      if (c0 != SPACE && c0 != NEWLINE) || (c1 != SPACE && c1 != NEWLINE) {
        var onChar := if c0 == NEWLINE then SPACE else c0;
        var offChar := if c1 == NEWLINE then SPACE else c1;
        adds := adds + [Add(onChar, offChar, (row * COLS + col + OFFSET) % 0x1_0000)];
      }
      AppendAdds(before, adds, row, l0, l1, col);
      col := col + 1;
    }
  }

  lemma AppendAdds(before: seq<Add>, after: seq<Add>, row: nat, l0: seq<byte>, l1: seq<byte>, col: nat)
    requires col < Max(|l0|, |l1|)
    requires after == before + if PadAt(l0, col) == SPACE && PadAt(l1, col) == SPACE then []
                               else [Add(PadAt(l0, col), PadAt(l1, col), (row * COLS + col + OFFSET) % 0x1_0000)]
    ensures before + RowAdds(row, l0, l1, col) == after + RowAdds(row, l0, l1, col + 1)
  {
  }

  /** The whole merge, on two freshly opened files. */
  method AddFrames(fs: FileSystem, files: OpenFiles, fd0: nat, fd1: nat) returns (adds: seq<Add>)
    requires fs.Valid() && files.Valid() && 2 <= fd0 < FD_SIZE && 2 <= fd1 < FD_SIZE && fd0 != fd1
    requires files.Opened(fs, fd0) && files.Opened(fs, fd1) && files.filePos[fd0] == files.filePos[fd1] == 0
    modifies files.filePos
    ensures adds == AllAdds(Lines(files.File(fs, fd0)), Lines(files.File(fs, fd1)), 0)
    ensures exists at :: Covers(adds, at, Lines(files.File(fs, fd0)), Lines(files.File(fs, fd1)), 0)
  {
    hide OnDisk, FileBytes, Place, RowStart, AllAdds, RowAdds, Lines, First, Rest, Covers;
    ghost var f0, f1 := files.File(fs, fd0), files.File(fs, fd1);
    ghost var lines0, lines1 := Lines(f0), Lines(f1);
    ghost var all := AllAdds(lines0, lines1, 0);
    ghost var at := AllCovered(lines0, lines1, 0);
    assert Covers(all, at, lines0, lines1, 0);
    FirstRow(f0);
    FirstRow(f1);
    var c0: byte, c1: byte, eof0, eof1, row: nat := ZERO_DIGIT, ZERO_DIGIT, false, false, 0;
    adds := [];
    while !eof0 || !eof1
      invariant files.Valid()
      invariant RowStart(f0, files.filePos[fd0], eof0, c0, lines0) && RowStart(f1, files.filePos[fd1], eof1, c1, lines1)
      invariant adds + AllAdds(lines0, lines1, row) == all
      decreases |lines0| + |lines1|
    {
      StartRow(f0, files.filePos[fd0], eof0, c0, lines0);
      StartRow(f1, files.filePos[fd1], eof1, c1, lines1);
      var more, ea, eb;
      ghost var end;
      more, ea, eb, end := AddRow(fs, files, fd0, fd1, row, c0, c1, eof0, eof1,
                                  First(lines0), First(lines1), Rest(lines0), Rest(lines1));
      eof0, eof1 := ea, eb;
      c0 := if eof0 then NEWLINE else ZERO_DIGIT;
      c1 := if eof1 then NEWLINE else ZERO_DIGIT;
      EndRow(f0, files.filePos[fd0], eof0, First(lines0), Rest(lines0), end);
      EndRow(f1, files.filePos[fd1], eof1, First(lines1), Rest(lines1), end);
      AppendRow(adds, more, lines0, lines1, row);
      adds := adds + more;
      lines0, lines1, row := Rest(lines0), Rest(lines1), row + 1;
    }
    StartRow(f0, files.filePos[fd0], eof0, c0, lines0);
    StartRow(f1, files.filePos[fd1], eof1, c1, lines1);
    NoRows(row);
  }

  lemma FirstRow(file: seq<byte>)
    ensures RowStart(file, 0, false, ZERO_DIGIT, Lines(file))
  {
    assert file[0..] == file;
  }

  lemma NoRows(row: nat)
    ensures AllAdds([], [], row) == []
  {
  }

  lemma AppendRow(adds: seq<Add>, more: seq<Add>, lines0: seq<seq<byte>>, lines1: seq<seq<byte>>, row: nat)
    requires lines0 != [] || lines1 != []
    requires more == RowAdds(row, First(lines0), First(lines1), 0)
    ensures adds + AllAdds(lines0, lines1, row) == adds + more + AllAdds(Rest(lines0), Rest(lines1), row + 1)
    ensures |Rest(lines0)| + |Rest(lines1)| < |lines0| + |lines1|
  {
  }

  lemma EndRow(file: seq<byte>, pos: nat, eof: bool, line: seq<byte>, rest: seq<seq<byte>>, end: nat)
    requires Place(file, pos, eof, NEWLINE, line, rest, end)
    ensures RowStart(file, pos, eof, if eof then NEWLINE else ZERO_DIGIT, rest)
  {
  }

  /** Between two rows: the lines that are left. */
  ghost predicate RowStart(file: seq<byte>, pos: nat, eof: bool, c: byte, lines: seq<seq<byte>>) {
    && pos <= |file|
    && if eof then c == NEWLINE && lines == [] else c == ZERO_DIGIT && lines == Lines(file[pos..])
  }

  lemma StartRow(file: seq<byte>, pos: nat, eof: bool, c: byte, lines: seq<seq<byte>>)
    requires RowStart(file, pos, eof, c, lines)
    ensures Place(file, pos, eof, c, First(lines), Rest(lines), 0)
    ensures NoNewline(First(lines)) && (eof <==> lines == [])
  {
  }
}
