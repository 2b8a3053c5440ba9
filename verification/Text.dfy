/** Lines of a text. */
module Text {
  import opened Bytes

  /** Index of the first newline, or the length of the text. */
  function LineEnd(text: seq<byte>): (k: nat)
    ensures k <= |text| && (k < |text| ==> text[k] == NEWLINE)
    ensures forall i :: 0 <= i < k ==> text[i] != NEWLINE
  {
    if text == [] || text[0] == NEWLINE then 0 else 1 + LineEnd(text[1..])
  }

  function Lines(text: seq<byte>): seq<seq<byte>>
    decreases |text|
  {
    var k := LineEnd(text);
    [text[..k]] + if k == |text| then [] else Lines(text[k + 1..])
  }

  lemma LineEndIs(text: seq<byte>, k: nat)
    requires k <= |text| && (k < |text| ==> text[k] == NEWLINE)
    requires forall i :: 0 <= i < k ==> text[i] != NEWLINE
    ensures LineEnd(text) == k
  {
  }

  /** The lines after the first. */
  function LinesAfter(text: seq<byte>): seq<seq<byte>> {
    if LineEnd(text) == |text| then [] else Lines(text[LineEnd(text) + 1..])
  }

  lemma FirstOfLines(text: seq<byte>)
    ensures Lines(text) == [text[..LineEnd(text)]] + LinesAfter(text)
    ensures Lines(text)[0] == text[..LineEnd(text)] && Lines(text)[1..] == LinesAfter(text)
  {
  }

  /** Text without a part of its first line. */
  lemma CutText(text: seq<byte>, n: nat)
    requires n <= LineEnd(text)
    ensures LineEnd(text[n..]) == LineEnd(text) - n && LinesAfter(text[n..]) == LinesAfter(text)
    ensures Lines(text[n..])[0] == Lines(text)[0][n..] && Lines(text[n..])[1..] == Lines(text)[1..]
  {
    hide Lines;
    CutEnd(text, n);
    hide LineEnd;
    FirstOfLines(text);
    FirstOfLines(text[n..]);
    DropSlices(text, n, LineEnd(text));
  }

  lemma CutEnd(text: seq<byte>, n: nat)
    requires n <= LineEnd(text)
    ensures LineEnd(text[n..]) == LineEnd(text) - n <= |text[n..]| && LineEnd(text) <= |text|
  {
    LineEndIs(text[n..], LineEnd(text) - n);
  }

  lemma CharFirst(c: byte, text: seq<byte>)
    requires c != NEWLINE
    ensures Lines([c] + text)[0] == [c] + Lines(text)[0] && Lines([c] + text)[1..] == Lines(text)[1..]
  {
    var all := [c] + text;
    LineEndIs(all, LineEnd(text) + 1);
    assert all[1..] == text;
    CutText(all, 1);
    FirstOfLines(all);
    FirstOfLines(text);
    hide Lines, LineEnd;
    assert all[..LineEnd(text) + 1] == [c] + text[..LineEnd(text)];
  }

  lemma LineFirst(line: seq<byte>, more: seq<byte>)
    requires NEWLINE !in line
    ensures Lines(line + [NEWLINE] + more) == [line] + Lines(more)
  {
    var all := line + [NEWLINE] + more;
    assert forall i :: 0 <= i < |line| ==> all[i] == line[i];
    LineEndIs(all, |line|);
    assert all[..|line|] == line && all[|line| + 1..] == more;
    hide LineEnd;
  }

  /** Lines put together again. */
  function Joined(lines: seq<seq<byte>>): seq<byte> {
    if |lines| <= 1 then (if lines == [] then [] else lines[0])
    else lines[0] + [NEWLINE] + Joined(lines[1..])
  }

  lemma {:induction false} LinesBreak(text: seq<byte>)
    ensures forall line :: line in Lines(text) ==> NEWLINE !in line
    decreases |text|
  {
    if LineEnd(text) < |text| {
      LinesBreak(text[LineEnd(text) + 1..]);
    }
  }

  /** The lines of a text are the pieces between its newlines. */
  lemma {:induction false} LinesJoin(text: seq<byte>)
    ensures Lines(text) != [] && Joined(Lines(text)) == text
    decreases |text|
  {
    hide Lines, LineEnd, Joined;
    var k := LineEnd(text);
    FirstOfLines(text);
    JoinedFirst(text[..k], LinesAfter(text));
    assert k == |text| ==> text[..k] == text;
    if k < |text| {
      LinesJoin(text[k + 1..]);
      NewlineAt(text, k);
    }
  }

  lemma JoinedFirst(line: seq<byte>, rest: seq<seq<byte>>)
    ensures Joined([line] + rest) == if rest == [] then line else line + [NEWLINE] + Joined(rest)
  {
  }

  lemma NewlineAt(text: seq<byte>, k: nat)
    requires k < |text| && text[k] == NEWLINE
    ensures text == text[..k] + [NEWLINE] + text[k + 1..]
  {
  }
}
