/** The chunked line search of ece391grep.c, reading through file_read. */
module Grep {
  import opened Bytes
  import opened FileSys
  import opened Text

  const BUFSIZE := 1024
  const COLON: byte := 58

  // ----- what grep must print --------------------------------------------------------

  predicate OccursAt(line: seq<byte>, s: seq<byte>, k: nat) { k <= |line| && s <= line[k..] }

  /** The pattern occurs in the line; the empty pattern occurs nowhere. */
  predicate Matches(line: seq<byte>, s: seq<byte>) {
    s != [] && exists k :: 0 <= k <= |line| && OccursAt(line, s, k)
  }

  /** A line matches exactly if the pattern stands somewhere in it. */
  lemma MatchesIs(line: seq<byte>, s: seq<byte>)
    ensures Matches(line, s) <==> s != [] && exists before, after :: line == before + s + after
  {
    if Matches(line, s) {
      var k :| 0 <= k <= |line| && OccursAt(line, s, k);
      assert line == line[..k] + s + line[k + |s|..];
    }
    if s != [] && exists before, after :: line == before + s + after {
      var before, after :| line == before + s + after;
      assert line[|before|..] == s + after;
      assert OccursAt(line, s, |before|);
    }
  }

  function PrintLine(line: seq<byte>, s: seq<byte>, fname: seq<byte>): seq<byte> {
    if Matches(line, s) then fname + [COLON] + line + [NEWLINE] else []
  }

  function Printed(lines: seq<seq<byte>>, s: seq<byte>, fname: seq<byte>): seq<byte> {
    if lines == [] then [] else PrintLine(lines[0], s, fname) + Printed(lines[1..], s, fname)
  }

  /** The matching lines of the text, once each and in order, each after the file name. */
  function Matched(text: seq<byte>, s: seq<byte>, fname: seq<byte>): seq<byte> {
    Printed(Lines(text), s, fname)
  }

  // ----- what it prints --------------------------------------------------------------

  /** The lines as the buffer holds them: after 1024 bytes a line is cut. */
  function Pieces(text: seq<byte>): seq<seq<byte>>
    decreases |text|
  {
    var k := Min(LineEnd(text), BUFSIZE);
    [text[..k]] + if k == |text| then [] else Pieces(text[if k < BUFSIZE then k + 1 else k..])
  }

  function Found(text: seq<byte>, s: seq<byte>, fname: seq<byte>): seq<byte> {
    Printed(Pieces(text), s, fname)
  }

  lemma PrintedSplit(lines: seq<seq<byte>>, s: seq<byte>, fname: seq<byte>)
    requires lines != []
    ensures Printed(lines, s, fname) == PrintLine(lines[0], s, fname) + Printed(lines[1..], s, fname)
  {
  }

  /** The first piece ends at `k`. */
  lemma FirstPiece(text: seq<byte>, s: seq<byte>, fname: seq<byte>, k: nat)
    requires k <= |text| && k <= BUFSIZE && (k < |text| && k < BUFSIZE ==> text[k] == NEWLINE)
    requires forall i :: 0 <= i < k ==> text[i] != NEWLINE
    ensures Found(text, s, fname) ==
            PrintLine(text[..k], s, fname) +
            if k == |text| then [] else Found(text[if k < BUFSIZE then k + 1 else k..], s, fname)
  {
    assert Min(LineEnd(text), BUFSIZE) == k;
    PieceSplit(text, k);
    hide Pieces, PrintLine, LineEnd;
    PrintedSplit(Pieces(text), s, fname);
  }

  lemma PieceSplit(text: seq<byte>, k: nat)
    requires k <= |text| && k == Min(LineEnd(text), BUFSIZE)
    ensures Pieces(text) != [] && Pieces(text)[0] == text[..k]
    ensures Pieces(text)[1..] == if k == |text| then [] else Pieces(text[if k < BUFSIZE then k + 1 else k..])
  {
  }

  lemma NothingLeft(s: seq<byte>, fname: seq<byte>)
    ensures Found([], s, fname) == []
  {
    FirstPiece([], s, fname, 0);
  }

  // ----- when that is the same -------------------------------------------------------

  ghost predicate AllFit(lines: seq<seq<byte>>, s: seq<byte>) {
    forall line :: line in lines && Matches(line, s) ==> |line| <= BUFSIZE
  }

  /** Every line with the pattern in it fits into the buffer. */
  ghost predicate MatchesFit(text: seq<byte>, s: seq<byte>) { AllFit(Lines(text), s) }

  /** Cutting is harmless for lines in which the pattern does not occur. */
  lemma {:induction false} FittingFound(text: seq<byte>, s: seq<byte>, fname: seq<byte>)
    requires MatchesFit(text, s)
    ensures Found(text, s, fname) == Matched(text, s, fname)
    decreases |text|
  {
    var k := LineEnd(text);
    if k < BUFSIZE || |text| <= BUFSIZE {
      WholeLine(text, s, fname);
      if k < |text| {
        FittingFound(text[k + 1..], s, fname);
      }
    } else {
      FirstPiece(text, s, fname, BUFSIZE);
      CutLine(text, s, fname);
      FittingFound(text[BUFSIZE..], s, fname);
    }
  }

  /** A line that is not cut. */
  lemma WholeLine(text: seq<byte>, s: seq<byte>, fname: seq<byte>)
    requires MatchesFit(text, s) && (LineEnd(text) < BUFSIZE || |text| <= BUFSIZE)
    ensures var k := LineEnd(text);
            if k == |text| then Found(text, s, fname) == Matched(text, s, fname)
            else
              && MatchesFit(text[k + 1..], s)
              && (Found(text[k + 1..], s, fname) == Matched(text[k + 1..], s, fname) ==>
                    Found(text, s, fname) == Matched(text, s, fname))
  {
    hide Found, LineEnd, Lines, Printed, PrintLine, Matches, AllFit;
    FirstPiece(text, s, fname, LineEnd(text));
    FirstOfLines(text);
    FitsSplit(Lines(text), s);
    PrintedSplit(Lines(text), s, fname);
    PrintedNone(s, fname);
  }

  lemma PrintedNone(s: seq<byte>, fname: seq<byte>)
    ensures Printed([], s, fname) == []
  {
  }

  /** A line that is cut where it ends, or that does not match. */
  lemma CutLine(text: seq<byte>, s: seq<byte>, fname: seq<byte>)
    requires BUFSIZE <= LineEnd(text) && BUFSIZE < |text| && MatchesFit(text, s)
    ensures MatchesFit(text[BUFSIZE..], s)
    ensures PrintLine(text[..BUFSIZE], s, fname) + Matched(text[BUFSIZE..], s, fname) == Matched(text, s, fname)
  {
    hide Lines, LineEnd, Matches, AllFit, PrintLine, Printed;
    var lines, below := Lines(text), Lines(text[BUFSIZE..]);
    FirstOfLines(text);
    FirstOfLines(text[BUFSIZE..]);
    CutText(text, BUFSIZE);
    var line := lines[0];
    assert line[..BUFSIZE] == text[..BUFSIZE];
    PartMatches(line, s, BUFSIZE);
    FitsSplit(lines, s);
    FitsSplit(below, s);
    PartsPrinted(line, s, fname);
    PrintedSplit(lines, s, fname);
    PrintedSplit(below, s, fname);
  }

  lemma PartsPrinted(line: seq<byte>, s: seq<byte>, fname: seq<byte>)
    requires |line| >= BUFSIZE && (Matches(line, s) ==> |line| == BUFSIZE)
    ensures PrintLine(line, s, fname) == PrintLine(line[..BUFSIZE], s, fname) + PrintLine(line[BUFSIZE..], s, fname)
  {
    PartMatches(line, s, BUFSIZE);
    hide Matches;
    if |line| == BUFSIZE {
      assert line[BUFSIZE..] == [];
    }
  }

  lemma FitsSplit(lines: seq<seq<byte>>, s: seq<byte>)
    requires lines != []
    ensures AllFit(lines, s) <==> (Matches(lines[0], s) ==> |lines[0]| <= BUFSIZE) && AllFit(lines[1..], s)
  {
  }

  /** A part of a line matches only if the line does, and the empty part never. */
  lemma PartMatches(line: seq<byte>, s: seq<byte>, n: nat)
    requires n <= |line|
    ensures Matches(line[..n], s) || Matches(line[n..], s) ==> Matches(line, s)
    ensures !Matches([], s) && line[..|line|] == line
  {
    if Matches(line[..n], s) {
      var k :| 0 <= k <= n && OccursAt(line[..n], s, k);
      assert OccursAt(line, s, k);
    } else if Matches(line[n..], s) {
      var k :| 0 <= k <= |line[n..]| && OccursAt(line[n..], s, k);
      assert line[n..][k..] == line[n + k..];
      assert OccursAt(line, s, n + k);
    }
  }

  /** `shown` are the matching ones of `lines`, each once, in order, after the file name,
      and an empty one at the end; `at` says which they are. */
  ghost predicate IsListing(shown: seq<seq<byte>>, at: seq<nat>, lines: seq<seq<byte>>, s: seq<byte>, fname: seq<byte>) {
    && |shown| == |at| + 1 && shown[|at|] == []
    && (forall k :: 0 <= k < |at| ==>
          at[k] < |lines| && Matches(lines[at[k]], s) && shown[k] == fname + [COLON] + lines[at[k]])
    && (forall k, l :: 0 <= k < l < |at| ==> at[k] < at[l])
    && (forall i :: 0 <= i < |lines| && Matches(lines[i], s) ==> i in at)
  }

  /** The output's lines, once each and in the order of the file. */
  ghost predicate PrintsMatches(out: seq<byte>, lines: seq<seq<byte>>, s: seq<byte>, fname: seq<byte>) {
    exists at :: IsListing(Lines(out), at, lines, s, fname)
  }

  function Later(at: seq<nat>): (l: seq<nat>)
    ensures |l| == |at| && forall k :: 0 <= k < |at| ==> l[k] == at[k] + 1
  {
    seq(|at|, k requires 0 <= k < |at| => at[k] + 1)
  }

  lemma ListingSkips(shown: seq<seq<byte>>, at: seq<nat>, lines: seq<seq<byte>>, s: seq<byte>, fname: seq<byte>)
    requires lines != [] && !Matches(lines[0], s) && IsListing(shown, at, lines[1..], s, fname)
    ensures IsListing(shown, Later(at), lines, s, fname)
  {
    hide Matches, Later;
    forall i | 0 <= i < |lines| && Matches(lines[i], s)
      ensures i in Later(at)
    {
      assert lines[1..][i - 1] == lines[i] && i - 1 in at;
      var k :| 0 <= k < |at| && at[k] == i - 1;
      assert Later(at)[k] == i;
    }
  }

  lemma ListingTakes(shown: seq<seq<byte>>, at: seq<nat>, lines: seq<seq<byte>>, s: seq<byte>, fname: seq<byte>)
    requires lines != [] && Matches(lines[0], s) && IsListing(shown, at, lines[1..], s, fname)
    ensures IsListing([fname + [COLON] + lines[0]] + shown, [0] + Later(at), lines, s, fname)
  {
    hide Matches, Later, IsListing;
    var first := fname + [COLON] + lines[0];
    var all, longer := [0] + Later(at), [first] + shown;
    TakenShown(shown, at, lines, s, fname);
    forall i | 0 <= i < |lines| && Matches(lines[i], s)
      ensures i in all
    {
      TakenAt(shown, at, lines, s, fname, i);
    }
    IsListingWhen(longer, all, lines, s, fname);
  }

  lemma IsListingWhen(shown: seq<seq<byte>>, at: seq<nat>, lines: seq<seq<byte>>, s: seq<byte>, fname: seq<byte>)
    requires |shown| == |at| + 1 && shown[|at|] == []
    requires forall k :: 0 <= k < |at| ==>
               at[k] < |lines| && Matches(lines[at[k]], s) && shown[k] == fname + [COLON] + lines[at[k]]
    requires forall k, l :: 0 <= k < l < |at| ==> at[k] < at[l]
    requires forall i :: 0 <= i < |lines| && Matches(lines[i], s) ==> i in at
    ensures IsListing(shown, at, lines, s, fname)
  {
  }

  lemma TakenAt(shown: seq<seq<byte>>, at: seq<nat>, lines: seq<seq<byte>>, s: seq<byte>, fname: seq<byte>, i: nat)
    requires lines != [] && IsListing(shown, at, lines[1..], s, fname) && i < |lines| && Matches(lines[i], s)
    ensures i in [0] + Later(at)
  {
    hide Matches, Later;
    var all := [0] + Later(at);
    if i == 0 {
      assert all[0] == 0;
    } else {
      assert lines[1..][i - 1] == lines[i] && i - 1 in at;
      var k :| 0 <= k < |at| && at[k] == i - 1;
      assert all[k + 1] == i;
    }
  }

  lemma TakenShown(shown: seq<seq<byte>>, at: seq<nat>, lines: seq<seq<byte>>, s: seq<byte>, fname: seq<byte>)
    requires lines != [] && Matches(lines[0], s) && IsListing(shown, at, lines[1..], s, fname)
    ensures var all, longer := [0] + Later(at), [fname + [COLON] + lines[0]] + shown;
            && |longer| == |all| + 1 && longer[|all|] == []
            && (forall k :: 0 <= k < |all| ==>
                  all[k] < |lines| && Matches(lines[all[k]], s) && longer[k] == fname + [COLON] + lines[all[k]])
            && (forall k, l :: 0 <= k < l < |all| ==> all[k] < all[l])
  {
    hide Matches, Later;
    var all := [0] + Later(at);
    forall k | 0 < k < |all|
      ensures all[k] == at[k - 1] + 1 && lines[all[k]] == lines[1..][at[k - 1]]
    {
    }
  }

  lemma {:induction false} PrintedIsListing(lines: seq<seq<byte>>, s: seq<byte>, fname: seq<byte>)
    requires NEWLINE !in fname && forall line :: line in lines ==> NEWLINE !in line
    ensures PrintsMatches(Printed(lines, s, fname), lines, s, fname)
  {
    hide Matches, Lines, IsListing, PrintLine;
    if lines == [] {
      NothingListed(s, fname);
    } else {
      PrintedIsListing(lines[1..], s, fname);
      var more := Printed(lines[1..], s, fname);
      var at :| IsListing(Lines(more), at, lines[1..], s, fname);
      LinePrinted(lines[0], more, s, fname);
      if Matches(lines[0], s) {
        ListingTakes(Lines(more), at, lines, s, fname);
      } else {
        ListingSkips(Lines(more), at, lines, s, fname);
      }
    }
  }

  lemma NothingListed(s: seq<byte>, fname: seq<byte>)
    ensures IsListing(Lines([]), [], [], s, fname)
  {
    LineEndIs([], 0);
    FirstOfLines([]);
  }

  lemma LinePrinted(line: seq<byte>, more: seq<byte>, s: seq<byte>, fname: seq<byte>)
    requires NEWLINE !in fname && NEWLINE !in line
    ensures Lines(PrintLine(line, s, fname) + more) ==
            if Matches(line, s) then [fname + [COLON] + line] + Lines(more) else Lines(more)
  {
    hide Matches, Lines;
    LineFirst(fname + [COLON] + line, more);
    assert [] + more == more;
  }

  /** As many lines as match, and the empty one after the last newline. */
  lemma OutputSize(out: seq<byte>, lines: seq<seq<byte>>, s: seq<byte>, fname: seq<byte>)
    requires PrintsMatches(out, lines, s, fname)
    ensures |Lines(out)| == |set i | 0 <= i < |lines| && Matches(lines[i], s)| + 1
  {
    hide Lines, Matches, IsListing;
    var at :| IsListing(Lines(out), at, lines, s, fname);
    ListingIndices(Lines(out), at, lines, s, fname);
    NoDuplicates(at);
    assert Elements(at) == set i | 0 <= i < |lines| && Matches(lines[i], s);
  }

  lemma ListingIndices(shown: seq<seq<byte>>, at: seq<nat>, lines: seq<seq<byte>>, s: seq<byte>, fname: seq<byte>)
    requires IsListing(shown, at, lines, s, fname)
    ensures |shown| == |at| + 1 && forall k, l :: 0 <= k < l < |at| ==> at[k] != at[l]
    ensures forall i :: i in at <==> 0 <= i < |lines| && Matches(lines[i], s)
  {
    hide Matches;
  }

  lemma {:induction false} PieceLength(text: seq<byte>)
    ensures forall piece :: piece in Pieces(text) ==> |piece| <= BUFSIZE && NEWLINE !in piece
    decreases |text|
  {
    hide Pieces;
    var k := Min(LineEnd(text), BUFSIZE);
    PieceSplit(text, k);
    assert Pieces(text) == [Pieces(text)[0]] + Pieces(text)[1..];
    if k < |text| {
      PieceLength(text[if k < BUFSIZE then k + 1 else k..]);
    }
  }

  /** The pieces put together again: a piece shorter than the buffer ended at a newline. */
  function Rejoined(pieces: seq<seq<byte>>): seq<byte> {
    if |pieces| <= 1 then (if pieces == [] then [] else pieces[0])
    else pieces[0] + (if |pieces[0]| < BUFSIZE then [NEWLINE] else []) + Rejoined(pieces[1..])
  }

  /** Cutting loses nothing: the pieces hold the whole text. */
  lemma {:induction false} PiecesRejoin(text: seq<byte>)
    ensures Rejoined(Pieces(text)) == text
    decreases |text|
  {
    hide Pieces, LineEnd, Rejoined;
    var k := Min(LineEnd(text), BUFSIZE);
    PieceSplit(text, k);
    var rest := Pieces(text)[1..];
    assert Pieces(text) == [text[..k]] + rest;
    RejoinedFirst(text[..k], rest);
    if k == |text| {
      assert text[..k] == text;
    } else {
      var next := if k < BUFSIZE then k + 1 else k;
      PiecesRejoin(text[next..]);
      PieceSplit(text[next..], Min(LineEnd(text[next..]), BUFSIZE));
      CutHere(text, k);
    }
  }

  lemma CutHere(text: seq<byte>, k: nat)
    requires k < |text|
    ensures text == text[..k] + [] + text[k..]
    ensures text[k] == NEWLINE ==> text == text[..k] + [NEWLINE] + text[k + 1..]
  {
  }

  lemma RejoinedFirst(piece: seq<byte>, rest: seq<seq<byte>>)
    ensures Rejoined([piece] + rest) ==
            if rest == [] then piece else piece + (if |piece| < BUFSIZE then [NEWLINE] else []) + Rejoined(rest)
  {
  }

  /** grep prints what it must exactly if no matching line is longer than its buffer. */
  lemma FoundIsMatched(text: seq<byte>, s: seq<byte>, fname: seq<byte>)
    requires NEWLINE !in fname
    ensures Found(text, s, fname) == Matched(text, s, fname) <==> MatchesFit(text, s)
  {
    if MatchesFit(text, s) {
      FittingFound(text, s, fname);
    } else {
      LinesBreak(text);
      PieceLength(text);
      PrintedIsListing(Lines(text), s, fname);
      PrintedIsListing(Pieces(text), s, fname);
      LongLineShows(Matched(text, s, fname), Found(text, s, fname), Lines(text), Pieces(text), s, fname);
    }
  }

  /** What is printed, as lines. */
  lemma FoundListing(text: seq<byte>, s: seq<byte>, fname: seq<byte>)
    requires NEWLINE !in fname
    ensures PrintsMatches(Found(text, s, fname), Pieces(text), s, fname)
    ensures Found(text, s, fname) == Matched(text, s, fname) <==> MatchesFit(text, s)
    ensures MatchesFit(text, s) ==> PrintsMatches(Found(text, s, fname), Lines(text), s, fname)
  {
    hide Pieces, Lines, PrintsMatches, MatchesFit, Printed;
    FoundIsMatched(text, s, fname);
    LinesBreak(text);
    PieceLength(text);
    PrintedIsListing(Pieces(text), s, fname);
    PrintedIsListing(Lines(text), s, fname);
  }

  /** A long matching line is in one output and not in the other. */
  lemma LongLineShows(out: seq<byte>, cut: seq<byte>, lines: seq<seq<byte>>, pieces: seq<seq<byte>>,
                      s: seq<byte>, fname: seq<byte>)
    requires PrintsMatches(out, lines, s, fname) && PrintsMatches(cut, pieces, s, fname) && !AllFit(lines, s)
    requires forall piece :: piece in pieces ==> |piece| <= BUFSIZE
    ensures out != cut
  {
    hide Lines, Matches, IsListing, AllFit;
    var at :| IsListing(Lines(out), at, lines, s, fname);
    var under :| IsListing(Lines(cut), under, pieces, s, fname);
    LongListed(Lines(out), at, lines, s, fname);
    ShortListed(Lines(cut), under, pieces, s, fname);
  }

  lemma LongListed(shown: seq<seq<byte>>, at: seq<nat>, lines: seq<seq<byte>>, s: seq<byte>, fname: seq<byte>)
    requires IsListing(shown, at, lines, s, fname) && !AllFit(lines, s)
    ensures exists line :: line in shown && |line| > |fname| + 1 + BUFSIZE
  {
    hide Matches;
    var i :| 0 <= i < |lines| && Matches(lines[i], s) && |lines[i]| > BUFSIZE;
    var k :| 0 <= k < |at| && at[k] == i;
    assert shown[k] in shown;
  }

  lemma ShortListed(shown: seq<seq<byte>>, at: seq<nat>, lines: seq<seq<byte>>, s: seq<byte>, fname: seq<byte>)
    requires IsListing(shown, at, lines, s, fname) && forall line :: line in lines ==> |line| <= BUFSIZE
    ensures forall line :: line in shown ==> |line| <= |fname| + 1 + BUFSIZE
  {
    hide Matches;
    forall k | 0 <= k < |shown|
      ensures |shown[k]| <= |fname| + 1 + BUFSIZE
    {
      assert k < |at| ==> lines[at[k]] in lines;
    }
  }

  predicate NoNul(text: seq<byte>) { forall i :: 0 <= i < |text| ==> text[i] != NUL }

  // ----- the C string routines -------------------------------------------------------

  /** A C string held as the sequence of its characters. */
  function CharAt(s: seq<byte>, i: nat): byte { if i < |s| then s[i] else NUL }

  /** ece391_strncmp(data + check, s, strlen(s)) == 0 */
  method Strncmp(data: array<byte>, check: nat, s: seq<byte>, end: nat) returns (same: bool)
    requires check <= end < data.Length && data[end] == NUL && NoNul(data[check..end]) && NoNul(s)
    ensures same <==> s <= data[check..end]
  {
    if |s| == 0 {
      return true;
    }
    ghost var text := data[check..end];
    var n, i := |s|, 0;
    while data[check + i] == CharAt(s, i)
      invariant i < |s| && n == |s| - i && i <= |text| && text[..i] == s[..i]
      decreases n
    {
      assert i < |text|;
      n := n - 1;
      i := i + 1;
      if n == 0 {
        return true;
      }
    }
    assert i < |text| ==> text[i] == data[check + i];
    same := false;
  }

  /** The search loop over one line. */
  method SearchLine(data: array<byte>, start: nat, end: nat, s: seq<byte>) returns (found: bool)
    requires start <= end < data.Length && data[end] == NUL && NoNul(data[start..end]) && NoNul(s)
    ensures found <==> Matches(data[start..end], s)
  {
    ghost var line := data[start..end];
    var check := start;
    while check < end
      invariant start <= check <= end
      invariant s != [] ==> forall k :: 0 <= k < check - start ==> !OccursAt(line, s, k)
    {
      assert data[check..end] == line[check - start..];
      assert data[check] == line[check - start..][0];
      if CharAt(s, 0) == data[check] {
        var same := Strncmp(data, check, s, end);
        if same {
          assert OccursAt(line, s, check - start);
          return true;
        }
      }
      check := check + 1;
    }
    found := false;
  }

  /** ece391_strcpy(data, data + from): the string that ends at `end` moves to the front. */
  method StrcpyDown(data: array<byte>, from: nat, end: nat)
    requires 0 < from <= end < data.Length && data[end] == NUL && NoNul(data[from..end])
    modifies data
    ensures data[..end - from] == old(data[from..end])
    ensures forall j :: end - from < j < data.Length ==> data[j] == old(data[j])
  {
    ghost var before := data[..];
    var i := 0;
    while true
      invariant 0 <= i <= end - from
      invariant forall j :: 0 <= j < i ==> data[j] == before[from + j]
      invariant forall j :: i <= j < data.Length ==> data[j] == before[j]
      decreases end - i
    {
      assert from + i < end ==> before[from + i] == before[from..end][i];
      data[i] := data[from + i];
      if data[i] == NUL {
        break;
      }
      i := i + 1;
    }
  }

  // ----- do_one_file -----------------------------------------------------------------

  method FindEnd(data: array<byte>, start: nat, last: nat) returns (end: nat)
    requires start <= last < data.Length
    ensures start <= end <= last && (end < last ==> data[end] == NEWLINE)
    ensures forall i :: start <= i < end ==> data[i] != NEWLINE
  {
    end := start;
    while end < last && NEWLINE != data[end]
      invariant start <= end <= last
      invariant forall i :: start <= i < end ==> data[i] != NEWLINE
    {
      end := end + 1;
    }
  }

  /** Terminates, searches and prints the line at [start, end). */
  method DoLine(data: array<byte>, start: nat, end: nat, s: seq<byte>, fname: seq<byte>, out: seq<byte>)
    returns (more: seq<byte>)
    requires start <= end < data.Length && NoNul(data[start..end]) && NoNul(s)
    modifies data
    ensures data[..] == old(data[..])[end := NUL]
    ensures more == out + PrintLine(old(data[start..end]), s, fname)
  {
    data[end] := NUL;
    assert data[start..end] == old(data[start..end]);
    var found := SearchLine(data, start, end, s);
    more := out;
    if found {
      more := more + fname;
      more := more + [COLON];
      more := more + data[start..end];
      more := more + [NEWLINE];
      assert more == out + (fname + [COLON] + data[start..end] + [NEWLINE]);
    }
  }

  /** What is known between two lines: `text`, the buffer from `start` on and the unread
      rest of the file, is all that is still to be searched. */
  ghost predicate Pending(data: seq<byte>, start: nat, last: nat, rest: seq<byte>, text: seq<byte>) {
    && start <= last <= BUFSIZE && |data| == BUFSIZE + 1 && (data[BUFSIZE] != NEWLINE || rest == [])
    && text == data[start..last] + rest && NoNul(text)
    && (rest != [] ==> last == BUFSIZE)
  }

  /** `end` is where the line that begins at `start` stops in the buffer. */
  ghost predicate EndsAt(data: seq<byte>, start: nat, last: nat, end: nat)
    requires last < |data|
  {
    && start <= end <= last && (end < last ==> data[end] == NEWLINE)
    && forall i :: start <= i < end ==> data[i] != NEWLINE
  }

  /** A line that the buffer does not end is carried over unless the file ends with it or
      it fills the whole buffer. */
  lemma Unfinished(data: seq<byte>, start: nat, last: nat, rest: seq<byte>, text: seq<byte>, cnt: nat)
    requires Pending(data, start, last, rest, text) && EndsAt(data, start, last, last)
    requires NEWLINE == data[last] || cnt == 0 || start == 0
    requires cnt == 0 ==> rest == []
    ensures rest == [] || (start == 0 && last == BUFSIZE)
  {
  }

  /** The line at `start` goes to the end of the buffer, and is not carried over. */
  lemma LastSplit(data: seq<byte>, start: nat, last: nat, rest: seq<byte>, text: seq<byte>, s: seq<byte>, fname: seq<byte>)
    requires Pending(data, start, last, rest, text) && EndsAt(data, start, last, last)
    requires rest == [] || (start == 0 && last == BUFSIZE)
    ensures NoNul(data[start..last]) && NoNul(rest)
    ensures Found(text, s, fname) == PrintLine(data[start..last], s, fname) + Found(rest, s, fname)
  {
    hide Found, PrintLine;
    var k := last - start;
    ConcatSlices(data[start..last], rest, k);
    assert text[k..] == rest && text[..k] == data[start..last];
    assert forall i :: 0 <= i < k ==> text[..k][i] == data[start + i];
    FirstPiece(text, s, fname, k);
    NothingLeft(s, fname);
  }

  /** The line ends at a newline; more follows. */
  lemma LineSplit(data: seq<byte>, start: nat, last: nat, rest: seq<byte>, text: seq<byte>, end: nat,
                  s: seq<byte>, fname: seq<byte>)
    requires Pending(data, start, last, rest, text) && EndsAt(data, start, last, end) && end < last
    ensures NoNul(data[start..end])
    ensures var text' := text[end + 1 - start..];
            && Pending(data[end := NUL], end + 1, last, rest, text')
            && Found(text, s, fname) == PrintLine(data[start..end], s, fname) + Found(text', s, fname)
  {
    hide Found, PrintLine;
    var k := end - start;
    ConcatSlices(data[start..last], rest, k);
    ConcatSlices(data[start..last], rest, k + 1);
    SliceSlices(data, start, last, k);
    SliceSlices(data, start, last, k + 1);
    assert text[k] == data[end] && forall i :: 0 <= i < k ==> text[..k][i] == data[start + i];
    FirstPiece(text, s, fname, k);
    assert data[end := NUL][end + 1..last] == data[end + 1..last];
  }

  method Carry(data: array<byte>, start: nat, last: nat, ghost rest: seq<byte>, ghost text: seq<byte>)
    requires 0 < start && Pending(data[..], start, last, rest, text)
    modifies data
    ensures data[..last - start] + rest == text && (data[BUFSIZE] != NEWLINE || rest == [])
  {
    ghost var line := data[start..last];
    assert NoNul(line) by {
      assert line == text[..last - start];
    }
    data[last] := NUL;
    assert data[start..last] == line;
    StrcpyDown(data, start, last);
  }

  /** The inner loop over the lines of one buffer. A last line that the buffer does not
      finish moves to its front and is `last` bytes long. */
  method ScanBuffer(data: array<byte>, cnt: nat, last0: nat, s: seq<byte>, fname: seq<byte>, out0: seq<byte>,
                    ghost rest: seq<byte>)
    returns (last: nat, out: seq<byte>)
    requires data.Length == BUFSIZE + 1 && last0 <= BUFSIZE && NoNul(s)
    requires Pending(data[..], 0, last0, rest, data[..last0] + rest) && (cnt == 0 ==> rest == [])
    modifies data
    ensures last < BUFSIZE && (data[BUFSIZE] != NEWLINE || rest == []) && (cnt == 0 ==> last == 0)
    ensures NoNul(data[..last] + rest)
    ensures out + Found(data[..last] + rest, s, fname) == out0 + Found(old(data[..last0]) + rest, s, fname)
  {
    hide Found, PrintLine;
    last, out := last0, out0;
    var start := 0;
    ghost var text := data[..last0] + rest;
    ghost var goal := out0 + Found(text, s, fname);
    while true
      invariant start == 0 || start < last
      invariant last == last0 && Pending(data[..], start, last, rest, text)
      invariant out + Found(text, s, fname) == goal
      decreases last - start
    {
      var end := FindEnd(data, start, last);
      assert EndsAt(data[..], start, last, end);
      if NEWLINE != data[end] && 0 != cnt && start != 0 {
        Carry(data, start, end, rest, text);
        last := last - start;
        return;
      }
      if end == last {
        Unfinished(data[..], start, last, rest, text, cnt);
        LastSplit(data[..], start, last, rest, text, s, fname);
      } else {
        LineSplit(data[..], start, last, rest, text, end, s, fname);
      }
      ghost var line := data[start..end];
      out := DoLine(data, start, end, s, fname, out);
      start := end + 1;
      if start >= last {
        last := 0;
        NothingLeft(s, fname);
        assert data[..0] + rest == rest;
        assert end < last0 ==> text[|line| + 1..] == rest;
        return;
      }
      text := text[|line| + 1..];
    }
  }

  /** do_one_file on an open file. The line buffer is whatever the stack held before, with
      one proviso: unless the whole file fits, its last byte is not a newline. */
  method DoOneFile(fs: FileSystem, files: OpenFiles, fd: nat, s: seq<byte>, fname: seq<byte>, data: array<byte>)
    returns (out: seq<byte>)
    requires fs.Valid() && files.Valid() && 2 <= fd < FD_SIZE && files.Opened(fs, fd) && files.filePos[fd] == 0
    requires data != fs.disk && data.Length == BUFSIZE + 1
    requires data[BUFSIZE] != NEWLINE || |files.File(fs, fd)| <= BUFSIZE
    requires NoNul(s) && NoNul(files.File(fs, fd))
    modifies data, files.filePos
    ensures out == Found(files.File(fs, fd), s, fname)
    ensures NEWLINE !in fname ==>
              && PrintsMatches(out, Pieces(files.File(fs, fd)), s, fname)
              && (out == Matched(files.File(fs, fd), s, fname) <==> MatchesFit(files.File(fs, fd), s))
              && (MatchesFit(files.File(fs, fd), s) ==> PrintsMatches(out, Lines(files.File(fs, fd)), s, fname))
  {
    hide Found, Matched, MatchesFit, Pieces, Lines, PrintsMatches, OnDisk, FileBytes;
    ghost var file := files.File(fs, fd);
    out := [];
    var last: nat := 0;
    assert file[0..] == file && data[..0] + file == file;
    while true
      invariant files.Valid() && files.filePos[fd] <= |file| && last < BUFSIZE
      invariant data[BUFSIZE] != NEWLINE || |file| - files.filePos[fd] <= BUFSIZE - last
      invariant NoNul(data[..last] + file[files.filePos[fd]..])
      invariant out + Found(data[..last] + file[files.filePos[fd]..], s, fname) == Found(file, s, fname)
      decreases |file| - files.filePos[fd]
    {
      var cnt := FillBuffer(fs, files, fd, data, last, file);
      last := last + cnt;
      last, out := ScanBuffer(data, cnt, last, s, fname, out, file[files.filePos[fd]..]);
      if cnt == 0 {
        assert data[..last] + file[files.filePos[fd]..] == [];
        NothingLeft(s, fname);
        break;
      }
    }
    if NEWLINE !in fname {
      FoundListing(file, s, fname);
    }
  }

  /** The read at the top of the loop keeps the text that is still to be searched. */
  method FillBuffer(fs: FileSystem, files: OpenFiles, fd: nat, data: array<byte>, last: nat, ghost file: seq<byte>)
    returns (cnt: nat)
    requires fs.Valid() && files.Valid() && 2 <= fd < FD_SIZE && files.Opened(fs, fd) && file == files.File(fs, fd)
    requires files.filePos[fd] <= |file| && data != fs.disk && data.Length == BUFSIZE + 1 && last < BUFSIZE
    requires data[BUFSIZE] != NEWLINE || |file| - files.filePos[fd] <= BUFSIZE - last
    modifies data, files.filePos
    ensures files.Valid() && files.filePos[fd] == old(files.filePos[fd]) + cnt <= |file| && last + cnt <= BUFSIZE
    ensures data[BUFSIZE] != NEWLINE || file[files.filePos[fd]..] == []
    ensures data[..last + cnt] + file[files.filePos[fd]..] == old(data[..last] + file[files.filePos[fd]..])
    ensures cnt == 0 || last + cnt < BUFSIZE ==> file[files.filePos[fd]..] == []
  {
    ghost var pos, before := files.filePos[fd], data[..];
    cnt := files.ReadOpened(fs, fd, data, last, BUFSIZE - last);
    if cnt > 0 {
      BlitSlices(before, last, file[pos..pos + cnt], 0, last);
      assert data[..last + cnt] == before[..last] + file[pos..pos + cnt];
    }
    assert file[pos..] == file[pos..pos + cnt] + file[pos + cnt..];
  }
}
