/** Bytes and the sequence vocabulary shared by every component. */
module Bytes {

  type byte = b: int | 0 <= b < 256

  const NUL: byte := 0
  const NEWLINE: byte := 10
  const RETURN: byte := 13
  const SPACE: byte := 32
  const ZERO_DIGIT: byte := 48

  const TWO32 := 0x1_0000_0000

  datatype Option<+T> = None | Some(value: T)

  function Min(a: int, b: int): int { if a < b then a else b }

  function Max(a: int, b: int): int { if a < b then b else a }

  /** `s` with the elements starting at `at` replaced by `piece`. */
  function Blit<T>(s: seq<T>, at: nat, piece: seq<T>): (r: seq<T>)
    requires at + |piece| <= |s|
    ensures |r| == |s|
  {
    s[..at] + piece + s[at + |piece|..]
  }

  /** `now` is `before` with the first `k` elements of `piece` laid over it at `at`. */
  ghost predicate Laid<T>(now: seq<T>, before: seq<T>, at: nat, piece: seq<T>, k: nat)
    requires k <= |piece| && at + |piece| <= |before|
  {
    && |now| == |before|
    && (forall j :: 0 <= j < at ==> now[j] == before[j])
    && (forall j :: at <= j < at + k ==> now[j] == piece[j - at])
    && (forall j :: at + k <= j < |now| ==> now[j] == before[j])
  }

  lemma LaidIsBlit<T>(now: seq<T>, before: seq<T>, at: nat, piece: seq<T>)
    requires at + |piece| <= |before|
    requires Laid(now, before, at, piece, |piece|)
    ensures now == Blit(before, at, piece)
  {
  }

  /** A slice of a blit: the piece itself, or untouched if disjoint from it. */
  lemma BlitSlices<T>(before: seq<T>, at: nat, piece: seq<T>, lo: nat, hi: nat)
    requires at + |piece| <= |before| && lo <= hi <= |before|
    ensures Blit(before, at, piece)[at..at + |piece|] == piece
    ensures hi <= at || at + |piece| <= lo ==> Blit(before, at, piece)[lo..hi] == before[lo..hi]
  {
  }

  lemma BlitDrop<T>(before: seq<T>, at: nat, piece: seq<T>)
    requires at + |piece| <= |before|
    ensures Blit(before, at, piece)[at..] == piece + before[at + |piece|..]
  {
  }

  lemma BlitTwice<T>(before: seq<T>, at: nat, first: seq<T>, second: seq<T>)
    requires at + |first| <= |before| && |first| == |second|
    ensures Blit(Blit(before, at, first), at, second) == Blit(before, at, second)
    ensures Blit(before, at, before[at..at + |first|]) == before
  {
  }

  lemma BlitNone<T>(before: seq<T>, at: nat)
    requires at <= |before|
    ensures Blit(before, at, []) == before
  {
  }

  lemma BlitGrows<T>(before: seq<T>, at: nat, first: seq<T>, second: seq<T>)
    requires at + |first| + |second| <= |before|
    ensures Blit(Blit(before, at, first), at + |first|, second) == Blit(before, at, first + second)
  {
  }

  lemma ConcatSlices<T>(a: seq<T>, b: seq<T>, n: nat)
    requires n <= |a|
    ensures (a + b)[..n] == a[..n] && (a + b)[n..] == a[n..] + b
  {
  }

  lemma SliceSlices<T>(s: seq<T>, lo: nat, hi: nat, n: nat)
    requires lo + n <= hi <= |s|
    ensures s[lo..hi][..n] == s[lo..lo + n] && s[lo..hi][n..] == s[lo + n..hi]
  {
  }

  lemma BlitSet<T>(before: seq<T>, at: nat, piece: seq<T>, c: T)
    requires at + |piece| < |before|
    ensures Blit(before, at, piece)[at + |piece| := c] == Blit(before, at, piece + [c])
    ensures Blit(before, at, piece + [c])[at..at + |piece|] == piece
  {
  }

  lemma BlitOver<T>(before: seq<T>, at: nat, first: seq<T>, second: seq<T>, c: T)
    requires at + |first| < |before| && |first| == |second|
    ensures Blit(Blit(before, at, first + [c]), at, second) == Blit(before, at, second + [c])
  {
  }

  /** Slices of what is left of a sequence. */
  lemma DropSlices<T>(s: seq<T>, n: nat, k: nat)
    requires n <= k <= |s|
    ensures s[n..][..k - n] == s[..k][n..]
    ensures k < |s| ==> s[n..][k - n + 1..] == s[k + 1..]
  {
  }

  ghost function Elements(s: seq<nat>): set<nat> { set x | x in s }

  lemma {:induction false} NoDuplicates(list: seq<nat>)
    requires forall i, j :: 0 <= i < j < |list| ==> list[i] != list[j]
    ensures |Elements(list)| == |list|
  {
    if list != [] {
      var front, last := list[..|list| - 1], list[|list| - 1];
      NoDuplicates(front);
      assert Elements(list) == Elements(front) + {last};
    }
  }

  function Zeros(n: nat): (z: seq<byte>)
    ensures |z| == n && forall i :: 0 <= i < n ==> z[i] == NUL
  {
    seq(n, _ => NUL)
  }

  function Reversed<T>(s: seq<T>): (r: seq<T>)
    ensures |r| == |s|
  {
    seq(|s|, i requires 0 <= i < |s| => s[|s| - 1 - i])
  }

  /** Number of bytes before the first NUL, or all of them. */
  function CLength(s: seq<byte>): (n: nat)
    ensures n <= |s|
    ensures n < |s| ==> s[n] == NUL
    ensures forall i :: 0 <= i < n ==> s[i] != NUL
  {
    if s == [] || s[0] == NUL then 0 else 1 + CLength(s[1..])
  }

  lemma CLengthOf(text: seq<byte>, rest: seq<byte>)
    requires forall i :: 0 <= i < |text| ==> text[i] != NUL
    ensures CLength(text + [NUL] + rest) == |text|
  {
    var s := text + [NUL] + rest;
    assert forall i :: 0 <= i < |text| ==> s[i] == text[i];
    CLengthIs(s, |text|);
  }

  lemma CLengthIs(s: seq<byte>, n: nat)
    requires n <= |s|
    requires n < |s| ==> s[n] == NUL
    requires forall i :: 0 <= i < n ==> s[i] != NUL
    ensures CLength(s) == n
  {
  }

  /** A string's end is looked for after a part without NUL. */
  lemma CLengthAfter(text: seq<byte>, rest: seq<byte>)
    requires NUL !in text
    ensures CLength(text + rest) == |text| + CLength(rest)
  {
    var s := text + rest;
    assert forall i :: 0 <= i < |text| ==> s[i] == text[i];
    assert forall i :: 0 <= i < |rest| ==> s[|text| + i] == rest[i];
    CLengthIs(s, |text| + CLength(rest));
  }
}
