/** The byte-level routines of lib.c: memset, memcpy, memmove, strlen, strrev, itoa and
    the zero-padded hexadecimal conversion of printf.

    Array indices stand for addresses: the inline assembly aligns its destination
    register to a multiple of four before it switches to 32-bit moves. */
module Lib {
  import opened Bytes

  // ----- block copies ---------------------------------------------------------------

  method Memset(mem: array<byte>, s: nat, c: int, n: nat)
    requires s + n <= mem.Length
    modifies mem
    ensures mem[..] == Blit(old(mem[..]), s, seq(n, _ => c % 256))
  {
    var al: byte := c % 256;
    ghost var before := mem[..];
    ghost var piece: seq<byte> := seq(n, _ => al);
    var edi, ecx := s, n;
    while ecx != 0 && edi % 4 != 0
      invariant edi == s + n - ecx && 0 <= ecx <= n
      invariant Laid(mem[..], before, s, piece, n - ecx)
      decreases ecx
    {
      mem[edi] := al;
      edi, ecx := edi + 1, ecx - 1;
    }
    var words, edx := ecx / 4, ecx % 4;
    while words != 0
      invariant edi == s + n - (4 * words + edx) && 0 <= words
      invariant 4 * words + edx <= n
      invariant Laid(mem[..], before, s, piece, n - (4 * words + edx))
      decreases words
    {
      mem[edi], mem[edi + 1], mem[edi + 2], mem[edi + 3] := al, al, al, al;
      edi, words := edi + 4, words - 1;
    }
    while edx != 0
      invariant edi == s + n - edx && 0 <= edx <= n
      invariant Laid(mem[..], before, s, piece, n - edx)
      decreases edx
    {
      mem[edi] := al;
      edi, edx := edi + 1, edx - 1;
    }
    LaidIsBlit(mem[..], before, s, piece);
  }

  /** The part of the source not copied yet still holds its original bytes. */
  ghost predicate Ahead(src: seq<byte>, from: nat, piece: seq<byte>, k: nat)
    requires from + |piece| <= |src|
  {
    forall j :: from + k <= j < from + |piece| ==> src[j] == piece[j - from]
  }

  /** One `movb` through %al: byte number `k` of the copy. */
  method Movb(dst: array<byte>, dest: nat, src: array<byte>, from: nat, k: nat,
              ghost before: seq<byte>, ghost piece: seq<byte>)
    requires k < |piece| && dest + |piece| <= |before| && from + |piece| <= src.Length
    requires dst == src ==> dest <= from || from + |piece| <= dest
    requires Laid(dst[..], before, dest, piece, k) && Ahead(src[..], from, piece, k)
    modifies dst
    ensures Laid(dst[..], before, dest, piece, k + 1) && Ahead(src[..], from, piece, k + 1)
  {
    dst[dest + k] := src[from + k];
  }

  /** One step of `rep movsl`: four bytes are read before four are written. */
  method Movsl(dst: array<byte>, dest: nat, src: array<byte>, from: nat, k: nat,
               ghost before: seq<byte>, ghost piece: seq<byte>)
    requires k + 4 <= |piece| && dest + |piece| <= |before| && from + |piece| <= src.Length
    requires dst == src ==> dest <= from || from + |piece| <= dest
    requires Laid(dst[..], before, dest, piece, k) && Ahead(src[..], from, piece, k)
    modifies dst
    ensures Laid(dst[..], before, dest, piece, k + 4) && Ahead(src[..], from, piece, k + 4)
  {
    var edi, esi := dest + k, from + k;
    dst[edi], dst[edi + 1], dst[edi + 2], dst[edi + 3] := src[esi], src[esi + 1], src[esi + 2], src[esi + 3];
  }

  /** Correct for disjoint ranges, as documented, and also whenever the destination
      does not start inside the source after its first byte. */
  method Memcpy(dst: array<byte>, dest: nat, src: array<byte>, from: nat, n: nat)
    requires dest + n <= dst.Length && from + n <= src.Length
    requires dst == src ==> dest <= from || from + n <= dest
    modifies dst
    ensures dst[..] == Blit(old(dst[..]), dest, old(src[from..from + n]))
  {
    ghost var before, piece := dst[..], src[from..from + n];
    var ecx := n;
    while ecx != 0 && (dest + n - ecx) % 4 != 0
      invariant 0 <= ecx <= n
      invariant Laid(dst[..], before, dest, piece, n - ecx) && Ahead(src[..], from, piece, n - ecx)
      decreases ecx
    {
      Movb(dst, dest, src, from, n - ecx, before, piece);
      ecx := ecx - 1;
    }
    var edx := ecx % 4;
    while ecx >= 4
      invariant edx <= ecx <= n && ecx % 4 == edx
      invariant Laid(dst[..], before, dest, piece, n - ecx) && Ahead(src[..], from, piece, n - ecx)
      decreases ecx
    {
      Movsl(dst, dest, src, from, n - ecx, before, piece);
      ecx := ecx - 4;
    }
    while edx != 0
      invariant 0 <= edx <= n
      invariant Laid(dst[..], before, dest, piece, n - edx) && Ahead(src[..], from, piece, n - edx)
      decreases edx
    {
      Movb(dst, dest, src, from, n - edx, before, piece);
      edx := edx - 1;
    }
    LaidIsBlit(dst[..], before, dest, piece);
  }

  /** Copies upwards when the source lies at or above the destination, else downwards,
      so every overlap is handled. */
  method Memmove(mem: array<byte>, dest: nat, src: nat, n: nat)
    requires dest + n <= mem.Length && src + n <= mem.Length
    modifies mem
    ensures mem[..] == Blit(old(mem[..]), dest, old(mem[src..src + n]))
  {
    ghost var before, piece := mem[..], mem[src..src + n];
    var ecx := n;
    if src >= dest {
      var edi, esi := dest, src;
      while ecx != 0
        invariant 0 <= ecx <= n && edi == dest + n - ecx && esi == src + n - ecx
        invariant Laid(mem[..], before, dest, piece, n - ecx)
        invariant Ahead(mem[..], src, piece, n - ecx)
        decreases ecx
      {
        mem[edi] := mem[esi];
        edi, esi, ecx := edi + 1, esi + 1, ecx - 1;
      }
    } else {
      var edi: int, esi: int := dest - 1 + ecx, src - 1 + ecx;
      while ecx != 0
        invariant 0 <= ecx <= n && edi == dest - 1 + ecx && esi == src - 1 + ecx
        invariant forall j :: 0 <= j < dest + ecx ==> mem[j] == before[j]
        invariant forall j :: dest + ecx <= j < dest + n ==> mem[j] == piece[j - dest]
        invariant forall j :: dest + n <= j < mem.Length ==> mem[j] == before[j]
        decreases ecx
      {
        mem[edi] := mem[esi];
        edi, esi, ecx := edi - 1, esi - 1, ecx - 1;
      }
    }
    LaidIsBlit(mem[..], before, dest, piece);
  }

  // ----- C strings -------------------------------------------------------------------

  method Strlen(s: array<byte>, off: nat) returns (len: nat)
    requires off < s.Length && off + CLength(s[off..]) < s.Length
    ensures len == CLength(s[off..])
  {
    len := 0;
    while s[off + len] != NUL
      invariant len <= CLength(s[off..])
      decreases s.Length - len
    {
      assert s[off + len] == s[off..][len];
      len := len + 1;
    }
    CLengthIs(s[off..], len);
  }

  method Strrev(s: array<byte>, off: nat)
    requires off < s.Length && off + CLength(s[off..]) < s.Length
    modifies s
    ensures s[..] == old(Blit(s[..], off, Reversed(s[off..off + CLength(s[off..])])))
  {
    var len := Strlen(s, off);
    ReverseRange(s, off, len);
  }

  method ReverseRange(s: array<byte>, off: nat, len: nat)
    requires off + len <= s.Length
    modifies s
    ensures s[..] == old(Blit(s[..], off, Reversed(s[off..off + len])))
  {
    ghost var before, text := s[..], s[off..off + len];
    var beg, end: int := 0, len - 1;
    while beg < end
      invariant 0 <= beg <= len && end == len - 1 - beg && beg <= end + 2
      invariant Swapped(s[..], before, off, text, beg)
    {
      SwapEnds(s, off, beg, end, before, text);
      beg, end := beg + 1, end - 1;
    }
    SwappedIsBlit(s[..], before, off, text, beg);
  }

  lemma SwappedIsBlit(now: seq<byte>, before: seq<byte>, off: nat, text: seq<byte>, k: nat)
    requires off + |text| <= |before| && k <= |text| <= 2 * k + 1
    requires Swapped(now, before, off, text, k)
    ensures now == Blit(before, off, Reversed(text))
  {
  }

  /** The first and the last `k` characters of `text` have changed places. */
  ghost predicate Swapped(now: seq<byte>, before: seq<byte>, off: nat, text: seq<byte>, k: nat)
    requires off + |text| <= |before| && k <= |text|
  {
    && |now| == |before|
    && (forall j :: 0 <= j < off ==> now[j] == before[j])
    && (forall j :: off <= j < off + |text| ==>
                      now[j] == if j - off < k || |text| - k <= j - off
                                then text[|text| - 1 - (j - off)] else text[j - off])
    && (forall j :: off + |text| <= j < |now| ==> now[j] == before[j])
  }

  method SwapEnds(s: array<byte>, off: nat, beg: nat, end: nat, ghost before: seq<byte>, ghost text: seq<byte>)
    requires off + |text| <= |before| && beg < end == |text| - 1 - beg
    requires Swapped(s[..], before, off, text, beg)
    modifies s
    ensures Swapped(s[..], before, off, text, beg + 1)
  {
    var tmp := s[off + end];
    s[off + end] := s[off + beg];
    s[off + beg] := tmp;
  }

  // ----- numbers ---------------------------------------------------------------------

  /** The character of a digit: '0'..'9', then 'A'..'Z'. */
  function Digit(d: nat): (c: byte)
    requires d < 36
  {
    if d < 10 then 48 + d else 55 + d
  }

  /** What a digit character is worth, if it is one. */
  function Worth(c: byte): (d: Option<nat>)
    ensures d.Some? ==> d.value < 36 && Digit(d.value) == c
  {
    if 48 <= c <= 57 then Some(c - 48) else if 65 <= c <= 90 then Some(c - 55) else None
  }

  /** Reads a numeral, most significant digit first. */
  function Parse(s: seq<byte>, radix: nat): Option<nat> {
    if s == [] then Some(0) else Shift(Parse(s[..|s| - 1], radix), s[|s| - 1], radix)
  }

  /** One more digit on the right. */
  function Shift(high: Option<nat>, c: byte, radix: nat): Option<nat> {
    if high.Some? && Worth(c).Some? && Worth(c).value < radix
    then Some(high.value * radix + Worth(c).value) else None
  }

  /** The digits of `v`, least significant first, as itoa's loop emits them. */
  function Digits(v: nat, radix: nat): (s: seq<byte>)
    requires 2 <= radix <= 36
  {
    if v == 0 then [] else
      DivMod(v, radix);
      [Digit(v % radix)] + Digits(v / radix, radix)
  }

  /** The numeral itoa must produce. */
  function Numeral(v: nat, radix: nat): (s: seq<byte>)
    requires 2 <= radix <= 36
  {
    if v == 0 then [ZERO_DIGIT] else Reversed(Digits(v, radix))
  }

  lemma DivMod(v: nat, radix: nat)
    requires 2 <= radix
    ensures 0 <= v % radix < radix && v == v / radix * radix + v % radix
    ensures v > 0 ==> 0 <= v / radix < v
    ensures v / radix == 0 ==> v % radix == v
  {
    Doubles(v / radix, radix);
  }

  lemma Doubles(q: nat, radix: nat)
    requires 2 <= radix
    ensures q * radix >= 2 * q
  {
  }

  lemma {:induction false} DigitsNoNul(v: nat, radix: nat)
    requires 2 <= radix <= 36
    ensures forall i :: 0 <= i < |Digits(v, radix)| ==> Digits(v, radix)[i] != NUL
  {
    if v > 0 {
      DivMod(v, radix);
      DigitsNoNul(v / radix, radix);
    }
  }

  /** The most significant digit is not zero. */
  lemma {:induction false} DigitsLead(v: nat, radix: nat)
    requires 2 <= radix <= 36 && v > 0
    ensures Digits(v, radix) != [] && Digits(v, radix)[|Digits(v, radix)| - 1] != ZERO_DIGIT
  {
    DivMod(v, radix);
    var q := v / radix;
    var rest := Digits(q, radix);
    assert Digits(v, radix) == [Digit(v % radix)] + rest;
    if q > 0 {
      DigitsLead(q, radix);
    }
  }

  lemma {:induction false} ParseDigits(v: nat, radix: nat)
    requires 2 <= radix <= 36
    ensures Parse(Reversed(Digits(v, radix)), radix) == Some(v)
  {
    if v > 0 {
      hide Parse, Shift, Reversed, Digits;
      DivMod(v, radix);
      ParseDigits(v / radix, radix);
      DigitsStep(v, radix);
      ParseSnoc(Reversed(Digits(v / radix, radix)), Digit(v % radix), radix);
      ShiftDigit(v / radix, v % radix, radix);
    }
  }

  lemma DigitsStep(v: nat, radix: nat)
    requires 2 <= radix <= 36 && v > 0
    ensures 0 <= v % radix < 36 && 0 <= v / radix
    ensures Reversed(Digits(v, radix)) == Reversed(Digits(v / radix, radix)) + [Digit(v % radix)]
  {
    DivMod(v, radix);
    var rest := Digits(v / radix, radix);
    assert Digits(v, radix) == [Digit(v % radix)] + rest;
  }

  lemma ShiftDigit(q: nat, d: nat, radix: nat)
    requires d < radix <= 36
    ensures Shift(Some(q), Digit(d), radix) == Some(q * radix + d)
  {
  }

  lemma ParseSnoc(s: seq<byte>, c: byte, radix: nat)
    ensures Parse(s + [c], radix) == Shift(Parse(s, radix), c, radix)
  {
  }

  /** A numeral reads back as its number, is a C string and has no leading zero. */
  lemma NumeralCorrect(v: nat, radix: nat)
    requires 2 <= radix <= 36
    ensures var s := Numeral(v, radix);
            && Parse(s, radix) == Some(v)
            && s != [] && (forall i :: 0 <= i < |s| ==> s[i] != NUL)
            && (s[0] == ZERO_DIGIT ==> s == [ZERO_DIGIT] && v == 0)
  {
    if v == 0 {
      assert Parse([ZERO_DIGIT][..0], radix) == Some(0);
    } else {
      ParseDigits(v, radix);
      DigitsLead(v, radix);
      DigitsNoNul(v, radix);
    }
  }

  function Pow16(k: nat): nat {
    if k == 0 then 1 else 16 * Pow16(k - 1)
  }

  lemma {:induction false} HexDigitsBound(v: nat, k: nat)
    requires v < Pow16(k)
    ensures |Digits(v, 16)| <= k
  {
    if v > 0 {
      HexDigitsBound(v / 16, k - 1);
    }
  }

  /** Writes the numeral of `value` at `buf[off..]`, NUL-terminated. */
  method Itoa(value: nat, buf: array<byte>, off: nat, radix: nat)
    requires value < TWO32 && 2 <= radix <= 36
    requires off + |Numeral(value, radix)| < buf.Length
    modifies buf
    ensures buf[..] == Blit(old(buf[..]), off, Numeral(value, radix) + [NUL])
  {
    if value == 0 {
      buf[off], buf[off + 1] := ZERO_DIGIT, NUL;
    } else {
      PositiveItoa(value, buf, off, radix);
    }
  }

  method PositiveItoa(value: nat, buf: array<byte>, off: nat, radix: nat)
    requires 0 < value < TWO32 && 2 <= radix <= 36 && off + |Digits(value, radix)| < buf.Length
    modifies buf
    ensures buf[..] == Blit(old(buf[..]), off, Reversed(Digits(value, radix)) + [NUL])
  {
    hide Blit, CLength, Reversed, Digits;
    ghost var before, all := buf[..], Digits(value, radix);
    var newbuf := EmitDigits(value, buf, off, radix);
    buf[newbuf] := NUL;
    DigitsNoNul(value, radix);
    assert buf[..] == Blit(before, off, all)[newbuf := NUL];
    Terminated(before, off, all);
    Strrev(buf, off);
  }

  /** Reversing the NUL-terminated string `all` in place. */
  lemma Terminated(before: seq<byte>, off: nat, all: seq<byte>)
    requires off + |all| < |before|
    requires forall i :: 0 <= i < |all| ==> all[i] != NUL
    ensures var mid := Blit(before, off, all)[off + |all| := NUL];
            && CLength(mid[off..]) == |all|
            && Blit(mid, off, Reversed(mid[off..off + |all|])) == Blit(before, off, Reversed(all) + [NUL])
  {
    hide Blit, CLength, Reversed;
    BlitSet(before, off, all, NUL);
    BlitDrop(before, off, all + [NUL]);
    CLengthOf(all, before[off + |all + [NUL]|..]);
    BlitOver(before, off, all, Reversed(all), NUL);
  }

  method EmitDigits(value: nat, buf: array<byte>, off: nat, radix: nat) returns (newbuf: nat)
    requires 2 <= radix <= 36 && off + |Digits(value, radix)| <= buf.Length
    modifies buf
    ensures newbuf == off + |Digits(value, radix)|
    ensures buf[..] == Blit(old(buf[..]), off, Digits(value, radix))
  {
    ghost var before, all := buf[..], Digits(value, radix);
    var newval: nat := value;
    newbuf := off;
    while newval > 0
      invariant off <= newbuf <= off + |all|
      invariant all[newbuf - off..] == Digits(newval, radix)
      invariant Laid(buf[..], before, off, all, newbuf - off)
      decreases newval
    {
      DivMod(newval, radix);
      ghost var left := all[newbuf - off..];
      assert left == [Digit(newval % radix)] + Digits(newval / radix, radix);
      assert all[newbuf - off] == left[0] && all[newbuf + 1 - off..] == left[1..];
      buf[newbuf] := Digit(newval % radix);
      newbuf, newval := newbuf + 1, newval / radix;
    }
    LaidIsBlit(buf[..], before, off, all);
  }

  /** Leading zeros do not change what a numeral is worth. */
  lemma {:induction false} ParsePadded(zeros: nat, s: seq<byte>, radix: nat)
    requires 2 <= radix
    ensures Parse(seq(zeros, _ => ZERO_DIGIT) + s, radix) == Parse(s, radix)
    decreases |s|, zeros
  {
    var pad: seq<byte> := seq(zeros, _ => ZERO_DIGIT);
    if s != [] {
      assert (pad + s)[..|pad + s| - 1] == pad + s[..|s| - 1];
      ParsePadded(zeros, s[..|s| - 1], radix);
    } else if zeros > 0 {
      var shorter: seq<byte> := seq(zeros - 1, _ => ZERO_DIGIT);
      assert (pad + s)[..|pad + s| - 1] == shorter + s;
      ParsePadded(zeros - 1, s, radix);
    } else {
      assert pad + s == s;
    }
  }

  lemma HexWidth(value: nat)
    requires value < TWO32
    ensures 1 <= |Numeral(value, 16)| <= 8
  {
    assert Pow16(4) == 0x1_0000;
    assert Pow16(8) == TWO32;
    HexDigitsBound(value, 8);
  }

  /** printf("%#x"): itoa writes at conv_buf[8], zeros are put before it, and the string
      handed to puts starts at the index equal to the numeral's length. */
  method FormatHex8(value: nat, convBuf: array<byte>) returns (start: nat)
    requires value < TWO32 && convBuf.Length == 64
    modifies convBuf
    ensures start <= 8 && CLength(convBuf[start..]) == 8
    ensures Parse(convBuf[start..start + 8], 16) == Some(value)
  {
    hide Numeral, Parse, Blit, CLength;
    HexWidth(value);
    NumeralCorrect(value, 16);
    ghost var before, numeral := convBuf[..], Numeral(value, 16);
    Itoa(value, convBuf, 8, 16);
    HexString(before, numeral);
    start := Strlen(convBuf, 8);
    var i := start;
    ghost var pad: seq<byte>, printed := seq(8 - start, _ => ZERO_DIGIT), convBuf[..];
    while i < 8
      invariant start <= i <= 8
      invariant Laid(convBuf[..], printed, start, pad, i - start)
    {
      convBuf[i] := ZERO_DIGIT;
      i := i + 1;
    }
    LaidIsBlit(convBuf[..], printed, start, pad);
    ParsePadded(8 - start, numeral, 16);
  }

  lemma HexString(before: seq<byte>, numeral: seq<byte>)
    requires |before| == 64 && 1 <= |numeral| <= 8
    requires forall i :: 0 <= i < |numeral| ==> numeral[i] != NUL
    ensures var printed, start := Blit(before, 8, numeral + [NUL]), |numeral|;
            var pad: seq<byte> := seq(8 - start, _ => ZERO_DIGIT);
            && CLength(printed[8..]) == start
            && CLength(Blit(printed, start, pad)[start..]) == 8
            && Blit(printed, start, pad)[start..start + 8] == pad + numeral
  {
    hide Blit, CLength;
    var printed, start := Blit(before, 8, numeral + [NUL]), |numeral|;
    var pad: seq<byte> := seq(8 - start, _ => ZERO_DIGIT);
    var rest := before[8 + |numeral + [NUL]|..];
    BlitDrop(before, 8, numeral + [NUL]);
    CLengthOf(numeral, rest);
    BlitDrop(printed, start, pad);
    var shown := pad + numeral;
    assert Blit(printed, start, pad)[start..] == shown + [NUL] + rest;
    CLengthOf(shown, rest);
    assert Blit(printed, start, pad)[start..][..8] == shown;
  }
}
