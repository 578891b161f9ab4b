/**
  The decoder that the usage formatter shares between its parts: it takes a
  start byte with all continuation bytes that follow it (their number is not
  checked) for one character, and counts wide characters as two columns.
*/
module Utf8Width {
  type Byte = b: nat | b < 0x100

  const WORD: nat := 0x1_0000_0000

  /** Text that C can hold, without the byte 0xFF, for which the decoder's bit trick is undefined. */
  predicate Printable(s: seq<Byte>) {
    0 !in s && 0xFF !in s
  }

  predicate IsContinuation(b: Byte) {
    0x80 <= b <= 0xBF
  }

  /** The least power of two above `x`: a mask for all bits of `x`, plus one. */
  function MaskAbove(x: nat): (m: nat)
    requires x < 0x100
    ensures m > x && m <= 0x100 && (x > 0 ==> m <= 2 * x)
  {
    if x < 1 then 1 else if x < 2 then 2 else if x < 4 then 4 else if x < 8 then 8
    else if x < 16 then 16 else if x < 32 then 32 else if x < 64 then 64 else if x < 128 then 128 else 256
  }

  /** The payload of a start byte: the bits below its leading ones. */
  function LeadBits(b: Byte): (v: nat)
    requires 0xC1 < b < 0xFF
    ensures v < 0x20
  {
    b % MaskAbove(0xFF - b)
  }

  /** The end of the run of continuation bytes at `i`. */
  function RunEnd(s: seq<Byte>, i: nat): (j: nat)
    requires i <= |s|
    ensures i <= j <= |s|
    ensures forall k :: i <= k < j ==> IsContinuation(s[k])
    ensures j < |s| ==> !IsContinuation(s[j])
    decreases |s| - i
  {
    if i == |s| || !IsContinuation(s[i]) then i else RunEnd(s, i + 1)
  }

  /** The end of the character at `i`. */
  function CharEnd(s: seq<Byte>, i: nat): (j: nat)
    requires i < |s|
    ensures i < j <= |s|
    ensures forall k :: i < k < j ==> IsContinuation(s[k])
  {
    if s[i] > 0xC1 then RunEnd(s, i + 1) else i + 1
  }

  /** Shifts a 32-bit code left by six bits, whose upper bits are lost, and fills in a payload. */
  function ShiftIn(ch: nat, b: Byte): (code: nat)
    requires ch < WORD && IsContinuation(b)
    ensures code < WORD
  {
    ch % 0x400_0000 * 64 + (b - 0x80)
  }

  /** A code with the payloads of the continuation bytes from `i` to `j`, in 32-bit arithmetic. */
  function Code(lead: nat, s: seq<Byte>, i: nat, j: nat): (code: nat)
    requires lead < WORD && i <= j <= |s| && forall k :: i <= k < j ==> IsContinuation(s[k])
    ensures code < WORD
    ensures i == j ==> code == lead
    decreases j
  {
    if i == j then lead else ShiftIn(Code(lead, s, i, j - 1), s[j - 1])
  }

  predicate IsWide(ch: nat) {
    && ch != 0x303F
    && ((0x1100 <= ch <= 0x115F) || (0x2329 <= ch <= 0x232A) || (0x2E80 <= ch <= 0xA4C6)
      || (0xA960 <= ch <= 0xA97C) || (0xAC00 <= ch <= 0xD7FB) || (0xF900 <= ch <= 0xFAFF)
      || (0xFE10 <= ch <= 0xFE6B) || (0xFF01 <= ch <= 0xFF60) || (0xFFE0 <= ch <= 0xFFE6)
      || 0x1B000 <= ch)
  }

  /** How many screen columns the character at `i` takes. */
  function CharColumns(s: seq<Byte>, i: nat): (n: nat)
    requires i < |s| && Printable(s)
    ensures 1 <= n <= 2 && n <= CharEnd(s, i) - i
  {
    if s[i] > 0xC1 && IsWide(Code(LeadBits(s[i]), s, i + 1, CharEnd(s, i))) then 2 else 1
  }

  /** How many screen columns the characters from `i` on take that begin before `j`. */
  function Columns(s: seq<Byte>, i: nat, j: nat): (n: nat)
    requires Printable(s) && j <= |s|
    decreases j - i
  {
    if i >= j then 0 else CharColumns(s, i) + Columns(s, CharEnd(s, i), j)
  }

  /** There is a number of whole characters between `i` and `j`. */
  predicate Whole(s: seq<Byte>, i: nat, j: nat)
    requires j <= |s|
    decreases j - i
  {
    i == j || (i < j && Whole(s, CharEnd(s, i), j))
  }

  /** All wide characters have at least two bytes. */
  lemma {:induction false} ColumnsAtMostBytes(s: seq<Byte>, i: nat, j: nat)
    requires Printable(s) && j <= |s| && Whole(s, i, j)
    ensures Columns(s, i, j) <= j - i
    decreases j - i
  {
    if i < j {
      ColumnsAtMostBytes(s, CharEnd(s, i), j);
    }
  }

  lemma {:induction false} WholeJoin(s: seq<Byte>, i: nat, j: nat, k: nat)
    requires Printable(s) && j <= k <= |s| && Whole(s, i, j) && Whole(s, j, k)
    ensures Whole(s, i, k) && Columns(s, i, k) == Columns(s, i, j) + Columns(s, j, k)
    decreases j - i
  {
    if i < j {
      WholeJoin(s, CharEnd(s, i), j, k);
    }
  }

  /** In front of a byte that is no continuation byte, and at the end, there is always a boundary. */
  lemma {:induction false} WholeBeforeStart(s: seq<Byte>, i: nat, j: nat)
    requires i <= j <= |s| && (j < |s| ==> !IsContinuation(s[j]))
    ensures Whole(s, i, j)
    decreases j - i
  {
    if i < j {
      WholeBeforeStart(s, CharEnd(s, i), j);
    }
  }

  /** Decodes the character at `i` byte by byte. */
  method DecodeChar(s: seq<Byte>, i: nat) returns (j: nat, wide: bool)
    requires i < |s| && Printable(s)
    ensures j == CharEnd(s, i) && (wide <==> CharColumns(s, i) == 2)
  {
    j, wide := i + 1, false;
    var ch: nat := s[i];
    if ch > 0xC1 {
      ch := LeadBits(ch);
      ghost var lead := ch;
      while j < |s| && IsContinuation(s[j])
        invariant i < j <= |s| && ch < WORD
        invariant forall k :: i < k < j ==> IsContinuation(s[k])
        invariant ch == Code(lead, s, i + 1, j)
        invariant RunEnd(s, i + 1) == RunEnd(s, j)
      {
        ch := ShiftIn(ch, s[j]);
        j := j + 1;
      }
      wide := ch >= 0x1100 && IsWide(ch);
    }
  }

  /** A part of a text that consists of whole characters takes the same columns on its own. */
  lemma {:induction false} ColumnsOfPart(s: seq<Byte>, off: nat, t: seq<Byte>, i: nat)
    requires Printable(s) && off + |t| <= |s| && t == s[off..off + |t|] && i <= |t|
    requires Whole(s, off + i, off + |t|)
    ensures Printable(t) && Columns(t, i, |t|) == Columns(s, off + i, off + |t|)
    decreases |t| - i
  {
    assert forall k :: 0 <= k < |t| ==> t[k] == s[off + k];
    if i < |t| {
      WholeEnds(s, off + i, off + |t|);
      CharOfPart(s, off, t, i);
      ColumnsOfPart(s, off, t, CharEnd(t, i));
    }
  }

  lemma WholeEnds(s: seq<Byte>, i: nat, j: nat)
    requires i < j <= |s| && Whole(s, i, j)
    ensures CharEnd(s, i) <= j
    decreases j - i
  {
  }

  lemma CharOfPart(s: seq<Byte>, off: nat, t: seq<Byte>, i: nat)
    requires Printable(s) && Printable(t) && off + |t| <= |s| && i < |t|
    requires forall k :: 0 <= k < |t| ==> t[k] == s[off + k]
    requires CharEnd(s, off + i) <= off + |t|
    ensures CharEnd(s, off + i) == off + CharEnd(t, i)
    ensures CharColumns(s, off + i) == CharColumns(t, i)
  {
    if s[off + i] > 0xC1 {
      RunOfPart(s, off, t, i + 1);
      CodeOfPart(s, off, t, LeadBits(t[i]), i + 1, CharEnd(t, i));
    }
  }

  lemma {:induction false} RunOfPart(s: seq<Byte>, off: nat, t: seq<Byte>, i: nat)
    requires off + |t| <= |s| && i <= |t| && forall k :: 0 <= k < |t| ==> t[k] == s[off + k]
    requires RunEnd(s, off + i) <= off + |t|
    ensures RunEnd(s, off + i) == off + RunEnd(t, i)
    decreases |t| - i
  {
    if i < |t| && IsContinuation(t[i]) {
      RunOfPart(s, off, t, i + 1);
    }
  }

  lemma {:induction false} CodeOfPart(s: seq<Byte>, off: nat, t: seq<Byte>, lead: nat, i: nat, j: nat)
    requires lead < WORD && i <= j <= |t| && off + |t| <= |s| && forall k :: 0 <= k < |t| ==> t[k] == s[off + k]
    requires forall k :: i <= k < j ==> IsContinuation(t[k])
    ensures forall k :: off + i <= k < off + j ==> IsContinuation(s[k])
    ensures Code(lead, s, off + i, off + j) == Code(lead, t, i, j)
    decreases j
  {
    forall k | off + i <= k < off + j
      ensures IsContinuation(s[k])
    {
      assert t[k - off] == s[k];
    }
    if i < j {
      CodeOfPart(s, off, t, lead, i, j - 1);
    }
  }

  // ---------- UTF-8 ----------

  /** A Unicode code point in UTF-8, as section 3 of RFC 3629 has it. */
  function Encode(ch: nat): (s: seq<Byte>)
    requires 0 < ch < 0x11_0000
    ensures 1 <= |s| <= 4 && Printable(s)
  {
    if ch < 0x80 then [ch]
    else if ch < 0x800 then [0xC0 + ch / 0x40, 0x80 + ch % 0x40]
    else if ch < 0x1_0000 then [0xE0 + ch / 0x1000, 0x80 + ch / 0x40 % 0x40, 0x80 + ch % 0x40]
    else [0xF0 + ch / 0x4_0000, 0x80 + ch / 0x1000 % 0x40, 0x80 + ch / 0x40 % 0x40, 0x80 + ch % 0x40]
  }

  lemma {:induction false} RunEndIs(s: seq<Byte>, i: nat, j: nat)
    requires i <= j <= |s| && (forall k :: i <= k < j ==> IsContinuation(s[k])) && (j < |s| ==> !IsContinuation(s[j]))
    ensures RunEnd(s, i) == j
    decreases j - i
  {
    if i < j {
      RunEndIs(s, i + 1, j);
    }
  }

  /** The decoder reads an encoded code point back: it finds its end, and doubles exactly the wide ones. */
  lemma DecodesUtf8(ch: nat, rest: seq<Byte>)
    requires 0 < ch < 0x11_0000 && Printable(rest) && (rest != [] ==> !IsContinuation(rest[0]))
    ensures var s := Encode(ch) + rest;
            Printable(s) && CharEnd(s, 0) == |Encode(ch)| && CharColumns(s, 0) == if IsWide(ch) then 2 else 1
  {
    var e := Encode(ch);
    var s := e + rest;
    assert forall k :: 0 <= k < |e| ==> s[k] == e[k];
    if ch >= 0x80 {
      RunEndIs(s, 1, |e|);
      CodeOfEncoded(ch, s);
    }
  }

  lemma LeadOfEncoded(b: Byte)
    requires 0xC1 < b < 0xF8
    ensures LeadBits(b) == if b < 0xE0 then b - 0xC0 else if b < 0xF0 then b - 0xE0 else b - 0xF0
  {
    assert MaskAbove(0xFF - b) == if b < 0xE0 then 0x40 else if b < 0xF0 then 0x20 else 0x10;
  }

  lemma ShiftedBack(q: nat, b: Byte)
    requires q < 0x400_0000 && IsContinuation(b)
    ensures ShiftIn(q, b) == q * 0x40 + (b - 0x80)
  {
  }

  /** A code point is made up of its six-bit groups. */
  lemma SixBits(ch: nat)
    ensures ch == ch / 0x40 * 0x40 + ch % 0x40
    ensures ch / 0x1000 == ch / 0x40 / 0x40 && ch / 0x4_0000 == ch / 0x1000 / 0x40
  {
  }

  lemma CodeOfEncoded(ch: nat, s: seq<Byte>)
    requires 0x80 <= ch < 0x11_0000 && Encode(ch) <= s
    ensures s[0] > 0xC1 && (forall k :: 1 <= k < |Encode(ch)| ==> IsContinuation(s[k]))
    ensures s[0] < 0xFF && Code(LeadBits(s[0]), s, 1, |Encode(ch)|) == ch
  {
    var e := Encode(ch);
    assert forall k :: 0 <= k < |e| ==> s[k] == e[k];
    LeadOfEncoded(s[0]);
    SixBits(ch);
    SixBits(ch / 0x40);
    SixBits(ch / 0x1000);
    if ch < 0x800 {
      CodeOfTwo(LeadBits(s[0]), s, ch);
    } else if ch < 0x1_0000 {
      CodeOfTwo(LeadBits(s[0]), s, ch / 0x40);
      CodeOfMore(LeadBits(s[0]), s, 2, ch / 0x40, ch);
    } else {
      CodeOfTwo(LeadBits(s[0]), s, ch / 0x1000);
      CodeOfMore(LeadBits(s[0]), s, 2, ch / 0x1000, ch / 0x40);
      CodeOfMore(LeadBits(s[0]), s, 3, ch / 0x40, ch);
    }
  }

  lemma CodeOfTwo(lead: nat, s: seq<Byte>, ch: nat)
    requires lead < 0x20 && |s| >= 2 && IsContinuation(s[1]) && ch == lead * 0x40 + (s[1] - 0x80)
    ensures Code(lead, s, 1, 2) == ch
  {
    assert Code(lead, s, 1, 1) == lead;
    ShiftedBack(lead, s[1]);
  }

  lemma CodeOfMore(lead: nat, s: seq<Byte>, j: nat, before: nat, ch: nat)
    requires lead < WORD && 1 <= j < |s| && forall k :: 1 <= k <= j ==> IsContinuation(s[k])
    requires Code(lead, s, 1, j) == before < 0x400_0000 && ch + 0x80 == before * 0x40 + s[j]
    ensures Code(lead, s, 1, j + 1) == ch
  {
    ShiftedBack(before, s[j]);
  }
}
