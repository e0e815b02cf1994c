/** The fixed code for match distances: the upper six bits of a 12-bit position through tables, the lower six raw. */
module PositionCode {
  import opened Prelude
  import opened BitIO

  type position = p: int | 0 <= p < 4096

  /** Table `p_len`. */
  function PLen(i: nat): (r: nat)
    ensures 3 <= r <= 8
  {
    if i < 1 then 3 else if i < 4 then 4 else if i < 10 then 5 else if i < 24 then 6 else if i < 48 then 7 else 8
  }

  /** Table `p_code`. */
  function PCode(i: nat): (r: nat)
    ensures i < 64 ==> r < 256
  {
    if i < 1 then 0x00
    else if i < 4 then 0x20 + 0x10 * (i - 1)
    else if i < 12 then 0x50 + 0x08 * (i - 4)
    else if i < 24 then 0x90 + 0x04 * (i - 12)
    else if i < 48 then 0xC0 + 0x02 * (i - 24)
    else 0xF0 + (i - 48)
  }

  /** Table `d_code`. */
  function DCode(x: nat): (r: nat)
    ensures x < 256 ==> r < 64
  {
    if x < 0x20 then 0
    else if x < 0x50 then 1 + (x - 0x20) / 0x10
    else if x < 0x90 then 4 + (x - 0x50) / 0x08
    else if x < 0xC0 then 12 + (x - 0x90) / 0x04
    else if x < 0xF0 then 24 + (x - 0xC0) / 0x02
    else 48 + (x - 0xF0)
  }

  /** Table `d_len`. */
  function DLen(x: nat): (r: nat)
    ensures 3 <= r <= 8
  {
    if x < 0x20 then 3 else if x < 0x50 then 4 else if x < 0x80 then 5 else if x < 0xC0 then 6
    else if x < 0xF0 then 7 else 8
  }

  /** What `_encode_position` writes. */
  function PositionBits(pos: position): (r: bits)
    ensures |r| == PLen(pos / 64) + 6
  {
    TopBits(PCode(pos / 64) * 256, PLen(pos / 64)) + TopBits(pos % 64 * 1024, 6)
  }

  /** What `_decode_position` reads from bit `n` on, and where it stops: an 8-bit lookahead picks the upper bits and
      says how many of the following bits still belong to the position. */
  function ReadPosition(s: bits, n: nat): (r: (position, nat))
  {
    var i := Peek(s, n, 8);
    PeekBound(s, n, 8);
    assert Pow2(8) == 256 by { Pow2Values(); }
    (DCode(i) * 64 + Peek(s, n, 8 + (DLen(i) - 2)) % 64, n + 8 + (DLen(i) - 2))
  }

  /** How many lookahead bytes the prefix of `i` leaves open. */
  function Gap(i: nat): (g: nat)
    ensures g > 0
  {
    Pow2(8 - PLen(i))
  }

  lemma GapValue(h: nat)
    ensures Gap(h) == (if h < 1 then 32 else if h < 4 then 16 else if h < 10 then 8 else if h < 24 then 4
                       else if h < 48 then 2 else 1)
    ensures Gap(h) * Pow2(PLen(h) - 2) == 64 && Pow2(16 - PLen(h)) == 256 * Gap(h)
  {
    Pow2Values();
    assert Pow2(9) == 512 && Pow2(10) == 1024 && Pow2(11) == 2048 && Pow2(12) == 4096 && Pow2(13) == 8192;
  }

  /** `d_code` and `d_len` invert `p_code` and `p_len` on every lookahead byte that starts with a prefix. */
  lemma TablesInvert(h: nat, x: nat)
    requires h < 64 && PCode(h) <= x < PCode(h) + Gap(h)
    ensures x < 256 && DCode(x) == h && DLen(x) == PLen(h)
  {
    GapValue(h);
  }

  /** The prefixes are not complete: these eight lookahead bytes start no prefix, although `d_code` accepts them. */
  lemma UnusedLookahead(x: nat)
    requires x < 256
    ensures (exists h: nat | h < 64 :: PCode(h) <= x < PCode(h) + Gap(h))
       <==> !(0x84 <= x < 0x88 || 0x8C <= x < 0x90)
  {
    GapValue(DCode(x));
    forall h: nat | h < 64 && PCode(h) <= x < PCode(h) + Gap(h)
      ensures !(0x84 <= x < 0x88 || 0x8C <= x < 0x90)
    {
      GapValue(h);
    }
    if !(0x84 <= x < 0x88 || 0x8C <= x < 0x90) {
      assert DCode(x) < 64 && PCode(DCode(x)) <= x < PCode(DCode(x)) + Gap(DCode(x));
    }
  }

  lemma PrefixNumber(h: nat) returns (q: nat)
    requires h < 64
    ensures q * Gap(h) == PCode(h) && q < Pow2(PLen(h)) && q * Pow2(16 - PLen(h)) == PCode(h) * 256
  {
    GapValue(h);
    Pow2Values();
    q := PCode(h) / (if h < 1 then 32 else if h < 4 then 16 else if h < 10 then 8 else if h < 24 then 4
                     else if h < 48 then 2 else 1);
  }

  lemma PrefixBits(h: nat)
    requires h < 64
    ensures Val(TopBits(PCode(h) * 256, PLen(h))) * Gap(h) == PCode(h)
  {
    var q := PrefixNumber(h);
    hide Pow2, Gap, PCode, Val, Bin, TopBits;
    ValBin(q, PLen(h));
    TopBitsOfVal(Bin(q, PLen(h)));
  }

  lemma RawBits(low: nat)
    requires low < 64
    ensures Val(TopBits(low * 1024, 6)) == low
  {
    Pow2Values();
    assert Pow2(10) == 1024;
    ValBin(low, 6);
    TopBitsOfVal(Bin(low, 6));
  }

  lemma LookaheadInGap(h: nat, q: nat, low: nat, x: nat, rest: nat)
    requires h < 64 && q * Gap(h) == PCode(h) && low < 64 && rest < Pow2(PLen(h) - 2)
    requires q * 64 + low == x * Pow2(PLen(h) - 2) + rest
    ensures PCode(h) <= x < PCode(h) + Gap(h)
  {
    GapValue(h);
    Pow2Values();
  }

  lemma PositionValue(pos: position)
    ensures Val(PositionBits(pos)) == Val(TopBits(PCode(pos / 64) * 256, PLen(pos / 64))) * 64 + pos % 64
  {
    hide PCode, PLen, Val, TopBits;
    RawBits(pos % 64);
    ValConcat(TopBits(PCode(pos / 64) * 256, PLen(pos / 64)), TopBits(pos % 64 * 1024, 6));
    Pow2Values();
  }

  lemma LookaheadOf(s: bits, n: nat, pos: position)
    requires Holds(s, n, PositionBits(pos))
    ensures var h := pos / 64; PCode(h) <= Peek(s, n, 8) < PCode(h) + Gap(h)
    ensures Peek(s, n, PLen(pos / 64) + 6) % 64 == pos % 64
  {
    hide PositionBits, PCode, PLen, Val, TopBits, Pow2, Holds, At, Gap, Peek;
    var h := pos / 64;
    PrefixBits(h);
    PositionValue(pos);
    PeekHeld(s, n, PositionBits(pos));
    PeekSplit(s, n, 8, PLen(h) - 2);
    PeekBound(s, n + 8, PLen(h) - 2);
    LookaheadInGap(h, Val(TopBits(PCode(h) * 256, PLen(h))), pos % 64, Peek(s, n, 8), Peek(s, n + 8, PLen(h) - 2));
  }

  /** `_decode_position` inverts `_encode_position`, whatever follows in the stream. */
  lemma PositionRoundTrip(s: bits, n: nat, pos: position)
    requires Holds(s, n, PositionBits(pos))
    ensures ReadPosition(s, n) == (pos, n + |PositionBits(pos)|)
  {
    hide PCode, PLen, DCode, DLen, Val, TopBits, Pow2, Holds, At, Gap, Peek;
    LookaheadOf(s, n, pos);
    TablesInvert(pos / 64, Peek(s, n, 8));
  }

  method EncodePosition(bw: BitWriter, pos: position)
    requires bw.Valid()
    modifies bw
    ensures bw.Valid() && bw.Written() == old(bw.Written()) + PositionBits(pos)
  {
    hide TopBits, PCode, PLen, BitWriter.Valid, BitWriter.Written;
    var i := pos / 64;
    bw.PutCode(PLen(i), PCode(i) * 256);
    bw.PutCode(6, pos % 64 * 1024);
  }

  /** `(i << 1) + bit` is masked to 16 bits, which never cuts anything off: at most 14 bits are gathered. */
  method DecodePosition(br: BitReader) returns (pos: position)
    requires br.Valid()
    modifies br
    ensures br.Valid()
    ensures (pos, br.taken) == ReadPosition(Unpack(br.data), old(br.taken))
  {
    hide Unpack, Pow2, At, DCode, DLen, Peek, IsMask, Below, BitReader.Valid;
    ghost var s, n := Unpack(br.data), br.taken;
    var first := br.GetByte();
    var i: nat := first;
    var c := DCode(i) * 64;
    var j := DLen(i) - 2;
    ghost var k := 8;
    while j > 0
      invariant 0 <= j <= 6 && j + k == DLen(first) + 6
      invariant br.Valid() && br.taken == n + k && i == Peek(s, n, k)
    {
      var b := br.GetBit();
      NextPeek(s, n, k);
      i := (2 * i + b) % 65536;
      j := j - 1;
      k := k + 1;
    }
    pos := c + i % 64;
  }

  lemma NextPeek(s: bits, n: nat, k: nat)
    requires k < 16
    ensures (2 * Peek(s, n, k) + At(s, n + k)) % 65536 == Peek(s, n, k + 1)
  {
    PeekFits(s, n, k + 1);
  }

  lemma PeekFits(s: bits, n: nat, k: nat)
    requires k <= 16
    ensures Peek(s, n, k) < 65536
  {
    PeekBound(s, n, k);
    Pow2Add(k, 16 - k);
    Pow2Values();
    if Pow2(k) > 65536 {
      MulLess(65536, Pow2(k), Pow2(16 - k));
    }
  }
}
