/** The bit writer and the bit reader, most significant bit first. */
module BitIO {
  import opened Prelude

  // ---------------------------------------------------------------- numbers as bits

  function XorBit(a: bit, b: bit): bit {
    if a == b then 0 else 1
  }

  function Pow2(n: nat): (r: nat)
    ensures r > 0
  {
    if n == 0 then 1 else 2 * Pow2(n - 1)
  }

  lemma MulTwice(a: nat, b: nat)
    ensures a * (2 * b) == 2 * (a * b)
  {
  }

  lemma MulLess(a: nat, b: nat, c: nat)
    requires a < b && c > 0
    ensures a * c < b * c
  {
  }

  lemma MulSum(a: nat, b: nat, c: nat)
    ensures (a + b) * c == a * c + b * c
  {
  }

  lemma {:induction false} Pow2Add(m: nat, n: nat)
    ensures Pow2(m + n) == Pow2(m) * Pow2(n)
  {
    if m > 0 {
      Pow2Add(m - 1, n);
      assert Pow2(m + n) == 2 * (Pow2(m - 1) * Pow2(n));
    }
  }

  lemma Pow2Values()
    ensures Pow2(1) == 2 && Pow2(2) == 4 && Pow2(3) == 8 && Pow2(4) == 16 && Pow2(5) == 32 && Pow2(6) == 64
    ensures Pow2(7) == 128 && Pow2(8) == 256 && Pow2(15) == 32768 && Pow2(16) == 65536
  {
    assert Pow2(2) == 4 && Pow2(4) == 16 && Pow2(6) == 64 && Pow2(8) == 256;
    assert Pow2(10) == 1024 && Pow2(12) == 4096 && Pow2(14) == 16384;
  }

  /** The number a bit string spells. */
  function Val(b: bits): nat {
    if |b| == 0 then 0 else 2 * Val(b[..|b| - 1]) + b[|b| - 1]
  }

  lemma {:induction false} ValConcat(a: bits, b: bits)
    ensures Val(a + b) == Val(a) * Pow2(|b|) + Val(b)
  {
    if |b| == 0 {
      assert a + b == a;
    } else {
      var n := |b| - 1;
      assert (a + b)[..|a + b| - 1] == a + b[..n];
      ValConcat(a, b[..n]);
      MulTwice(Val(a), Pow2(n));
      assert Pow2(|b|) == 2 * Pow2(n);
    }
  }

  lemma {:induction false} ValBound(b: bits)
    ensures Val(b) < Pow2(|b|)
  {
    if |b| > 0 {
      ValBound(b[..|b| - 1]);
    }
  }

  /** `v` in `n` binary digits. */
  function Bin(v: nat, n: nat): (r: bits)
    ensures |r| == n
  {
    if n == 0 then [] else Bin(v / 2, n - 1) + [v % 2]
  }

  lemma {:induction false} ValBin(v: nat, n: nat)
    requires v < Pow2(n)
    ensures Val(Bin(v, n)) == v
  {
    if n > 0 {
      assert v / 2 < Pow2(n - 1);
      ValBin(v / 2, n - 1);
      assert Bin(v, n)[..n - 1] == Bin(v / 2, n - 1);
    }
  }

  /** The number spelled by `k` bits of a stream from bit `n` on. */
  function Peek(s: bits, n: nat, k: nat): nat {
    if k == 0 then 0 else 2 * Peek(s, n, k - 1) + At(s, n + k - 1)
  }

  lemma {:induction false} PeekSplit(s: bits, n: nat, j: nat, k: nat)
    ensures Peek(s, n, j + k) == Peek(s, n, j) * Pow2(k) + Peek(s, n + j, k)
  {
    if k > 0 {
      PeekSplit(s, n, j, k - 1);
      MulTwice(Peek(s, n, j), Pow2(k - 1));
    }
  }

  lemma {:induction false} PeekBound(s: bits, n: nat, k: nat)
    ensures Peek(s, n, k) < Pow2(k)
  {
    if k > 0 {
      PeekBound(s, n, k - 1);
    }
  }

  /** The bits `code` stand in the stream `s` from bit `n` on. */
  predicate Holds(s: bits, n: nat, code: bits) {
    forall i: nat | i < |code| :: At(s, n + i) == code[i]
  }

  lemma HoldsConcat(s: bits, n: nat, a: bits, b: bits)
    requires Holds(s, n, a + b)
    ensures Holds(s, n, a) && Holds(s, n + |a|, b)
  {
    assert forall i: nat | i < |a| :: (a + b)[i] == a[i];
    forall i: nat | i < |b|
      ensures At(s, n + |a| + i) == b[i]
    {
      assert (a + b)[|a| + i] == b[i];
      assert At(s, n + (|a| + i)) == (a + b)[|a| + i];
    }
  }

  lemma HoldsOne(s: bits, n: nat, b: bit)
    requires Holds(s, n, [b])
    ensures At(s, n) == b
  {
    assert At(s, n + 0) == [b][0];
  }

  lemma {:induction false} PeekHeld(s: bits, n: nat, code: bits)
    requires Holds(s, n, code)
    ensures Peek(s, n, |code|) == Val(code)
  {
    if |code| > 0 {
      var k := |code| - 1;
      assert code == code[..k] + [code[k]];
      HoldsConcat(s, n, code[..k], [code[k]]);
      HoldsOne(s, n + k, code[k]);
      PeekHeld(s, n, code[..k]);
    }
  }

  /** The first `len` bits of a 16-bit field, as `put_code` shifts them out. */
  function TopBits(code: nat, len: nat): (r: bits)
    requires code < 65536
    ensures |r| == len
    decreases len
  {
    if len == 0 then [] else [code / 32768] + TopBits(code * 2 % 65536, len - 1)
  }

  /** Left-justified in 16 bits, a code of at most 16 bits comes out as itself. */
  lemma {:induction false} TopBitsOfVal(b: bits)
    requires |b| <= 16
    ensures Val(b) * Pow2(16 - |b|) < 65536
    ensures TopBits(Val(b) * Pow2(16 - |b|), |b|) == b
  {
    hide Val, Pow2;
    JustifiedBound(b);
    if |b| > 0 {
      var rest := b[1..];
      assert b == [b[0]] + rest;
      JustifiedStep(b[0], rest);
      TopBitsOfVal(rest);
      TopBitsStep(Val(b) * Pow2(16 - |b|), b[0], Val(rest) * Pow2(16 - |b|), |b|);
    }
  }

  lemma TopBitsStep(x: nat, b: bit, y: nat, len: nat)
    requires x == b * 32768 + y && y < 32768 && len > 0
    ensures TopBits(x, len) == [b] + TopBits(2 * y, len - 1)
  {
  }

  lemma ValCons(b: bit, rest: bits)
    ensures Val([b] + rest) == (if b == 1 then Pow2(|rest|) else 0) + Val(rest)
  {
    hide Val, Pow2;
    ValConcat([b], rest);
    ValOne(b);
    ScaledBit(b, Pow2(|rest|));
  }

  lemma ValOne(b: bit)
    ensures Val([b]) == b
  {
    assert [b][..0] == [];
  }

  lemma ScaledBit(b: bit, p: nat)
    ensures b * p == if b == 1 then p else 0
  {
  }

  lemma JustifiedStep(b: bit, rest: bits)
    requires |rest| < 16
    ensures Val([b] + rest) * Pow2(15 - |rest|) == b * 32768 + Val(rest) * Pow2(15 - |rest|)
    ensures Val(rest) * Pow2(15 - |rest|) < 32768
    ensures Val(rest) * Pow2(16 - |rest|) == 2 * (Val(rest) * Pow2(15 - |rest|))
  {
    Pow2Values();
    MulTwice(Val(rest), Pow2(15 - |rest|));
    ValCons(b, rest);
    ValBound(rest);
    Pow2Add(|rest|, 15 - |rest|);
    SplitProduct(Val([b] + rest), b, Pow2(|rest|), Val(rest), Pow2(15 - |rest|));
  }

  lemma SplitProduct(x: nat, b: bit, q: nat, v: nat, p: nat)
    requires x == (if b == 1 then q else 0) + v && q * p == 32768 && v < q && p > 0
    ensures x * p == b * 32768 + v * p && v * p < 32768
  {
    MulSum(q, v, p);
    MulLess(v, q, p);
  }

  lemma JustifiedBound(b: bits)
    requires |b| <= 16
    ensures Val(b) * Pow2(16 - |b|) < 65536
  {
    Pow2Values();
    ValBound(b);
    Pow2Add(|b|, 16 - |b|);
    MulLess(Val(b), Pow2(|b|), Pow2(16 - |b|));
  }

  // ---------------------------------------------------------------- bytes as bits

  function ByteBits(b: byte): (r: bits)
    ensures |r| == 8
  {
    Bin(b, 8)
  }

  function Unpack(data: bytes): (r: bits)
    ensures |r| == 8 * |data|
  {
    if |data| == 0 then [] else Unpack(data[..|data| - 1]) + ByteBits(data[|data| - 1])
  }

  lemma {:induction false} UnpackAt(data: bytes, q: nat, k: nat)
    requires k < 8
    ensures At(Unpack(data), 8 * q + k) == if q < |data| then ByteBits(data[q])[k] else 0
  {
    if q + 1 < |data| {
      UnpackAt(data[..|data| - 1], q, k);
    }
  }

  predicate IsMask(mask: nat) {
    mask == 128 || mask == 64 || mask == 32 || mask == 16 || mask == 8 || mask == 4 || mask == 2 || mask == 1
  }

  /** How many bits of a byte are below `mask`. */
  function Below(mask: nat): (r: nat)
    requires IsMask(mask)
    ensures r < 8
  {
    if mask == 1 then 0 else 1 + Below(mask / 2)
  }

  lemma DivHalf(v: nat, mask: nat)
    requires IsMask(mask) && mask > 1
    ensures IsMask(mask / 2) && v / mask == v / 2 / (mask / 2)
    ensures v % mask == 0 <==> v % 2 == 0 && v / 2 % (mask / 2) == 0
  {
    HalfOfMask(mask);
    hide IsMask;
    DivTwice(v, mask / 2);
  }

  lemma HalfOfMask(mask: nat)
    requires IsMask(mask) && mask > 1
    ensures IsMask(mask / 2) && mask == 2 * (mask / 2)
  {
  }

  lemma DivTwice(v: nat, h: nat)
    requires h > 0
    ensures v / (2 * h) == v / 2 / h
    ensures v % (2 * h) == 0 <==> v % 2 == 0 && v / 2 % h == 0
  {
    var w, b := v / 2, v % 2;
    var q, r := w / h, w % h;
    assert v == 2 * (h * q + r) + b;
    DivMod(v, 2 * h, q, 2 * r + b, h);
  }

  lemma DivMod(v: nat, m: nat, q: nat, r: nat, h: nat)
    requires m == 2 * h && r < m && v == 2 * (h * q) + r
    ensures v / m == q && v % m == r
  {
    assert v == m * q + r;
    if v / m > q {
      MulAtLeast(m, q + 1, v / m);
    } else if v / m < q {
      MulAtLeast(m, v / m + 1, q);
    }
  }

  lemma MulAtLeast(m: nat, a: nat, b: nat)
    requires a <= b
    ensures m * a <= m * b
  {
  }

  /** The bit of `v` that a mask selects. */
  lemma {:induction false} MaskedBit(v: nat, n: nat, mask: nat)
    requires IsMask(mask) && Below(mask) < n
    ensures v / mask % 2 == Bin(v, n)[n - 1 - Below(mask)]
  {
    if mask > 1 {
      DivHalf(v, mask);
      MaskedBit(v / 2, n - 1, mask / 2);
    }
  }

  function ZeroBits(n: nat): (r: bits)
    ensures |r| == n
  {
    seq(n, _ => 0)
  }

  lemma {:induction false} LowZeros(v: nat, n: nat, mask: nat)
    requires IsMask(mask) && Below(mask) <= n && v % mask == 0
    ensures Bin(v, n) == Bin(v / mask, n - Below(mask)) + ZeroBits(Below(mask))
  {
    if mask > 1 {
      DivHalf(v, mask);
      LowZeros(v / 2, n - 1, mask / 2);
      assert ZeroBits(Below(mask)) == ZeroBits(Below(mask / 2)) + [0];
    }
  }

  // ---------------------------------------------------------------- writer

  /** The bits of a byte above `mask`. */
  function Above(buf: nat, mask: nat): bits
    requires IsMask(mask)
  {
    Bin(buf / (2 * mask), 7 - Below(mask))
  }

  /** The bits of a byte from `mask` down are still clear. */
  predicate Clear(buf: nat, mask: nat) {
    IsMask(mask) && buf % (2 * mask) == 0
  }

  lemma PutBitInByte(buf: byte, mask: nat, b: bit)
    requires Clear(buf, mask)
    ensures var v := if b == 1 then buf + mask else buf;
      && v < 256
      && (mask / 2 == 0 ==> ByteBits(v) == Above(buf, mask) + [b])
      && (mask / 2 > 0 ==> Clear(v, mask / 2) && Above(v, mask / 2) == Above(buf, mask) + [b])
  {
    PutBitArithmetic(buf, mask, b);
  }

  lemma FreshByte()
    ensures Clear(0, 0x80) && Above(0, 0x80) == []
  {
  }

  /** Padding a started byte with the zero bits it already holds. */
  lemma PadByte(buf: byte, mask: nat)
    requires Clear(buf, mask) && mask != 0x80
    ensures Below(mask) < 7 && ByteBits(buf) == Above(buf, mask) + ZeroBits(1 + Below(mask))
  {
    MaskDouble(mask);
    hide IsMask;
    LowZeros(buf, 8, 2 * mask);
  }

  lemma MaskDouble(mask: nat)
    requires IsMask(mask) && mask != 0x80
    ensures IsMask(2 * mask) && Below(2 * mask) == Below(mask) + 1
  {
  }

  lemma UnpackAppend(data: bytes, b: byte)
    ensures Unpack(data + [b]) == Unpack(data) + ByteBits(b)
  {
    assert (data + [b])[..|data|] == data;
  }

  lemma PutBitArithmetic(buf: byte, mask: nat, b: bit)
    requires IsMask(mask) && buf % (2 * mask) == 0
    ensures var v := if b == 1 then buf + mask else buf;
      v < 256 && v / mask == 2 * (buf / (2 * mask)) + b && v % mask == 0
    ensures mask > 1 ==> IsMask(mask / 2) && 2 * (mask / 2) == mask
  {
  }

  class BitWriter {
    var out: bytes
    var buf: byte
    var mask: nat

    ghost predicate Valid()
      reads this
    {
      Clear(buf, mask)
    }

    /** Every bit put so far, in order. */
    ghost function Written(): bits
      reads this
      requires Valid()
    {
      Unpack(out) + Above(buf, mask)
    }

    constructor ()
      ensures Valid() && Written() == []
    {
      FreshByte();
      out, buf, mask := [], 0, 0x80;
    }

    /** `buf |= mask` is an addition, because the bit is still clear. */
    method PutBit(b: bit)
      requires Valid()
      modifies this
      ensures Valid() && Written() == old(Written()) + [b]
    {
      hide Unpack, Above, ByteBits, Below;
      PutBitInByte(buf, mask, b);
      FreshByte();
      if b == 1 {
        buf := buf + mask;
      }
      mask := mask / 2;
      if mask == 0 {
        UnpackAppend(out, buf);
        out := out + [buf];
        buf := 0;
        mask := 0x80;
      }
    }

    /** The first `length` bits of a code left-justified in 16 bits. */
    method PutCode(length: nat, code: nat)
      requires Valid() && code < 65536
      modifies this
      ensures Valid() && Written() == old(Written()) + TopBits(code, length)
    {
      var len, c := length, code;
      while len > 0
        invariant Valid() && c < 65536
        invariant Written() + TopBits(c, len) == old(Written()) + TopBits(code, length)
      {
        len := len - 1;
        PutBit(c / 32768);
        c := c * 2 % 65536;
      }
    }

    /** Pad the last byte with zero bits. */
    method Flush() returns (data: bytes)
      requires Valid()
      modifies this
      ensures Valid() && data == out
      ensures exists pad: nat | pad < 8 :: Unpack(data) == old(Written()) + ZeroBits(pad)
    {
      hide Unpack, ByteBits;
      ghost var pad := 0;
      FreshByte();
      if mask != 0x80 {
        PadByte(buf, mask);
        UnpackAppend(out, buf);
        pad := 1 + Below(mask);
        out := out + [buf];
        buf := 0;
        mask := 0x80;
      }
      assert Unpack(out) == old(Written()) + ZeroBits(pad);
      return out;
    }
  }

  // ---------------------------------------------------------------- reader

  lemma SelectedBit(data: bytes, taken: nat, buf: byte, mask: nat)
    requires IsMask(mask) && taken % 8 == 7 - Below(mask)
    requires buf == if taken / 8 < |data| then data[taken / 8] else 0
    ensures buf / mask % 2 == At(Unpack(data), taken)
    ensures mask > 1 ==> IsMask(mask / 2) && Below(mask / 2) == Below(mask) - 1
    ensures mask == 1 ==> Below(mask) == 0
  {
    hide *;
    UnpackAt(data, taken / 8, taken % 8);
    MaskedBitOfByte(buf, mask);
    ZeroByte(taken % 8);
    MaskStep(mask);
  }

  lemma MaskedBitOfByte(buf: byte, mask: nat)
    requires IsMask(mask)
    ensures buf / mask % 2 == ByteBits(buf)[7 - Below(mask)]
  {
    MaskedBit(buf, 8, mask);
  }

  lemma ZeroByte(k: nat)
    requires k < 8
    ensures ByteBits(0)[k] == 0
  {
    BinZero(8);
  }

  lemma MaskStep(mask: nat)
    requires IsMask(mask)
    ensures mask > 1 ==> IsMask(mask / 2) && Below(mask / 2) == Below(mask) - 1
    ensures mask == 1 ==> Below(mask) == 0
  {
  }

  /** Between two bytes: `pos` bytes have been taken whole, or the data has ended. */
  predicate Between(data: bytes, pos: nat, taken: nat) {
    pos <= |data| && taken % 8 == 0 && (taken == 8 * pos || (pos == |data| && taken >= 8 * pos))
  }

  /** Inside a byte: the next bit is the one at `mask` of `buf`. */
  predicate Inside(data: bytes, pos: nat, buf: byte, mask: nat, taken: nat) {
    && IsMask(mask)
    && taken % 8 == 7 - Below(mask)
    && if taken / 8 < |data| then pos == taken / 8 + 1 && buf == data[taken / 8] else pos == |data| && buf == 0
  }

  lemma NextByte(data: bytes, pos: nat, taken: nat)
    requires Between(data, pos, taken)
    ensures pos <= |data|
    ensures pos < |data| ==> Inside(data, pos + 1, data[pos], 0x80, taken)
    ensures pos == |data| ==> Inside(data, pos, 0, 0x80, taken)
  {
    assert Below(0x80) == 7;
  }

  lemma InsideMask(data: bytes, pos: nat, buf: byte, mask: nat, taken: nat)
    requires Inside(data, pos, buf, mask, taken)
    ensures IsMask(mask) && taken % 8 == 7 - Below(mask)
    ensures buf == if taken / 8 < |data| then data[taken / 8] else 0
  {
    hide IsMask, Below;
  }

  lemma BitTaken(data: bytes, pos: nat, buf: byte, mask: nat, taken: nat)
    requires Inside(data, pos, buf, mask, taken)
    ensures mask == 1 ==> Between(data, pos, taken + 1)
    ensures mask != 1 ==> mask / 2 != 0 && Inside(data, pos, buf, mask / 2, taken + 1)
  {
    hide Below;
    MaskStep(mask);
  }

  class BitReader {
    const data: bytes
    var pos: nat
    var buf: byte
    var mask: nat
    /** How many bits have been taken. */
    ghost var taken: nat

    ghost predicate Valid()
      reads this
    {
      if mask == 0 then Between(data, pos, taken) else Inside(data, pos, buf, mask, taken)
    }

    constructor (data: bytes)
      ensures Valid() && this.data == data && taken == 0
    {
      this.data, pos, buf, mask, taken := data, 0, 0, 0, 0;
    }

    /** The next bit of the data, and zero for ever behind its end. */
    method GetBit() returns (b: bit)
      requires Valid()
      modifies this
      ensures Valid() && taken == old(taken) + 1 && b == At(Unpack(data), old(taken))
    {
      hide Unpack, At, Below, IsMask, Between, Inside;
      if mask == 0 {
        NextByte(data, pos, taken);
        if pos < |data| {
          buf := data[pos];
          pos := pos + 1;
        } else {
          buf := 0;
        }
        mask := 0x80;
      }
      InsideMask(data, pos, buf, mask, taken);
      SelectedBit(data, taken, buf, mask);
      BitTaken(data, pos, buf, mask, taken);
      b := buf / mask % 2;
      mask := mask / 2;
      taken := taken + 1;
    }

    method GetByte() returns (val: byte)
      requires Valid()
      modifies this
      ensures Valid() && taken == old(taken) + 8 && val == Peek(Unpack(data), old(taken), 8)
    {
      hide Unpack, At, Pow2;
      var v: nat := 0;
      ghost var s, n := Unpack(data), taken;
      for i := 0 to 8
        invariant Valid() && taken == n + i && v == Peek(s, n, i)
      {
        var b := GetBit();
        v := 2 * v + b;
      }
      PeekBound(s, n, 8);
      Pow2Values();
      val := v;
    }
  }

  lemma {:induction false} BinZero(n: nat)
    ensures Bin(0, n) == ZeroBits(n)
  {
    if n > 0 {
      BinZero(n - 1);
    }
  }
}
