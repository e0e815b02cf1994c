/** The CRC-16 of lzhuf.py: the table-driven form against division by the polynomial 0x11021, one bit at a time. */
module Crc16 {
  import opened Prelude
  import opened BitIO

  // ---------------------------------------------------------------- words as polynomials

  type word = bv16

  /** The sum of two polynomials. */
  function Add(a: word, b: word): word {
    a ^ b
  }

  /** A polynomial times x, without the term that leaves the register. */
  function Twice(a: word): word {
    a << 1
  }

  function Bit(b: bit): word {
    if b == 1 then 1 else 0
  }

  /** What is subtracted when a one leaves the register: x^16 + x^12 + x^5 + 1 without its first term. */
  function Reduction(sm: word): word {
    if sm & 0x8000 != 0 then 0x1021 else 0
  }

  /** One step of long division: the remainder takes in the next bit. */
  function Step(sm: word, b: bit): word {
    Add(Add(Twice(sm), Bit(b)), Reduction(sm))
  }

  /** The remainder after dividing on through the bits `s`. */
  function Divide(sm: word, s: bits): word {
    if |s| == 0 then sm else Step(Divide(sm, s[..|s| - 1]), s[|s| - 1])
  }

  /** The remainder of the data, times x^16, modulo the polynomial. */
  function Remainder(data: bytes): word {
    Divide(0, Unpack(data) + ZeroBits(16))
  }

  /** The same without reductions: bits shifted in from the right. */
  function ShiftIn(sm: word, s: bits): word {
    if |s| == 0 then sm else Add(Twice(ShiftIn(sm, s[..|s| - 1])), Bit(s[|s| - 1]))
  }

  function Xor(a: bits, b: bits): (r: bits)
    requires |a| == |b|
    ensures |r| == |a|
  {
    seq(|a|, i requires 0 <= i < |a| => XorBit(a[i], b[i]))
  }

  // ---------------------------------------------------------------- linearity

  lemma ReductionLinear(x: word, y: word)
    ensures Reduction(Add(x, y)) == Add(Reduction(x), Reduction(y))
  {
    hide Add;
    TopBit(x, y);
    AddSelf(0x1021);
    AddZero(0x1021);
    AddZero(0);
    AddCommutes(0, 0x1021);
  }

  lemma TopBit(x: word, y: word)
    ensures Add(x, y) & 0x8000 != 0 <==> (x & 0x8000 != 0) != (y & 0x8000 != 0)
  {
    var a, b := x & 0x8000, y & 0x8000;
    assert (x ^ y) & 0x8000 == a ^ b;
    assert a == 0 || a == 0x8000;
    assert b == 0 || b == 0x8000;
  }

  lemma BitLinear(a: bit, b: bit)
    ensures Bit(XorBit(a, b)) == Add(Bit(a), Bit(b))
  {
  }

  lemma AddCommutes(a: word, b: word)
    ensures Add(a, b) == Add(b, a)
  {
  }

  lemma AddAssociates(a: word, b: word, c: word)
    ensures Add(Add(a, b), c) == Add(a, Add(b, c))
  {
  }

  lemma AddZero(a: word)
    ensures Add(a, 0) == a && Twice(0) == 0
  {
  }

  lemma AddSelf(a: word)
    ensures Add(a, a) == 0
  {
  }

  lemma AddCancels(a: word, b: word)
    ensures Add(a, b) == 0 <==> a == b
  {
    hide Add;
    AddSelf(b);
    AddZero(a);
    AddZero(b);
    AddCommutes(0, b);
    AddAssociates(a, b, b);
  }

  lemma TwiceAdd(a: word, b: word)
    ensures Twice(Add(a, b)) == Add(Twice(a), Twice(b))
  {
  }

  lemma AddFour(a: word, b: word, c: word, d: word)
    ensures Add(Add(a, b), Add(c, d)) == Add(Add(a, c), Add(b, d))
  {
    hide Add;
    AddAssociates(a, b, Add(c, d));
    AddAssociates(b, c, d);
    AddCommutes(b, c);
    AddAssociates(c, b, d);
    AddAssociates(a, c, Add(b, d));
  }

  lemma StepLinear(x: word, y: word, a: bit, b: bit)
    ensures Step(Add(x, y), XorBit(a, b)) == Add(Step(x, a), Step(y, b))
  {
    hide Add, Twice, Bit, Reduction, XorBit;
    BitLinear(a, b);
    ReductionLinear(x, y);
    TwiceAdd(x, y);
    AddFour(Twice(x), Twice(y), Bit(a), Bit(b));
    AddFour(Add(Twice(x), Bit(a)), Add(Twice(y), Bit(b)), Reduction(x), Reduction(y));
  }

  /** Division is linear: the remainder of a sum is the sum of the remainders. */
  lemma {:induction false} DivideLinear(x: word, y: word, a: bits, b: bits)
    requires |a| == |b|
    ensures Divide(Add(x, y), Xor(a, b)) == Add(Divide(x, a), Divide(y, b))
  {
    hide Step, Add, XorBit;
    if |a| > 0 {
      var n := |a| - 1;
      assert Xor(a, b)[..n] == Xor(a[..n], b[..n]);
      DivideLinear(x, y, a[..n], b[..n]);
      StepLinear(Divide(x, a[..n]), Divide(y, b[..n]), a[n], b[n]);
    }
  }

  lemma {:induction false} DivideConcat(sm: word, a: bits, b: bits)
    ensures Divide(sm, a + b) == Divide(Divide(sm, a), b)
  {
    hide Step;
    if |b| == 0 {
      assert a + b == a;
    } else {
      var n := |b| - 1;
      assert (a + b)[..|a + b| - 1] == a + b[..n];
      DivideConcat(sm, a, b[..n]);
    }
  }

  // ---------------------------------------------------------------- no reduction below 16 bits

  /** The `n` low bits. */
  function Mask(n: nat): word {
    if n == 0 then 0 else Add(Twice(Mask(n - 1)), 1)
  }

  lemma MaskClear(n: nat)
    requires n < 16
    ensures Mask(n) & 0x8000 == 0
  {
    assert Mask(3) == 7 && Mask(6) == 0x3F && Mask(9) == 0x1FF && Mask(12) == 0xFFF && Mask(15) == 0x7FFF;
  }

  /** No term of `a` is missing in `m`. */
  predicate Within(a: word, m: word) {
    a & m == a
  }

  lemma NoReduction(sm: word, m: word)
    requires Within(sm, m) && m & 0x8000 == 0
    ensures Reduction(sm) == 0
  {
  }

  lemma ShiftedWithin(sm: word, m: word, b: bit)
    requires Within(sm, m) && m & 0x8000 == 0
    ensures Within(Add(Twice(sm), Bit(b)), Add(Twice(m), 1))
  {
    if b == 1 {
      assert Bit(b) == 1;
    } else {
      assert Bit(b) == 0;
    }
  }

  lemma ShiftedZero(sm: word, m: word, b: bit)
    requires Within(sm, m) && m & 0x8000 == 0
    ensures Add(Twice(sm), Bit(b)) == 0 <==> sm == 0 && b == 0
  {
    if b == 1 {
      assert Bit(b) == 1;
    } else {
      assert Bit(b) == 0;
    }
  }

  lemma StepBelow(sm: word, n: nat, b: bit)
    requires n < 16 && Within(sm, Mask(n))
    ensures Step(sm, b) == Add(Twice(sm), Bit(b))
    ensures Within(Add(Twice(sm), Bit(b)), Mask(n + 1))
    ensures Add(Twice(sm), Bit(b)) == 0 <==> sm == 0 && b == 0
  {
    hide Within, Add, Twice, Bit, Reduction;
    MaskClear(n);
    NoReduction(sm, Mask(n));
    ShiftedWithin(sm, Mask(n), b);
    ShiftedZero(sm, Mask(n), b);
    AddZero(Add(Twice(sm), Bit(b)));
  }

  /** While the register and the bits fed to it fit into 16 bits, nothing is subtracted. */
  lemma {:induction false} DivideBelow(sm: word, m: nat, s: bits)
    requires Within(sm, Mask(m)) && m + |s| <= 16
    ensures Divide(sm, s) == ShiftIn(sm, s) && Within(ShiftIn(sm, s), Mask(m + |s|))
    ensures ShiftIn(sm, s) == 0 <==> sm == 0 && forall i: nat | i < |s| :: s[i] == 0
  {
    hide Step, Bit, Within, Mask, Add, Twice;
    if |s| > 0 {
      var n := |s| - 1;
      DivideBelow(sm, m, s[..n]);
      StepBelow(ShiftIn(sm, s[..n]), m + n, s[n]);
    }
  }

  // ---------------------------------------------------------------- the table

  /** An entry of the table: the remainder of one byte followed by eight zero bits. */
  function Entry(i: word): word {
    Divide(i << 8, ZeroBits(8))
  }

  lemma {:induction false} ShiftInLinear(x: word, s: bits)
    ensures ShiftIn(x, s) == Add(ShiftIn(x, ZeroBits(|s|)), ShiftIn(0, s))
  {
    hide Bit, Add, Twice;
    AddZero(x);
    BitZero();
    if |s| > 0 {
      var n := |s| - 1;
      var a, b := ShiftIn(x, ZeroBits(n)), ShiftIn(0, s[..n]);
      assert ZeroBits(|s|)[..n] == ZeroBits(n);
      ShiftInLinear(x, s[..n]);
      TwiceAdd(a, b);
      AddAssociates(Twice(a), Twice(b), Bit(s[n]));
      AddZero(Twice(a));
    }
  }

  lemma BitZero()
    ensures Bit(0) == 0
  {
  }

  /** `n` zero bits shift the register `n` times. */
  function Shifted(x: word, n: nat): word {
    if n == 0 then x else Twice(Shifted(x, n - 1))
  }

  lemma {:induction false} ShiftInZeros(x: word, n: nat)
    ensures ShiftIn(x, ZeroBits(n)) == Shifted(x, n)
  {
    hide Bit, Add, Twice;
    if n > 0 {
      assert ZeroBits(n)[..n - 1] == ZeroBits(n - 1);
      ShiftInZeros(x, n - 1);
      BitZero();
      AddZero(Twice(Shifted(x, n - 1)));
    }
  }

  lemma EightShifts(x: word)
    ensures Shifted(x, 8) == x << 8
  {
    hide Twice;
    assert Shifted(x, 1) == Twice(Shifted(x, 0));
    assert Shifted(x, 2) == Twice(Shifted(x, 1));
    assert Shifted(x, 4) == Twice(Twice(Shifted(x, 2)));
    assert Shifted(x, 6) == Twice(Twice(Shifted(x, 4)));
    EightTimes(x);
  }

  lemma EightTimes(x: word)
    ensures Twice(Twice(Twice(Twice(Twice(Twice(Twice(Twice(x)))))))) == x << 8
  {
  }

  /** A byte as a 16-bit word, digit by digit. */
  function Word(b: byte): word {
    ShiftIn(0, ByteBits(b))
  }

  lemma Halves(sm: word)
    ensures sm == Add((sm >> 8) << 8, sm & 0xFF)
    ensures (sm & 0xFF) << 8 == (sm << 8) & 0xFF00
    ensures Within(sm & 0xFF, Mask(8))
  {
    assert Mask(2) == 3 && Mask(4) == 15 && Mask(6) == 63 && Mask(8) == 255;
  }

  /** `_crc16_update` on a word: a table entry for the upper byte, and the lower byte and the new one moved up. */
  function Update(cp: byte, sm: word): word {
    Add(Add((sm << 8) & 0xFF00, Entry(sm >> 8)), Word(cp))
  }

  /** One table step is eight steps of the division. */
  lemma UpdateDivides(cp: byte, sm: word)
    ensures Update(cp, sm) == Divide(sm, ByteBits(cp))
  {
    hide Step, Mask, Divide, ShiftIn, ByteBits, Add, Within, Shifted;
    Halves(sm);
    XorZero(ByteBits(cp));
    DivideLinear((sm >> 8) << 8, sm & 0xFF, ZeroBits(8), ByteBits(cp));
    DivideBelow(sm & 0xFF, 8, ByteBits(cp));
    ShiftInLinear(sm & 0xFF, ByteBits(cp));
    ShiftInZeros(sm & 0xFF, 8);
    EightShifts(sm & 0xFF);
    AddAssociates(Entry(sm >> 8), (sm << 8) & 0xFF00, Word(cp));
    AddCommutes(Entry(sm >> 8), (sm << 8) & 0xFF00);
  }

  lemma XorZero(s: bits)
    ensures Xor(ZeroBits(|s|), s) == s
  {
  }

  // ---------------------------------------------------------------- crc16

  /** `_build_crc16_tab` */
  method BuildTable() returns (tab: seq<word>)
    ensures |tab| == 256 && forall i: nat | i < 256 :: tab[i] == Entry(i as word)
  {
    tab := [];
    for i := 0 to 256
      invariant |tab| == i && forall k: nat | k < i :: tab[k] == Entry(k as word)
    {
      var c := (i as word) << 8;
      for k := 0 to 8
        invariant c == Divide((i as word) << 8, ZeroBits(k))
      {
        ZeroStep((i as word) << 8, k);
        c := if c & 0x8000 != 0 then Add(Twice(c), 0x1021) else Twice(c);
      }
      tab := tab + [c];
    }
  }

  lemma ZeroStep(x: word, k: nat)
    ensures var c := Divide(x, ZeroBits(k));
      Divide(x, ZeroBits(k + 1)) == if c & 0x8000 != 0 then Add(Twice(c), 0x1021) else Twice(c)
  {
    hide Add, Twice;
    var c := Divide(x, ZeroBits(k));
    assert ZeroBits(k + 1)[..k] == ZeroBits(k);
    BitZero();
    AddZero(Twice(c));
    AddZero(Add(Twice(c), 0));
  }

  lemma RoundTripWord(x: word)
    ensures (x as int) as word == x
  {
  }

  lemma UpperByte(x: word)
    ensures (x >> 8) as int < 256 && (x >> 8) & 0xFF == x >> 8
  {
  }

  lemma DivideByte(data: bytes, b: byte)
    ensures Divide(0, Unpack(data + [b])) == Divide(Divide(0, Unpack(data)), ByteBits(b))
  {
    UnpackAppend(data, b);
    DivideConcat(0, Unpack(data), ByteBits(b));
  }

  /** `crc16`: the table-driven loop over the data and two zero bytes. */
  method Crc16(data: bytes) returns (sm: word)
    ensures sm == Remainder(data)
  {
    hide Divide, Unpack, Entry, Word, Add, ByteBits;
    var tab := BuildTable();
    sm := 0;
    var input := data + [0, 0];
    DivideNothing();
    for i := 0 to |input|
      invariant sm == Divide(0, Unpack(input[..i]))
    {
      var c := input[i];
      UpperByte(sm);
      RoundTripWord(sm >> 8);
      UpdateDivides(c, sm);
      assert input[..i + 1] == input[..i] + [c];
      DivideByte(input[..i], c);
      sm := Add(Add((sm << 8) & 0xFF00, tab[((sm >> 8) & 0xFF) as int]), Word(c));
    }
    assert input[..|input|] == input;
    TwoZeroBytes(data);
  }

  lemma DivideNothing()
    ensures Divide(0, Unpack([])) == 0
  {
  }

  lemma TwoZeroBytes(data: bytes)
    ensures Unpack(data + [0, 0]) == Unpack(data) + ZeroBits(16)
  {
    assert data + [0, 0] == data + [0] + [0];
    UnpackAppend(data, 0);
    UnpackAppend(data + [0], 0);
    BinZero(8);
    assert ZeroBits(8) + ZeroBits(8) == ZeroBits(16);
  }

  // ---------------------------------------------------------------- error detection

  lemma StepInjective(sm: word)
    ensures Step(sm, 0) == 0 <==> sm == 0
  {
    hide Add, Reduction, Twice;
    BitZero();
    AddZero(Twice(sm));
    AddCancels(Twice(sm), Reduction(sm));
    NoLowTerm(sm);
  }

  /** A shifted word has no term x^0, the polynomial has one. */
  lemma NoLowTerm(sm: word)
    ensures Twice(sm) == Reduction(sm) <==> sm == 0
  {
  }

  lemma {:induction false} ZerosInjective(sm: word, n: nat)
    ensures Divide(sm, ZeroBits(n)) == 0 <==> sm == 0
  {
    hide Step;
    if n > 0 {
      assert ZeroBits(n)[..n - 1] == ZeroBits(n - 1);
      ZerosInjective(sm, n - 1);
      StepInjective(Divide(sm, ZeroBits(n - 1)));
    }
  }

  /** `a` and `b` agree outside the 16 bits from bit `i` on. */
  predicate AgreeOutside(a: bits, b: bits, i: nat) {
    |a| == |b| && i + 16 <= |a| && forall k: nat | k < |a| && !(i <= k < i + 16) :: a[k] == b[k]
  }

  /** An error pattern within 16 consecutive bits has remainder zero only if it is empty. */
  lemma BurstPattern(e: bits, i: nat)
    requires AgreeOutside(e, ZeroBits(|e|), i)
    ensures Divide(0, e + ZeroBits(16)) == 0 <==> e == ZeroBits(|e|)
  {
    hide Divide, ShiftIn;
    var w, j := e[i..i + 16], |e| - i - 16 + 16;
    assert e + ZeroBits(16) == ZeroBits(i) + (w + ZeroBits(j));
    DivideConcat(0, ZeroBits(i), w + ZeroBits(j));
    DivideConcat(0, w, ZeroBits(j));
    ZerosInjective(0, i);
    ZeroWithin();
    DivideBelow(0, 0, w);
    ZerosInjective(Divide(0, w), j);
    assert e == ZeroBits(|e|) <==> forall k: nat | k < 16 :: w[k] == 0 by {
      assert forall k: nat | k < 16 :: w[k] == e[i + k];
      if forall k: nat | k < 16 :: w[k] == 0 {
        forall k: nat | k < |e|
          ensures e[k] == 0
        {
          if i <= k < i + 16 {
            assert w[k - i] == 0;
          }
        }
        assert e == ZeroBits(|e|);
      }
    }
  }

  lemma ZeroWithin()
    ensures Within(0, Mask(0))
  {
  }

  /** Two messages of the same length that differ only within 16 consecutive bits have different remainders. */
  lemma BurstDetected(a: bytes, b: bytes, i: nat)
    requires |a| == |b| && a != b && AgreeOutside(Unpack(a), Unpack(b), i)
    ensures Remainder(a) != Remainder(b)
  {
    hide Divide, Unpack;
    var x, y := Unpack(a), Unpack(b);
    var e := Xor(x, y);
    if e == ZeroBits(|e|) {
      assert forall k: nat | k < |x| :: e[k] == XorBit(x[k], y[k]);
      assert x == y;
      UnpackInjective(a, b);
    }
    assert forall k: nat | k < |x| :: e[k] == XorBit(x[k], y[k]);
    BurstPattern(e, i);
    XorZero(ZeroBits(16));
    assert Xor(x + ZeroBits(16), y + ZeroBits(16)) == e + Xor(ZeroBits(16), ZeroBits(16));
    DivideLinear(0, 0, x + ZeroBits(16), y + ZeroBits(16));
    AddZero(0);
    AddCancels(Remainder(a), Remainder(b));
  }

  lemma {:induction false} UnpackInjective(a: bytes, b: bytes)
    requires |a| == |b| && Unpack(a) == Unpack(b)
    ensures a == b
  {
    if |a| > 0 {
      var n := |a| - 1;
      assert Unpack(a)[..8 * n] == Unpack(a[..n]) && Unpack(b)[..8 * n] == Unpack(b[..n]);
      assert Unpack(a)[8 * n..] == ByteBits(a[n]) && Unpack(b)[8 * n..] == ByteBits(b[n]);
      UnpackInjective(a[..n], b[..n]);
      Pow2Values();
      ValBin(a[n], 8);
      ValBin(b[n], 8);
      assert a == a[..n] + [a[n]] && b == b[..n] + [b[n]];
    }
  }
}
