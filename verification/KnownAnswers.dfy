/** Answers known byte by byte: what the compressor, the checksum and their tables give for small inputs. */
module KnownAnswers {
  import opened Prelude
  import opened BitIO
  import opened HuffmanTree
  import opened HuffmanReconst
  import opened HuffmanCode
  import opened StartCode
  import opened PositionCode
  import opened Lzss
  import opened Window
  import opened LzssEncoder
  import opened Crc16
  import Lzhuf

  // ---------------------------------------------------------------- the checksum

  lemma OneBit(sm: word, s: bits, b: bit)
    ensures Divide(sm, s + [b]) == Step(Divide(sm, s), b)
  {
    hide Step;
    assert (s + [b])[..|s|] == s;
  }

  /** Eight steps, one bit after the other. */
  lemma EightBits(sm: word, a: bit, b: bit, c: bit, d: bit, e: bit, f: bit, g: bit, h: bit)
    ensures Divide(sm, [a, b, c, d, e, f, g, h]) ==
      Step(Step(Step(Step(Step(Step(Step(Step(sm, a), b), c), d), e), f), g), h)
  {
    hide Step, Divide;
    NoBit(sm);
    OneBit(sm, [], a);
    OneBit(sm, [a], b);
    OneBit(sm, [a, b], c);
    OneBit(sm, [a, b, c], d);
    OneBit(sm, [a, b, c, d], e);
    OneBit(sm, [a, b, c, d, e], f);
    OneBit(sm, [a, b, c, d, e, f], g);
    OneBit(sm, [a, b, c, d, e, f, g], h);
    assert [] + [a] == [a] && [a] + [b] == [a, b] && [a, b] + [c] == [a, b, c] && [a, b, c] + [d] == [a, b, c, d];
    assert [a, b, c, d] + [e] == [a, b, c, d, e] && [a, b, c, d, e] + [f] == [a, b, c, d, e, f];
    assert [a, b, c, d, e, f] + [g] == [a, b, c, d, e, f, g];
    assert [a, b, c, d, e, f, g] + [h] == [a, b, c, d, e, f, g, h];
  }

  lemma NoBit(sm: word)
    ensures Divide(sm, []) == sm
  {
  }

  /** The bits of the bytes used here, the most significant first. */
  lemma BitsOf()
    ensures ByteBits(0) == [0, 0, 0, 0, 0, 0, 0, 0] && ByteBits(1) == [0, 0, 0, 0, 0, 0, 0, 1]
    ensures ByteBits(0xF6) == [1, 1, 1, 1, 0, 1, 1, 0] && ByteBits(0x80) == [1, 0, 0, 0, 0, 0, 0, 0]
  {
  }

  /** The first table rows after zero: one step of the polynomial x^16 + x^12 + x^5 + 1, and 16 and 255 of them. */
  lemma TableRows()
    ensures Entry(1) == 0x1021 && Entry(16) == 0x1231 && Entry(255) == 0x1EF0
  {
    hide Step;
    EightZeros(1 << 8);
    EightZeros(16 << 8);
    EightZeros(255 << 8);
    StepsAre();
  }

  lemma EightZeros(sm: word)
    ensures Divide(sm, ZeroBits(8)) == Step(Step(Step(Step(Step(Step(Step(Step(sm, 0), 0), 0), 0), 0), 0), 0), 0)
  {
    hide Step, Divide;
    assert ZeroBits(8) == [0, 0, 0, 0, 0, 0, 0, 0];
    EightBits(sm, 0, 0, 0, 0, 0, 0, 0, 0);
  }

  lemma StepsAre()
    ensures Step(0x0100, 0) == 0x0200 && Step(0x01EF, 0) == 0x03DE && Step(0x0200, 0) == 0x0400
    ensures Step(0x03DE, 0) == 0x07BC && Step(0x0400, 0) == 0x0800 && Step(0x07BC, 0) == 0x0F78
    ensures Step(0x0800, 0) == 0x1000 && Step(0x0F78, 0) == 0x1EF0 && Step(0x1000, 0) == 0x2000
    ensures Step(0x1021, 0) == 0x2042 && Step(0x2000, 0) == 0x4000 && Step(0x2042, 0) == 0x4084
    ensures Step(0x4000, 0) == 0x8000 && Step(0x4084, 0) == 0x8108 && Step(0x8000, 0) == 0x1021
    ensures Step(0x8108, 0) == 0x1231 && Step(0x88E7, 0) == 0x01EF && Step(0xCC63, 0) == 0x88E7
    ensures Step(0xEE21, 0) == 0xCC63 && Step(0xFF00, 0) == 0xEE21
  {
  }

  /** The CRC of the length 1 and the two bytes F6 80. */
  lemma LetterCrc()
    ensures Remainder([1, 0, 0, 0, 0xF6, 0x80]) == 0x6D4F
  {
    hide Divide, Unpack, ByteBits;
    var d := [1, 0, 0, 0, 0xF6, 0x80, 0, 0];
    assert d == [1, 0, 0, 0, 0xF6, 0x80] + [0, 0];
    TwoZeroBytes([1, 0, 0, 0, 0xF6, 0x80]);
    DivideNothing();
    assert d[..0] == [];
    OneByte(d, 0, 0x0000);
    Byte0();
    OneByte(d, 1, 0x0001);
    Byte1();
    OneByte(d, 2, 0x0100);
    Byte2();
    OneByte(d, 3, 0x1021);
    Byte3();
    OneByte(d, 4, 0x3331);
    Byte4();
    OneByte(d, 5, 0x37C6);
    Byte5();
    OneByte(d, 6, 0x8034);
    Byte6();
    OneByte(d, 7, 0xA588);
    Byte7();
    assert d[..8] == d;
  }

  lemma OneByte(d: bytes, k: nat, sm: word)
    requires k < |d| && Divide(0, Unpack(d[..k])) == sm
    ensures Divide(0, Unpack(d[..k + 1])) == Divide(sm, ByteBits(d[k]))
  {
    assert d[..k + 1] == d[..k] + [d[k]];
    DivideByte(d[..k], d[k]);
  }

  lemma Byte0()
    ensures Divide(0x0000, ByteBits(0x01)) == 0x0001
  {
    hide Step, Divide, ByteBits;
    BitsOf();
    EightBits(0x0000, 0, 0, 0, 0, 0, 0, 0, 1);
    Steps0();
  }

  lemma Steps0()
    ensures Step(0x0000, 0) == 0x0000 && Step(0x0000, 0) == 0x0000 && Step(0x0000, 0) == 0x0000
    ensures Step(0x0000, 0) == 0x0000 && Step(0x0000, 0) == 0x0000 && Step(0x0000, 0) == 0x0000
    ensures Step(0x0000, 0) == 0x0000 && Step(0x0000, 1) == 0x0001
  {
  }

  lemma Byte1()
    ensures Divide(0x0001, ByteBits(0x00)) == 0x0100
  {
    hide Step, Divide, ByteBits;
    BitsOf();
    EightBits(0x0001, 0, 0, 0, 0, 0, 0, 0, 0);
    Steps1();
  }

  lemma Steps1()
    ensures Step(0x0001, 0) == 0x0002 && Step(0x0002, 0) == 0x0004 && Step(0x0004, 0) == 0x0008
    ensures Step(0x0008, 0) == 0x0010 && Step(0x0010, 0) == 0x0020 && Step(0x0020, 0) == 0x0040
    ensures Step(0x0040, 0) == 0x0080 && Step(0x0080, 0) == 0x0100
  {
  }

  lemma Byte2()
    ensures Divide(0x0100, ByteBits(0x00)) == 0x1021
  {
    hide Step, Divide, ByteBits;
    BitsOf();
    EightBits(0x0100, 0, 0, 0, 0, 0, 0, 0, 0);
    Steps2();
  }

  lemma Steps2()
    ensures Step(0x0100, 0) == 0x0200 && Step(0x0200, 0) == 0x0400 && Step(0x0400, 0) == 0x0800
    ensures Step(0x0800, 0) == 0x1000 && Step(0x1000, 0) == 0x2000 && Step(0x2000, 0) == 0x4000
    ensures Step(0x4000, 0) == 0x8000 && Step(0x8000, 0) == 0x1021
  {
  }

  lemma Byte3()
    ensures Divide(0x1021, ByteBits(0x00)) == 0x3331
  {
    hide Step, Divide, ByteBits;
    BitsOf();
    EightBits(0x1021, 0, 0, 0, 0, 0, 0, 0, 0);
    Steps3();
  }

  lemma Steps3()
    ensures Step(0x1021, 0) == 0x2042 && Step(0x2042, 0) == 0x4084 && Step(0x4084, 0) == 0x8108
    ensures Step(0x8108, 0) == 0x1231 && Step(0x1231, 0) == 0x2462 && Step(0x2462, 0) == 0x48C4
    ensures Step(0x48C4, 0) == 0x9188 && Step(0x9188, 0) == 0x3331
  {
  }

  lemma Byte4()
    ensures Divide(0x3331, ByteBits(0xF6)) == 0x37C6
  {
    hide Step, Divide, ByteBits;
    BitsOf();
    EightBits(0x3331, 1, 1, 1, 1, 0, 1, 1, 0);
    Steps4();
  }

  lemma Steps4()
    ensures Step(0x3331, 1) == 0x6663 && Step(0x6663, 1) == 0xCCC7 && Step(0xCCC7, 1) == 0x89AE
    ensures Step(0x89AE, 1) == 0x037C && Step(0x037C, 0) == 0x06F8 && Step(0x06F8, 1) == 0x0DF1
    ensures Step(0x0DF1, 1) == 0x1BE3 && Step(0x1BE3, 0) == 0x37C6
  {
  }

  lemma Byte5()
    ensures Divide(0x37C6, ByteBits(0x80)) == 0x8034
  {
    hide Step, Divide, ByteBits;
    BitsOf();
    EightBits(0x37C6, 1, 0, 0, 0, 0, 0, 0, 0);
    Steps5();
  }

  lemma Steps5()
    ensures Step(0x37C6, 1) == 0x6F8D && Step(0x6F8D, 0) == 0xDF1A && Step(0xDF1A, 0) == 0xAE15
    ensures Step(0xAE15, 0) == 0x4C0B && Step(0x4C0B, 0) == 0x9816 && Step(0x9816, 0) == 0x200D
    ensures Step(0x200D, 0) == 0x401A && Step(0x401A, 0) == 0x8034
  {
  }

  lemma Byte6()
    ensures Divide(0x8034, ByteBits(0x00)) == 0xA588
  {
    hide Step, Divide, ByteBits;
    BitsOf();
    EightBits(0x8034, 0, 0, 0, 0, 0, 0, 0, 0);
    Steps6();
  }

  lemma Steps6()
    ensures Step(0x8034, 0) == 0x1049 && Step(0x1049, 0) == 0x2092 && Step(0x2092, 0) == 0x4124
    ensures Step(0x4124, 0) == 0x8248 && Step(0x8248, 0) == 0x14B1 && Step(0x14B1, 0) == 0x2962
    ensures Step(0x2962, 0) == 0x52C4 && Step(0x52C4, 0) == 0xA588
  {
  }

  lemma Byte7()
    ensures Divide(0xA588, ByteBits(0x00)) == 0x6D4F
  {
    hide Step, Divide, ByteBits;
    BitsOf();
    EightBits(0xA588, 0, 0, 0, 0, 0, 0, 0, 0);
    Steps7();
  }

  lemma Steps7()
    ensures Step(0xA588, 0) == 0x5B31 && Step(0x5B31, 0) == 0xB662 && Step(0xB662, 0) == 0x7CE5
    ensures Step(0x7CE5, 0) == 0xF9CA && Step(0xF9CA, 0) == 0xE3B5 && Step(0xE3B5, 0) == 0xD74B
    ensures Step(0xD74B, 0) == 0xBEB7 && Step(0xBEB7, 0) == 0x6D4F
  {
  }

  // ---------------------------------------------------------------- one letter

  lemma LetterTokens(toks: seq<Token>)
    requires Expand(FirstWindow(), toks) == [97]
    ensures toks == [Literal(97)]
  {
    hide FirstWindow;
    var x := ExpandToken(FirstWindow(), toks[0]);
    assert |toks| == 1 && |toks[1..]| == 0;
    assert Expand(FirstWindow() + x, toks[1..]) == [];
    assert x == [97];
    assert toks[0] == Literal(97);
  }

  lemma LetterCode()
    ensures CodeFor(StartTree(), 97) == [1, 1, 1, 1, 0, 1, 1, 0, 1]
  {
    hide StartTree, Code, Pow2, Valid;
    Powers();
    FirstCode(97, 9);
    StartValid(0);
    var code := Code(StartTree(), 97);
    assert code[0] == 1 && code[1] == 1 && code[2] == 1 && code[3] == 1 && code[4] == 0;
    assert code[5] == 1 && code[6] == 1 && code[7] == 0 && code[8] == 1;
  }

  lemma Powers()
    ensures Pow2(0) == 1 && Pow2(1) == 2 && Pow2(2) == 4 && Pow2(3) == 8 && Pow2(4) == 16 && Pow2(5) == 32
    ensures Pow2(6) == 64 && Pow2(7) == 128 && Pow2(8) == 256 && Pow2(9) == 512 && Pow2(10) == 1024
  {
  }

  /** The body that the encoder writes for the single letter "a". */
  lemma LetterBody(body: bytes)
    requires BodyOf(body, [Literal(97)])
    ensures body == [0xF6, 0x80]
  {
    hide StartTree, CodeFor, Unpack, ByteBits, Coded;
    LetterCode();
    OneToken(StartTree(), Literal(97));
    var pad: nat :| pad < 8 && Unpack(body) == CodeFor(StartTree(), 97) + ZeroBits(pad);
    assert pad == 7 && ZeroBits(7) == [0, 0, 0, 0, 0, 0, 0];
    LetterBits();
    UnpackInjective(body, [0xF6, 0x80]);
  }

  lemma LetterBits()
    ensures Unpack([0xF6, 0x80]) == [1, 1, 1, 1, 0, 1, 1, 0, 1, 0, 0, 0, 0, 0, 0, 0]
  {
    hide Unpack, ByteBits;
    BitsOf();
    NoBits();
    UnpackAppend([], 0xF6);
    UnpackAppend([0xF6], 0x80);
    assert [] + [0xF6] == [0xF6] && [0xF6] + [0x80] == [0xF6, 0x80];
  }

  lemma NoBits()
    ensures Unpack([]) == []
  {
  }

  lemma OneToken(t: Tree, k: Token)
    requires k.Literal? && |CodeFor(t, k.c)| <= 16
    ensures Coded(t, [k]) == Some(CodeFor(t, k.c))
  {
    hide CodeFor, Next;
    assert [k][1..] == [];
    assert Coded(Next(t, Symbol(k)), []) == Some([]);
    assert Coded(t, [k]) == Some(TokenBits(t, k) + []);
    assert TokenBits(t, k) + [] == CodeFor(t, k.c);
  }

  /** `compress` of "a", to the last bit; and `decompress` gives it back. */
  method CompressLetter() returns (r: Lzhuf.Result)
    ensures r == Lzhuf.Ok([0x4F, 0x6D, 0x01, 0x00, 0x00, 0x00, 0xF6, 0x80])
    ensures Lzhuf.Decompressed(r.data) == Lzhuf.Ok([97])
  {
    hide Lzhuf.Decompressed, Expand, FirstWindow, BodyOf, Remainder;
    ghost var toks;
    r, toks := Lzhuf.Compress([97]);
    LetterTokens(toks);
    ghost var body: bytes :| BodyOf(body, toks) && r.data == Lzhuf.Framed(1, body);
    LetterBody(body);
    LetterCrc();
    assert Lzhuf.Le32(1) + [0xF6, 0x80] == [1, 0, 0, 0, 0xF6, 0x80];
    assert Lzhuf.Le16(0x6D4F) == [0x4F, 0x6D];
  }

  /** The text of three spaces is found before itself: it becomes one copy, of symbol 256. */
  lemma SpacesTokens(toks: seq<Token>)
    requires Expand(FirstWindow(), toks) == [0x20, 0x20, 0x20] && Greedy(FirstWindow() + [0x20, 0x20, 0x20], toks)
    ensures |toks| == 1 && toks[0].Copy? && toks[0].len == 3
  {
    hide FirstWindow, ExpandToken, Greedy, GreedyAt;
    assert toks != [];
    var s := FirstWindow() + [0x20, 0x20, 0x20];
    FirstGreedy(s, toks);
    FirstCopies(s, toks[0]);
    CopyAll(toks);
  }

  lemma FirstGreedy(s: bytes, toks: seq<Token>)
    requires Greedy(s, toks) && toks != []
    ensures GreedyAt(s, 2048, toks[0])
  {
    hide GreedyAt, FirstWindow;
    assert toks[..0] == [];
    assert GreedyAt(s, 2048 + |Expand(FirstWindow(), toks[..0])|, toks[0]);
  }

  lemma FirstCopies(s: bytes, k: Token)
    requires s == FirstWindow() + [0x20, 0x20, 0x20] && GreedyAt(s, 2048, k)
    ensures k.Copy?
  {
    hide FirstWindow, InReach, Repeats;
    SpacesRepeat();
    SpacesInReach(s);
    assert 2048 + 3 <= Seen(s, 2048);
  }

  lemma CopyAll(toks: seq<Token>)
    requires Expand(FirstWindow(), toks) == [0x20, 0x20, 0x20] && toks != [] && toks[0].Copy?
    ensures |toks| == 1 && toks[0].len == 3
  {
    hide FirstWindow;
    var x := ExpandToken(FirstWindow(), toks[0]);
    assert |x| >= 3 && |x| + |Expand(FirstWindow() + x, toks[1..])| == 3;
    assert |Expand(FirstWindow() + x, toks[1..])| >= |toks[1..]|;
  }

  lemma SpacesRepeat()
    ensures Repeats(FirstWindow() + [0x20, 0x20, 0x20], 2048, 1, 3)
  {
  }

  lemma SpacesInReach(s: bytes)
    requires s == FirstWindow() + [0x20, 0x20, 0x20]
    ensures InReach(s, 2048, 1)
  {
    assert Leading(s, 2051) == 0;
    assert Leading(s, 2050) == 1;
    assert Leading(s, 2049) == 2;
    assert Leading(s, 2048) == 3;
  }

  lemma SpacesCode()
    ensures CodeFor(StartTree(), 256) == [1, 0, 0, 0, 1, 1, 0, 0]
  {
    hide StartTree, Code, Pow2, Valid;
    Powers();
    FirstCode(256, 8);
    StartValid(0);
    var code := Code(StartTree(), 256);
    assert code[0] == 1 && code[1] == 0 && code[2] == 0 && code[3] == 0;
    assert code[4] == 1 && code[5] == 1 && code[6] == 0 && code[7] == 0;
  }

  lemma SpacesBody(body: bytes, toks: seq<Token>)
    requires BodyOf(body, toks) && |toks| == 1 && toks[0].Copy? && toks[0].len == 3
    ensures body != [] && body[0] == 0x8C
  {
    hide StartTree, CodeFor, Unpack, ByteBits, Coded, PositionBits;
    SpacesCode();
    OneCopy(StartTree(), toks);
    var code := CodeFor(StartTree(), 256) + PositionBits(toks[0].pos);
    var pad: nat :| pad < 8 && Unpack(body) == code + ZeroBits(pad);
    FirstByte(body);
    assert Unpack(body)[..8] == CodeFor(StartTree(), 256);
    SpaceBits();
    FirstByte([0x8C]);
    UnpackInjective([body[0]], [0x8C]);
  }

  lemma SpaceBits()
    ensures Unpack([0x8C]) == [1, 0, 0, 0, 1, 1, 0, 0]
  {
    assert ByteBits(0x8C) == [1, 0, 0, 0, 1, 1, 0, 0];
    NoBits();
    UnpackAppend([], 0x8C);
    assert [] + [0x8C] == [0x8C];
  }

  lemma {:induction false} FirstByte(body: bytes)
    requires body != []
    ensures |Unpack(body)| >= 8 && Unpack(body)[..8] == Unpack([body[0]])
    decreases |body|
  {
    hide ByteBits;
    if |body| > 1 {
      var n := |body| - 1;
      assert body[..n] + [body[n]] == body;
      FirstByte(body[..n]);
    } else {
      assert body == [body[0]];
    }
  }

  lemma OneCopy(t: Tree, toks: seq<Token>)
    requires |toks| == 1 && toks[0].Copy? && toks[0].len == 3 && |CodeFor(t, 256)| <= 16
    ensures Coded(t, toks) == Some(CodeFor(t, 256) + PositionBits(toks[0].pos))
  {
    hide CodeFor, Next, PositionBits;
    assert toks[1..] == [];
    assert Coded(Next(t, 256), []) == Some([]);
    assert Coded(t, toks) == Some(TokenBits(t, toks[0]) + []);
    assert TokenBits(t, toks[0]) + [] == CodeFor(t, 256) + PositionBits(toks[0].pos);
  }

  /** `compress` of three spaces: the body begins with the code of the symbol for a copy of three bytes. */
  method CompressSpaces() returns (r: Lzhuf.Result)
    ensures r.Ok? && |r.data| > 6 && r.data[6] == 0x8C
  {
    hide Lzhuf.Decompressed, Expand, FirstWindow, BodyOf, Remainder, Greedy, Lzhuf.Framed;
    ghost var toks;
    r, toks := Lzhuf.Compress([0x20, 0x20, 0x20]);
    SpacesTokens(toks);
    ghost var body: bytes :| BodyOf(body, toks) && r.data == Lzhuf.Framed(3, body);
    SpacesBody(body, toks);
    Lzhuf.FramedFields(3, body);
    assert r.data[6..][0] == body[0];
  }

  // ---------------------------------------------------------------- tokens

  /** Symbols up to 255 are bytes, and symbol 253 + n is a copy of n bytes, from 3 to 60: all 314 symbols are used. */
  lemma SymbolNumbers(c: symbol, pos: position)
    ensures if c < 256 then Symbol(Literal(c)) == c else
      3 <= c - 253 <= 60 && Symbol(Copy(pos, c - 253)) == c
  {
  }

  /** A copy takes its bytes, one after the other, from `pos % 2048 + 1` bytes back, those it has just made included. */
  lemma {:induction false} CopySource(hist: bytes, d: nat, n: nat, i: nat)
    requires 1 <= d <= |hist| && i < n
    ensures Repeat(hist, d, n)[i] == (hist + Repeat(hist, d, n))[|hist| + i - d]
    decreases n
  {
    var b := hist[|hist| - d];
    var rest := Repeat(hist + [b], d, n - 1);
    assert hist + Repeat(hist, d, n) == hist + [b] + rest;
    if i > 0 {
      CopySource(hist + [b], d, n - 1, i - 1);
    }
  }

  lemma CopyBytes(hist: bytes, pos: position, n: nat, i: nat)
    requires |hist| >= 2048 && 3 <= n <= 60 && i < n
    ensures var x := ExpandToken(hist, Copy(pos, n));
      |x| == n && x[i] == (hist + x)[|hist| + i - (pos % 2048 + 1)]
  {
    hide Repeat;
    CopySource(hist, pos % 2048 + 1, n, i);
  }

  /** What lies before the text: 1988 spaces, and 60 zeros before them. */
  lemma BeforeText()
    ensures |FirstWindow()| == 2048
    ensures forall i: nat | i < 2048 :: FirstWindow()[i] == if i < 60 then 0x00 else 0x20
  {
  }

  /** The code of a position as a number: the prefix, without the bits it leaves open, and the six low bits behind
      it. */
  lemma PositionNumber(pos: position)
    ensures |PositionBits(pos)| == PLen(pos / 64) + 6
    ensures Val(PositionBits(pos)) == PCode(pos / 64) / Pow2(8 - PLen(pos / 64)) * 64 + pos % 64
  {
    hide PCode, PLen, Val, TopBits, Pow2;
    PositionValue(pos);
    PrefixBits(pos / 64);
    Exact(Val(TopBits(PCode(pos / 64) * 256, PLen(pos / 64))), Gap(pos / 64));
  }

  lemma Exact(a: nat, b: nat)
    requires b > 0
    ensures a * b / b == a
  {
    assert a * b == b * a + 0;
    DivMod(2 * (a * b), 2 * b, a, 0, b);
    DivTwice(2 * (a * b), b);
  }

  /** The bits of a number, the most significant first. */
  lemma NumberOfBits(a: bit, b: bit, c: bit)
    ensures Val([a, b, c]) == 4 * a + 2 * b + c
  {
    assert [a, b, c][..2] == [a, b] && [a, b][..1] == [a] && [a][..0] == [];
    assert Val([]) == 0 && Val([a]) == a;
    assert Val([a, b]) == 2 * Val([a]) + b;
    assert Val([a, b, c]) == 2 * Val([a, b]) + c;
  }

  /** Every weight is halved, rounding up, when 32768 symbols have been counted, and at no other time. */
  lemma HalvedAt(t: Tree, c: symbol, s: symbol)
    requires Valid(t)
    ensures |t.freq| == 628 && t.freq[626] <= 32768
    ensures Weight(HuffmanCode.Update(t, c), s) ==
      (if t.freq[626] == 32768 then (Weight(t, s) + 1) / 2 else Weight(t, s)) + if s == c then 1 else 0
  {
    hide HuffmanCode.Update, Weight, SonsOk, ParentsOfSons, SonsOfParents, Ordered;
    UpdateCounts(t, c, s);
  }

  // ---------------------------------------------------------------- the stream

  /** The fields of the stream byte by byte: the CRC of all that follows it, then the length, each with its low byte
      first, then the body. */
  lemma FramedBytes(len: nat, body: bytes)
    requires len < 0x1_0000_0000
    ensures var blob := Lzhuf.Framed(len, body);
      && |blob| == 6 + |body| && blob[6..] == body
      && blob[0] as int + 256 * blob[1] as int == Remainder(blob[2..]) as int
      && blob[2] == len % 256 && blob[3] == len / 256 % 256
      && blob[4] == len / 65536 % 256 && blob[5] == len / 16777216
  {
    hide Remainder;
    Lzhuf.FramedFields(len, body);
    var blob := Lzhuf.Framed(len, body);
    assert blob[2..][0] == blob[2] && blob[2..][1] == blob[3] && blob[2..][2] == blob[4] && blob[2..][3] == blob[5];
  }
}
