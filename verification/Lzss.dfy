/** What an LZHUF body means: tokens that expand against a sliding window, coded with the adaptive tree and the position
    code. The decoder is given here as a function of the bits. */
module Lzss {
  import opened Prelude
  import opened BitIO
  import opened PositionCode
  import opened HuffmanTree
  import opened HuffmanReconst
  import opened HuffmanCode

  datatype Token_ = Literal(c: byte) | Copy(pos: position, len: nat)

  /** Copies are 3 to 60 bytes long, so that every token has a symbol. */
  type Token = k: Token_ | k.Copy? ==> THRESHOLD < k.len <= F witness Literal(0)

  function Symbol(k: Token): symbol {
    match k
    case Literal(c) => c
    case Copy(_, len) => 255 - THRESHOLD + len
  }

  // ---------------------------------------------------------------- the ring

  lemma ModSub(a: int, b: int)
    ensures (a % N - b) % N == (a - b) % N && (a % N + b) % N == (a + b) % N
  {
    var q := a / N;
    assert a == N * q + a % N;
    ModShift(a % N - b, q);
    ModShift(a % N + b, q);
  }

  lemma ModShift(x: int, q: int)
    ensures (x + N * q) % N == x % N
  {
    var p, r := x / N, x % N;
    assert x + N * q == N * (p + q) + r;
  }

  lemma ModApart(a: int, b: int)
    requires 0 < b - a < N
    ensures a % N != b % N
  {
  }

  /** Where byte `i` of the history lies on the ring. */
  function Place(i: int): (p: nat)
    ensures p < N
  {
    (i - F) % N
  }

  // ---------------------------------------------------------------- expansion

  /** `n` bytes copied one by one from `d` bytes back; the copy may run into itself. */
  function Repeat(hist: bytes, d: nat, n: nat): (r: bytes)
    requires 1 <= d <= |hist|
    ensures |r| == n
    decreases n
  {
    if n == 0 then [] else
      var b := hist[|hist| - d];
      [b] + Repeat(hist + [b], d, n - 1)
  }

  /** The distance a position stands for on a ring of N bytes. */
  function Back(pos: position): (d: nat)
    ensures 1 <= d <= N
  {
    pos % N + 1
  }

  function ExpandToken(hist: bytes, k: Token): (r: bytes)
    requires |hist| >= N
    ensures |r| >= 1
  {
    match k
    case Literal(c) => [c]
    case Copy(pos, len) => Repeat(hist, Back(pos), len)
  }

  function Expand(hist: bytes, toks: seq<Token>): (r: bytes)
    requires |hist| >= N
    ensures |r| >= |toks|
    decreases |toks|
  {
    if |toks| == 0 then [] else
      var x := ExpandToken(hist, toks[0]);
      x + Expand(hist + x, toks[1..])
  }

  lemma {:induction false} ExpandSnoc(hist: bytes, toks: seq<Token>, k: Token)
    requires |hist| >= N
    ensures Expand(hist, toks + [k]) == Expand(hist, toks) + ExpandToken(hist + Expand(hist, toks), k)
    decreases |toks|
  {
    hide ExpandToken;
    if |toks| == 0 {
      assert hist + [] == hist;
      assert (toks + [k])[1..] == [];
    } else {
      var x := ExpandToken(hist, toks[0]);
      assert (toks + [k])[1..] == toks[1..] + [k];
      ExpandSnoc(hist + x, toks[1..], k);
      assert hist + x + Expand(hist + x, toks[1..]) == hist + (x + Expand(hist + x, toks[1..]));
    }
  }

  /** If a text repeats itself at distance `d`, copying from there reproduces it, overlapping or not. */
  lemma {:induction false} RepeatReproduces(s: bytes, at: nat, d: nat, n: nat)
    requires 1 <= d <= at && at + n <= |s|
    requires forall i: nat | at <= i < at + n :: s[i] == s[i - d]
    ensures Repeat(s[..at], d, n) == s[at..at + n]
    decreases n
  {
    if n > 0 {
      assert s[at] == s[at - d];
      assert s[..at] + [s[at]] == s[..at + 1];
      RepeatReproduces(s, at + 1, d, n - 1);
    }
  }

  // ---------------------------------------------------------------- coding

  ghost function TokenBits(t: Tree, k: Token): bits {
    CodeFor(t, Symbol(k)) + (if k.Copy? then PositionBits(k.pos) else [])
  }

  ghost function TreeAfter(t: Tree, toks: seq<Token>): Tree
    decreases |toks|
  {
    if |toks| == 0 then t else TreeAfter(Next(t, Symbol(toks[0])), toks[1..])
  }

  /** The bits of a token sequence, or nothing if some code on the way is too long for the encoder's 16-bit field. */
  ghost function Coded(t: Tree, toks: seq<Token>): Option<bits>
    decreases |toks|
  {
    if |toks| == 0 then Some([])
    else if |CodeFor(t, Symbol(toks[0]))| > 16 then None
    else
      match Coded(Next(t, Symbol(toks[0])), toks[1..])
      case None => None
      case Some(b) => Some(TokenBits(t, toks[0]) + b)
  }

  lemma {:induction false} CodedSnoc(t: Tree, toks: seq<Token>, k: Token)
    requires Coded(t, toks).Some?
    ensures TreeAfter(t, toks + [k]) == Next(TreeAfter(t, toks), Symbol(k))
    ensures Coded(t, toks + [k]) ==
      if |CodeFor(TreeAfter(t, toks), Symbol(k))| > 16 then None
      else Some(Coded(t, toks).value + TokenBits(TreeAfter(t, toks), k))
    decreases |toks|
  {
    hide Next, CodeFor, TokenBits, Symbol;
    if |toks| == 0 {
      assert (toks + [k])[1..] == [];
      assert toks + [k] == [k];
      assert TokenBits(t, k) + [] == [] + TokenBits(t, k);
    } else {
      assert (toks + [k])[1..] == toks[1..] + [k];
      var t' := Next(t, Symbol(toks[0]));
      CodedSnoc(t', toks[1..], k);
      var a, b, c := TokenBits(t, toks[0]), Coded(t', toks[1..]).value, TokenBits(TreeAfter(t, toks), k);
      assert a + b + c == a + (b + c);
    }
  }

  /** As long as the root weighs less than 4181, all codes fit. */
  lemma {:induction false} ShortFits(t: Tree, toks: seq<Token>)
    requires Valid(t) && Total(t) + |toks| <= 4181
    ensures Coded(t, toks).Some?
    decreases |toks|
  {
    hide Valid, Next, CodeFor, Symbol, Total;
    if |toks| > 0 {
      NextValid(t, Symbol(toks[0]));
      ShortFits(Next(t, Symbol(toks[0])), toks[1..]);
    }
  }

  // ---------------------------------------------------------------- decoding

  /** One round of `_lzss_decode` at bit `n` of the stream, with `todo` bytes still to come: the bytes it produces, the
      symbol it counts and where it stops reading. */
  ghost function Round(t: Tree, s: bits, n: nat, hist: bytes, todo: nat): (r: (bytes, symbol, nat))
    requires |hist| >= N && todo > 0
    ensures 1 <= |r.0| <= todo
  {
    var (c, m) := Read(t, s, n);
    if c < 256 then ([c], c, m)
    else
      var (pos, m') := ReadPosition(s, m);
      var len := c - 255 + THRESHOLD;
      (Repeat(hist, Back(pos), if len < todo then len else todo), c, m')
  }

  /** `_lzss_decode` from bit `n` of the stream on: any bits decode to `todo` bytes. */
  ghost function Decoded(t: Tree, s: bits, n: nat, hist: bytes, todo: nat): (r: bytes)
    requires |hist| >= N
    ensures |r| == todo
    decreases todo
  {
    if todo == 0 then [] else
      var (x, c, m) := Round(t, s, n, hist, todo);
      x + Decoded(Next(t, c), s, m, hist + x, todo - |x|)
  }

  /** Where the bits of a token stand in the stream, one round of the decoder reads exactly that token. */
  lemma DecodeToken(t: Tree, s: bits, n: nat, hist: bytes, k: Token, todo: nat)
    requires Valid(t) && |hist| >= N && Holds(s, n, TokenBits(t, k))
    requires |ExpandToken(hist, k)| <= todo
    ensures var x := ExpandToken(hist, k);
      Decoded(t, s, n, hist, todo) ==
      x + Decoded(Next(t, Symbol(k)), s, n + |TokenBits(t, k)|, hist + x, todo - |x|)
  {
    hide Valid, CodeFor, Read, ReadPosition, Holds, Next, Repeat, PositionBits;
    var code := CodeFor(t, Symbol(k));
    HoldsConcat(s, n, code, if k.Copy? then PositionBits(k.pos) else []);
    Lockstep(t, s, Symbol(k), n);
    if k.Copy? {
      PositionRoundTrip(s, n + |code|, k.pos);
    }
  }

  /** Lockstep: whatever the encoder wrote, the decoder expands it to the same text, whatever follows in the stream. */
  lemma {:induction false} DecodeTokens(t: Tree, s: bits, n: nat, hist: bytes, toks: seq<Token>)
    requires Valid(t) && |hist| >= N && Coded(t, toks).Some? && Holds(s, n, Coded(t, toks).value)
    ensures Decoded(t, s, n, hist, |Expand(hist, toks)|) == Expand(hist, toks)
    decreases |toks|
  {
    hide Valid, Holds, Next, TokenBits, ExpandToken;
    if |toks| > 0 {
      var k := toks[0];
      var x, t' := ExpandToken(hist, k), Next(t, Symbol(k));
      var b := TokenBits(t, k);
      HoldsConcat(s, n, b, Coded(t', toks[1..]).value);
      NextValid(t, Symbol(k));
      hide Decoded;
      DecodeToken(t, s, n, hist, k, |Expand(hist, toks)|);
      DecodeTokens(t', s, n + |b|, hist + x, toks[1..]);
    }
  }

  // ---------------------------------------------------------------- whole bodies

  /** The window both sides start from: the ring from the write position on, that is F zero bytes and then spaces. */
  function FirstWindow(): (w: bytes)
    ensures |w| == N
  {
    seq(F, _ => 0) + seq(N - F, _ => 0x20)
  }

  /** `_lzss_decode` */
  ghost function DecodeBody(body: bytes, len: nat): (r: bytes)
    ensures |r| == len
  {
    Decoded(StartTree(), Unpack(body), 0, FirstWindow(), len)
  }

  /** `body` is what the encoder writes for the tokens `toks`: their bits, padded to whole bytes. */
  ghost predicate BodyOf(body: bytes, toks: seq<Token>) {
    var code := Coded(StartTree(), toks);
    code.Some? && exists pad: nat | pad < 8 :: Unpack(body) == code.value + ZeroBits(pad)
  }

  /** A body decodes to the expansion of its tokens. */
  lemma BodyDecodes(body: bytes, toks: seq<Token>)
    requires BodyOf(body, toks)
    ensures DecodeBody(body, |Expand(FirstWindow(), toks)|) == Expand(FirstWindow(), toks)
  {
    StartValid(0);
    hide Valid, Coded, Decoded, Expand, FirstWindow;
    DecodeTokens(StartTree(), Unpack(body), 0, FirstWindow(), toks);
  }
}
