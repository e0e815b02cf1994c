/** `_lzss_decode` with its ring buffer. */
module LzssDecoder {
  import opened Prelude
  import opened BitIO
  import opened PositionCode
  import opened HuffmanTree
  import opened HuffmanReconst
  import opened HuffmanCode
  import opened Huffman
  import opened Lzss

  /** The ring holds the last N bytes of the history. */
  predicate RingHolds(ring: seq<byte>, hist: bytes) {
    |ring| == N <= |hist| && forall i: nat | |hist| - N <= i < |hist| :: ring[Place(i)] == hist[i]
  }

  lemma RingPut(ring: seq<byte>, hist: bytes, b: byte)
    requires RingHolds(ring, hist)
    ensures RingHolds(ring[Place(|hist|) := b], hist + [b])
    ensures (Place(|hist|) + 1) % N == Place(|hist| + 1)
  {
    ModSub(|hist| - F, 1);
    forall i: nat | |hist| + 1 - N <= i < |hist|
      ensures Place(i) != Place(|hist|)
    {
      ModApart(i - F, |hist| - F);
    }
  }

  lemma RingBack(ring: seq<byte>, hist: bytes, d: nat)
    requires RingHolds(ring, hist) && 1 <= d <= N
    ensures (Place(|hist|) - d) % N == Place(|hist| - d)
    ensures ring[Place(|hist| - d)] == hist[|hist| - d]
    ensures (Place(|hist| - d) + 1) % N == Place(|hist| + 1 - d)
  {
    ModSub(|hist| - F, d);
    ModSub(|hist| - d - F, 1);
  }

  lemma RepeatStep(hist: bytes, x: bytes, d: nat, m: nat)
    requires 1 <= d <= |hist| && m > 0
    ensures var b := (hist + x)[|hist + x| - d];
      x + Repeat(hist + x, d, m) == (x + [b]) + Repeat(hist + (x + [b]), d, m - 1)
  {
    var b := (hist + x)[|hist + x| - d];
    assert hist + x + [b] == hist + (x + [b]);
    assert x + ([b] + Repeat(hist + (x + [b]), d, m - 1)) == (x + [b]) + Repeat(hist + (x + [b]), d, m - 1);
  }

  /** Copying one byte on the ring appends it to the history. */
  lemma RingStep(ring: seq<byte>, hist: bytes, x: bytes, d: nat)
    requires RingHolds(ring, hist + x) && 1 <= d <= N
    ensures var b := ring[Place(|hist + x| - d)];
      && b == (hist + x)[|hist + x| - d]
      && RingHolds(ring[Place(|hist + x|) := b], hist + (x + [b]))
      && (Place(|hist + x|) + 1) % N == Place(|hist + (x + [b])|)
      && (Place(|hist + x| - d) + 1) % N == Place(|hist + (x + [b])| - d)
  {
    var b := ring[Place(|hist + x| - d)];
    RingBack(ring, hist + x, d);
    RingPut(ring, hist + x, b);
    assert hist + x + [b] == hist + (x + [b]);
  }

  lemma RepeatNone(hist: bytes, d: nat)
    requires 1 <= d <= |hist|
    ensures forall x: bytes :: Repeat(hist + x, d, 0) == []
  {
  }

  /** The copying loop of `_lzss_decode`, which stops early when the text is complete. */
  method CopyBack(ring: array<byte>, r0: nat, pos0: nat, k: nat, todo: nat, ghost hist: bytes, ghost d: nat)
    returns (r: nat, x: bytes)
    requires RingHolds(ring[..], hist) && 1 <= d <= N && r0 == Place(|hist|) && pos0 == Place(|hist| - d)
    requires k >= 1 && todo >= 1
    modifies ring
    ensures x == Repeat(hist, d, if k < todo then k else todo)
    ensures RingHolds(ring[..], hist + x) && r == Place(|hist + x|)
  {
    hide RingHolds, Place, Repeat;
    ghost var w := if k < todo then k else todo;
    RingPositions(ring[..], hist);
    RepeatNone(hist, d);
    var pos, i := pos0, 0;
    r, x := r0, [];
    assert hist + [] == hist;
    while i < k
      invariant i == |x| <= w && (i < k ==> i < todo)
      invariant RingHolds(ring[..], hist + x) && r == Place(|hist + x|) && pos == Place(|hist + x| - d)
      invariant ring.Length == N <= |hist|
      invariant x + Repeat(hist + x, d, w - i) == Repeat(hist, d, w)
    {
      RingStep(ring[..], hist, x, d);
      RepeatStep(hist, x, d, w - i);
      var b := ring[pos];
      x := x + [b];
      ring[r] := b;
      r := (r + 1) % N;
      pos := (pos + 1) % N;
      i := i + 1;
      if |x| >= todo {
        break;
      }
    }
  }

  lemma FirstRing(ring: seq<byte>)
    requires |ring| == N
    requires forall i: nat | i < N :: ring[i] == if i < N - F then 0x20 else 0
    ensures RingHolds(ring, FirstWindow()) && Place(N) == N - F
  {
  }

  lemma ReadIsDescend(t: Tree, s: bits, n: nat, c: symbol)
    requires HuffmanTree.Valid(t)
    ensures Linked(t) && Read(t, s, n) == Descend(t, s, R, n) && Next(t, c) == HuffmanCode.Update(t, c)
  {
  }

  /** The ring is none of the tables of the tree. */
  predicate Apart(huff: Huff, ring: array<byte>) {
    ring as object != huff.freq && ring as object != huff.prnt && ring as object != huff.son
  }

  method PutByte(ring: array<byte>, r0: nat, c: byte, ghost hist: bytes) returns (r: nat)
    requires RingHolds(ring[..], hist) && r0 == Place(|hist|)
    modifies ring
    ensures RingHolds(ring[..], hist + [c]) && r == Place(|hist| + 1)
  {
    RingPut(ring[..], hist, c);
    ring[r0] := c;
    r := (r0 + 1) % N;
  }

  /** The branch of `_lzss_decode` that reads a position and copies. */
  method DecodeCopy(br: BitReader, ring: array<byte>, r0: nat, k: nat, todo: nat, ghost hist: bytes)
    returns (r: nat, x: bytes)
    requires br.Valid() && RingHolds(ring[..], hist) && r0 == Place(|hist|) && k > 0 && todo > 0
    modifies br, ring
    ensures br.Valid() && RingHolds(ring[..], hist + x) && r == Place(|hist + x|)
    ensures ghost var (pos, m) := ReadPosition(Unpack(br.data), old(br.taken));
      br.taken == m && |hist| >= N && x == Repeat(hist, Back(pos), if k < todo then k else todo)
  {
    hide RingHolds, Place, Unpack, BitReader.Valid, ReadPosition, Repeat;
    RingPositions(ring[..], hist);
    var p := DecodePosition(br);
    RingOffset(hist, r0, p);
    var pos := (r0 - p - 1) % N;
    r, x := CopyBack(ring, r0, pos, k, todo, hist, Back(p));
  }

  /** One round of the loop of `_lzss_decode`. */
  method DecodeRound(huff: Huff, br: BitReader, ring: array<byte>, r0: nat, todo: nat, ghost hist: bytes)
    returns (r: nat, x: bytes)
    requires huff.Valid() && br.Valid() && RingHolds(ring[..], hist) && r0 == Place(|hist|) && todo > 0
    requires Apart(huff, ring)
    modifies huff.freq, huff.prnt, huff.son, br, ring
    ensures huff.Valid() && br.Valid() && RingHolds(ring[..], hist + x) && r == Place(|hist + x|)
    ensures ghost var (y, c, m) := Round(old(huff.Model()), Unpack(br.data), old(br.taken), hist, todo);
      x == y && huff.Model() == Next(old(huff.Model()), c) && br.taken == m
  {
    hide Huff.Valid, Huff.Model, HuffmanTree.Valid, RingHolds, Place, Unpack, BitReader.Valid, Descend, ReadPosition;
    hide HuffmanCode.Update, Repeat, Next, Read;
    ghost var t, s, n := huff.Model(), Unpack(br.data), br.taken;
    RingPositions(ring[..], hist);
    ModelValid(huff);
    var c := huff.DecodeChar(br);
    ReadIsDescend(t, s, n, c);
    if c < 256 {
      r := PutByte(ring, r0, c, hist);
      x := [c];
    } else {
      r, x := DecodeCopy(br, ring, r0, c - 255 + THRESHOLD, todo, hist);
    }
  }

  lemma ModelValid(huff: Huff)
    requires huff.Valid()
    ensures HuffmanTree.Valid(huff.Model())
  {
  }

  lemma RingPositions(ring: seq<byte>, hist: bytes)
    requires RingHolds(ring, hist)
    ensures |ring| == N <= |hist|
  {
  }

  lemma RingOffset(hist: bytes, r: nat, p: position)
    requires r == Place(|hist|)
    ensures (r - p - 1) % N == Place(|hist| - Back(p))
  {
    ModSub(|hist| - F, p + 1);
    assert (|hist| - F - (p + 1)) % N == (|hist| - F - (p % N + 1)) % N;
  }

  lemma DecodedStep(t: Tree, s: bits, n: nat, w: bytes, out: bytes, todo: nat)
    requires |w| >= N
    ensures if todo == 0 then Decoded(t, s, n, w + out, todo) == []
      else var (x, c, m) := Round(t, s, n, w + out, todo);
        && w + out + x == w + (out + x)
        && out + Decoded(t, s, n, w + out, todo) == (out + x) + Decoded(Next(t, c), s, m, w + (out + x), todo - |x|)
  {
    hide Round, Next;
    if todo > 0 {
      var (x, c, m) := Round(t, s, n, w + out, todo);
      assert w + out + x == w + (out + x);
    }
  }

  /** `_lzss_decode`: for any input and any length it ends with exactly that many bytes. */
  method LzssDecode(data: bytes, original_len: nat) returns (out: bytes)
    ensures out == DecodeBody(data, original_len)
  {
    hide FirstWindow, Unpack, HuffmanTree.Valid, RingHolds, StartTree, BitReader.Valid, Place, Round;
    hide Huff.Valid, Huff.Model, Decoded, Next;
    var huff := new Huff();
    var br := new BitReader(data);
    var ring := new byte[N](i => if 0 <= i < N - F then 0x20 else 0);
    FirstRing(ring[..]);
    var r := N - F;
    ghost var w := FirstWindow();
    out := [];
    assert w + [] == w;
    while |out| < original_len
      invariant |out| <= original_len && huff.Valid() && br.Valid() && br.data == data && ring.Length == N
      invariant Apart(huff, ring)
      invariant fresh(huff.freq) && fresh(huff.prnt) && fresh(huff.son) && fresh(br) && fresh(ring)
      invariant RingHolds(ring[..], w + out) && r == Place(|w + out|)
      invariant out + Decoded(huff.Model(), Unpack(data), br.taken, w + out, original_len - |out|)
        == DecodeBody(data, original_len)
      decreases original_len - |out|
    {
      var x;
      DecodedStep(huff.Model(), Unpack(data), br.taken, w, out, original_len - |out|);
      r, x := DecodeRound(huff, br, ring, r, original_len - |out|, w + out);
      out := out + x;
    }
    DecodedStep(huff.Model(), Unpack(data), br.taken, w, out, 0);
  }
}
