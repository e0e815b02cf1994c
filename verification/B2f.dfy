/** B2 binary transfer: `frame_binary` and `unframe_binary` of b2f.py, and the checksum they and the proposals use. */
module B2f {
  import opened Prelude
  import opened Blocks

  const SOH: byte := 0x01
  const STX: byte := 0x02
  const EOT: byte := 0x04
  const CHUNK: nat := 250

  /** Why `unframe_binary` raises: an unknown control byte, or an index past the end. */
  datatype Error = BadControl(c: byte, at: nat) | IndexError

  datatype Result = Ok(data: bytes) | Err(error: Error)

  // ---------------------------------------------------------------- checksum

  function Total(s: bytes): nat {
    if |s| == 0 then 0 else Total(s[..|s| - 1]) + s[|s| - 1]
  }

  /** `proposal_checksum`, and the byte after EOT. Python's `&` is that of two's complement. */
  function Checksum(s: bytes): byte {
    (0 - Total(s)) % 0x100
  }

  lemma {:induction false} TotalConcat(a: bytes, b: bytes)
    ensures Total(a + b) == Total(a) + Total(b)
    decreases |b|
  {
    if |b| == 0 {
      assert a + b == a;
    } else {
      assert (a + b)[..|a + b| - 1] == a + b[..|b| - 1];
      TotalConcat(a, b[..|b| - 1]);
    }
  }

  /** The bytes with their checksum add up to zero, and no other last byte does that. */
  lemma ChecksumBalances(s: bytes, c: byte)
    ensures Total(s + [c]) % 0x100 == 0 <==> c == Checksum(s)
  {
    assert (s + [c])[..|s|] == s;
    Balance(Total(s), c);
  }

  lemma Balance(t: nat, c: byte)
    ensures (t + c) % 0x100 == 0 <==> c == (0 - t) % 0x100
  {
    var q, r := t / 0x100, t % 0x100;
    assert t == 0x100 * q + r;
    assert (0 - t) % 0x100 == if r == 0 then 0 else 0x100 - r;
    assert (t + c) % 0x100 == if r + c < 0x100 then r + c else r + c - 0x100;
  }

  /** A change of one byte changes the checksum. */
  lemma ChecksumNotices(a: bytes, x: byte, y: byte, b: bytes)
    requires x != y
    ensures Checksum(a + [x] + b) != Checksum(a + [y] + b)
  {
    TotalConcat(a + [x], b);
    TotalConcat(a + [y], b);
    assert (a + [x])[..|a|] == a == (a + [y])[..|a|];
    Balance(Total(a + [x] + b), Checksum(a + [x] + b));
    Balance(Total(a + [y] + b), Checksum(a + [y] + b));
  }

  // ---------------------------------------------------------------- framing

  function Ascii(c: char): byte {
    if c < 128 as char then c as int else '?' as int
  }

  /** `(title or "No subject").encode("ascii", "replace")[:80]` */
  function TitleBytes(title: string): (r: bytes)
    ensures 0 < |r| <= 80
  {
    var t := if title == "" then "No subject" else title;
    var s := t[..Min(80, |t|)];
    seq(|s|, i requires 0 <= i < |s| => Ascii(s[i]))
  }

  /** The title and the offset, each ended by a zero byte. */
  function HeaderText(title: string): bytes {
    TitleBytes(title) + [0] + ['0' as int] + [0]
  }

  /** The part of a transfer between control bytes. */
  datatype Block = Header(text: bytes) | Data(text: bytes)

  predicate Fits(b: Block) {
    |b.text| < 0x100
  }

  function Encoded(b: Block): bytes {
    [if b.Header? then SOH else STX, |b.text| % 0x100] + b.text
  }

  /** Blocks in the order of transmission. */
  function Transfer(blocks: seq<Block>): bytes {
    if |blocks| == 0 then [] else Encoded(blocks[0]) + Transfer(blocks[1..])
  }

  /** What a block adds to the payload. */
  function Adds(b: Block): bytes {
    if b.Data? then b.text else []
  }

  function Payload(blocks: seq<Block>): bytes {
    if |blocks| == 0 then [] else Adds(blocks[0]) + Payload(blocks[1..])
  }

  function DataBlocks(chunks: seq<bytes>): (r: seq<Block>)
    ensures |r| == |chunks|
    ensures forall i | 0 <= i < |r| :: r[i] == Data(chunks[i])
  {
    seq(|chunks|, i requires 0 <= i < |chunks| => Data(chunks[i]))
  }

  /** The blocks of one message: the header, then the body in chunks. */
  function MessageBlocks(title: string, body: bytes): seq<Block> {
    [Header(HeaderText(title))] + DataBlocks(BlocksOf(body, CHUNK))
  }

  /** What `frame_binary` puts out. */
  function Framed(title: string, body: bytes): bytes {
    Transfer(MessageBlocks(title, body)) + [EOT, Checksum(body)]
  }

  /** `unframe_binary` from index `i` on, with `out` collected so far. A slice past the end is cut off, as in Python. */
  function UnframedFrom(framed: bytes, i: nat, out: bytes): Result
    decreases |framed| - i
  {
    if i >= |framed| then Ok(out)
    else if framed[i] == EOT then Ok(out)
    else if framed[i] != SOH && framed[i] != STX then Err(BadControl(framed[i], i))
    else if i + 1 >= |framed| then Err(IndexError)
    else
      var end := i + 2 + framed[i + 1];
      UnframedFrom(framed, end, if framed[i] == STX then out + framed[i + 2..Min(end, |framed|)] else out)
  }

  function Unframed(framed: bytes): Result {
    UnframedFrom(framed, 0, [])
  }

  // ---------------------------------------------------------------- the transfer byte by byte

  /** How much of the title is sent. */
  function TitleLength(title: string): nat {
    if title == "" then 10 else Min(80, |title|)
  }

  /** The title in ASCII, with question marks for the rest, or "No subject". */
  predicate TitleIs(s: bytes, title: string) {
    if title == "" then s == [78, 111, 32, 115, 117, 98, 106, 101, 99, 116] else
      && |s| == TitleLength(title)
      && forall i: nat | i < |s| :: s[i] == if title[i] < 128 as char then title[i] as int else 63
  }

  /** The header: 01, its length, the title, and the offset 0 between two zero bytes. */
  predicate HeaderIs(t: bytes, title: string) {
    var n := TitleLength(title);
    && |t| >= n + 5 && t[0] == 0x01 && t[1] == n + 3
    && TitleIs(t[2..n + 2], title)
    && t[n + 2] == 0 && t[n + 3] == 48 && t[n + 4] == 0
  }

  /** Chunk `j` of the body: 02, its length, and its bytes; behind the last one nothing. */
  predicate ChunkIs(t: bytes, body: bytes, j: nat) {
    if 250 * j >= |body| then body == [] ==> t == [] else
      var n := Min(250, |body| - 250 * j);
      && (if n < |body| - 250 * j then |t| > 252 * j + n + 2 else |t| == 252 * j + n + 2)
      && t[252 * j] == 0x02 && t[252 * j + 1] == n
      && t[252 * j + 2..252 * j + 2 + n] == body[250 * j..250 * j + n]
  }

  ghost predicate ChunksAre(t: bytes, body: bytes) {
    forall j: nat :: ChunkIs(t, body, j)
  }

  lemma TitleBytesAre(title: string)
    ensures TitleIs(TitleBytes(title), title) && |TitleBytes(title)| == TitleLength(title)
  {
    if title == "" {
      var t, r := "No subject", TitleBytes("");
      assert t[..10] == t;
      forall i: nat | i < 10
        ensures r[i] == Ascii(t[i])
      {
      }
      assert r[0] == 78 && r[1] == 111 && r[2] == 32 && r[3] == 115 && r[4] == 117;
      assert r[5] == 98 && r[6] == 106 && r[7] == 101 && r[8] == 99 && r[9] == 116;
    } else {
      forall i: nat | i < TitleLength(title)
        ensures TitleBytes(title)[i] == Ascii(title[i])
      {
      }
    }
  }

  lemma HeaderBytes(title: string)
    ensures var h := Encoded(Header(HeaderText(title))); HeaderIs(h, title) && |h| == TitleLength(title) + 5
  {
    hide TitleBytes, TitleIs;
    TitleBytesAre(title);
    HeaderEncoded(title);
    var h := Encoded(Header(HeaderText(title)));
    assert h[2..TitleLength(title) + 2] == TitleBytes(title);
  }

  lemma {:induction false} ChunkBytes(body: bytes, j: nat)
    ensures ChunkIs(Transfer(DataBlocks(BlocksOf(body, 250))), body, j)
    decreases j
  {
    hide ChunkIs;
    if 250 * j < |body| {
      var n := Min(250, |body|);
      BlocksUnfold(body);
      TransferUnfold(body[..n], BlocksOf(body[n..], 250));
      if j > 0 {
        ChunkBytes(body[n..], j - 1);
        ChunkLater(Transfer(DataBlocks(BlocksOf(body[n..], 250))), body, j);
      } else {
        ChunkFirst(Transfer(DataBlocks(BlocksOf(body[n..], 250))), body);
      }
    } else {
      NoChunk(Transfer(DataBlocks(BlocksOf(body, 250))), body, j);
    }
  }

  lemma TitleLengthIs(title: string)
    ensures |TitleBytes(title)| == TitleLength(title)
  {
  }

  lemma NoChunk(t: bytes, body: bytes, j: nat)
    requires 250 * j >= |body| && (body == [] ==> t == [])
    ensures ChunkIs(t, body, j)
  {
  }

  lemma BlocksUnfold(body: bytes)
    requires body != []
    ensures var n := Min(250, |body|); BlocksOf(body, 250) == [body[..n]] + BlocksOf(body[n..], 250)
  {
  }

  lemma TransferUnfold(chunk: bytes, rest: seq<bytes>)
    requires |chunk| <= 250
    ensures Transfer(DataBlocks([chunk] + rest)) == [0x02, |chunk|] + chunk + Transfer(DataBlocks(rest))
  {
    TransferStep([], chunk, rest);
    assert [] + Transfer(DataBlocks([chunk] + rest)) == Transfer(DataBlocks([chunk] + rest));
    assert [] + [0x02] + [|chunk|] + chunk == [0x02, |chunk|] + chunk;
  }

  lemma ChunkFirst(rest: bytes, body: bytes)
    requires body != [] && (rest == [] <==> |body| <= 250)
    ensures var n := Min(250, |body|); ChunkIs([0x02, n] + body[..n] + rest, body, 0)
  {
    var n := Min(250, |body|);
    var t := [0x02, n] + body[..n] + rest;
    assert t[2..2 + n] == body[..n];
  }

  lemma ChunkLater(rest: bytes, body: bytes, j: nat)
    requires j > 0 && 250 * j < |body| && ChunkIs(rest, body[250..], j - 1)
    ensures ChunkIs([0x02, 250] + body[..250] + rest, body, j)
  {
    var t := [0x02, 250] + body[..250] + rest;
    assert t[252..] == rest;
    var n := Min(250, |body| - 250 * j);
    var i := 252 * (j - 1);
    assert t[252 * j] == rest[i] && t[252 * j + 1] == rest[i + 1];
    assert t[252 * j + 2..252 * j + 2 + n] == rest[i + 2..i + 2 + n];
    assert body[250..][250 * (j - 1)..250 * (j - 1) + n] == body[250 * j..250 * j + n];
  }

  /** A whole transfer: the header, the chunks, and at the end 04 and the byte that makes the body and it add up to a
      multiple of 256. */
  ghost predicate TransferIs(t: bytes, title: string, body: bytes) {
    var h := TitleLength(title) + 5;
    && HeaderIs(t, title) && h <= |t| - 2 && ChunksAre(t[h..|t| - 2], body)
    && t[|t| - 2] == 0x04 && (Total(body) + t[|t| - 1]) % 256 == 0
  }

  lemma TransferBytes(title: string, body: bytes)
    ensures TransferIs(Framed(title, body), title, body)
  {
    hide ChunksAre, HeaderIs, BlocksOf, Checksum, Total, Transfer, Framed, Encoded, DataBlocks;
    var t, h := Framed(title, body), TitleLength(title) + 5;
    var head, chunks := Encoded(Header(HeaderText(title))), Transfer(DataBlocks(BlocksOf(body, 250)));
    MessageStarts(title, body);
    HeaderBytes(title);
    assert ChunksAre(chunks, body) by {
      AllChunks(body);
    }
    assert t == head + chunks + [0x04] + [Checksum(body)];
    HeaderStays(head, chunks + [0x04] + [Checksum(body)], title);
    assert head + (chunks + [0x04] + [Checksum(body)]) == t;
    assert t[h..|t| - 2] == chunks;
    LastByte(body);
  }

  lemma AllChunks(body: bytes)
    ensures ChunksAre(Transfer(DataBlocks(BlocksOf(body, 250))), body)
  {
    hide ChunkIs;
    forall j: nat
      ensures ChunkIs(Transfer(DataBlocks(BlocksOf(body, 250))), body, j)
    {
      ChunkBytes(body, j);
    }
  }

  lemma LastByte(body: bytes)
    ensures (Total(body) + Checksum(body)) % 256 == 0
  {
    hide Total;
    Balance(Total(body), Checksum(body));
  }

  lemma HeaderStays(h: bytes, rest: bytes, title: string)
    requires HeaderIs(h, title)
    ensures HeaderIs(h + rest, title)
  {
    hide TitleIs;
    var n := TitleLength(title);
    assert (h + rest)[2..n + 2] == h[2..n + 2];
  }

  method FrameBinary(title: string, compressed: bytes)
    returns (framed: bytes, checksum: byte, data_frames: nat, header_len: nat)
    ensures framed == Framed(title, compressed) && checksum == Checksum(compressed)
    ensures data_frames == |BlocksOf(compressed, CHUNK)| && header_len == TitleLength(title) + 3
    ensures TransferIs(framed, title, compressed)
  {
    hide TitleBytes, Checksum, BlocksOf, Transfer, DataBlocks, Framed, TransferIs;
    TitleLengthIs(title);
    var t, offset := TitleBytes(title), ['0' as int];
    header_len := |t| + |offset| + 2;
    framed := [SOH, header_len % 0x100] + t + [0x00] + offset + [0x00];
    ghost var head := framed;
    HeaderEncoded(title);
    MessageStarts(title, compressed);
    var i := 0;
    data_frames := 0;
    BlocksEnd(compressed, CHUNK);
    while i < |compressed|
      invariant i <= |compressed|
      invariant framed + Transfer(DataBlocks(BlocksOf(compressed[i..], CHUNK))) ==
        head + Transfer(DataBlocks(BlocksOf(compressed, CHUNK)))
      invariant data_frames + |BlocksOf(compressed[i..], CHUNK)| == |BlocksOf(compressed, CHUNK)|
    {
      var chunk := compressed[i..Min(i + CHUNK, |compressed|)];
      NextBlock(compressed, CHUNK, i);
      TransferStep(framed, chunk, BlocksOf(compressed[i + |chunk|..], CHUNK));
      framed := framed + [STX] + [|chunk| % 0x100] + chunk;
      i := i + |chunk|;
      data_frames := data_frames + 1;
    }
    checksum := Checksum(compressed);
    assert compressed[i..] == [];
    BlocksEnd(compressed[i..], CHUNK);
    NoBlocks(framed);
    framed := framed + [EOT] + [checksum];
    TransferBytes(title, compressed);
  }

  lemma TransferStep(framed: bytes, chunk: bytes, rest: seq<bytes>)
    ensures framed + Transfer(DataBlocks([chunk] + rest)) ==
      framed + [STX] + [|chunk| % 0x100] + chunk + Transfer(DataBlocks(rest))
  {
    assert DataBlocks([chunk] + rest)[1..] == DataBlocks(rest);
  }

  lemma NoBlocks(framed: bytes)
    ensures framed + Transfer(DataBlocks([])) == framed
  {
  }

  lemma HeaderEncoded(title: string)
    ensures Encoded(Header(HeaderText(title))) ==
      [SOH, (|TitleBytes(title)| + 3) % 0x100] + TitleBytes(title) + [0x00] + ['0' as int] + [0x00]
  {
  }

  lemma MessageStarts(title: string, body: bytes)
    ensures Framed(title, body) ==
      Encoded(Header(HeaderText(title))) + Transfer(DataBlocks(BlocksOf(body, CHUNK))) + [EOT] + [Checksum(body)]
  {
    hide BlocksOf, HeaderText, Checksum, Encoded;
    assert MessageBlocks(title, body)[1..] == DataBlocks(BlocksOf(body, CHUNK));
  }

  method UnframeBinary(framed: bytes) returns (r: Result)
    ensures r == Unframed(framed)
  {
    var out: bytes, i, n := [], 0, |framed|;
    while i < n
      invariant UnframedFrom(framed, i, out) == Unframed(framed)
      decreases n - i
    {
      var c := framed[i];
      i := i + 1;
      if c == SOH {
        if i >= n { return Err(IndexError); }
        var ln := framed[i];
        i := i + 1 + ln;
      } else if c == STX {
        if i >= n { return Err(IndexError); }
        var ln := framed[i];
        i := i + 1;
        out := out + framed[Min(i, n)..Min(i + ln, n)];
        i := i + ln;
      } else if c == EOT {
        i := i + 1;
        return Ok(out);
      } else {
        return Err(BadControl(c, i - 1));
      }
    }
    r := Ok(out);
  }

  // ---------------------------------------------------------------- what it recovers

  /** One block read off, from bytes that hold at least the first `k` of its bytes. */
  lemma ReadBlock(s: bytes, i: nat, b: Block, out: bytes)
    requires Fits(b) && i + |Encoded(b)| <= |s| && s[i..i + |Encoded(b)|] == Encoded(b)
    ensures UnframedFrom(s, i, out) == UnframedFrom(s, i + |Encoded(b)|, out + Adds(b))
  {
    var t := s[i..i + |Encoded(b)|];
    assert t[0] == s[i] && t[1] == s[i + 1] && t[2..] == s[i + 2..i + |Encoded(b)|];
    assert |b.text| % 0x100 == |b.text|;
    assert t[2..] == b.text;
    assert out + [] == out;
  }

  /** Any peer's blocks, of any size, ended by EOT and whatever follows: the payload comes out. */
  lemma {:induction false} Recovers(pre: bytes, blocks: seq<Block>, post: bytes, out: bytes)
    requires forall b | b in blocks :: Fits(b)
    requires post != [] && post[0] == EOT
    ensures UnframedFrom(pre + Transfer(blocks) + post, |pre|, out) == Ok(out + Payload(blocks))
    decreases |blocks|
  {
    hide Encoded, UnframedFrom, Transfer, Payload, Adds;
    PayloadSplits(blocks);
    TransferSplits(blocks);
    if |blocks| == 0 {
      AtEot(pre, post, out);
      assert pre + Transfer(blocks) == pre && out + [] == out;
    } else {
      var b, rest := blocks[0], blocks[1..];
      var whole := pre + Transfer(blocks) + post;
      assert whole == pre + Encoded(b) + (Transfer(rest) + post);
      Middle(pre, Encoded(b), Transfer(rest) + post);
      ReadBlock(whole, |pre|, b, out);
      assert whole == pre + Encoded(b) + Transfer(rest) + post;
      Recovers(pre + Encoded(b), rest, post, out + Adds(b));
      assert out + Adds(b) + Payload(rest) == out + Payload(blocks);
    }
  }

  lemma Middle(a: bytes, b: bytes, c: bytes)
    ensures (a + b + c)[|a|..|a| + |b|] == b
  {
  }

  lemma TransferSplits(blocks: seq<Block>)
    ensures Transfer(blocks) == if |blocks| == 0 then [] else Encoded(blocks[0]) + Transfer(blocks[1..])
  {
  }

  lemma AtEot(pre: bytes, post: bytes, out: bytes)
    requires post != [] && post[0] == EOT
    ensures UnframedFrom(pre + post, |pre|, out) == Ok(out)
  {
  }

  lemma {:induction false} PayloadOfData(chunks: seq<bytes>)
    ensures Payload(DataBlocks(chunks)) == Flatten(chunks)
  {
    if |chunks| > 0 {
      assert DataBlocks(chunks)[1..] == DataBlocks(chunks[1..]);
      PayloadOfData(chunks[1..]);
      assert [chunks[0]] + chunks[1..] == chunks;
      FlattenConcat([chunks[0]], chunks[1..]);
      FlattenOne(chunks[0]);
    }
  }

  lemma MessageFits(title: string, body: bytes)
    ensures forall b | b in MessageBlocks(title, body) :: Fits(b)
    ensures Payload(MessageBlocks(title, body)) == body
  {
    hide BlocksOf, TitleBytes, Flatten;
    BlocksSmall(body, CHUNK);
    assert MessageBlocks(title, body)[1..] == DataBlocks(BlocksOf(body, CHUNK));
    PayloadOfData(BlocksOf(body, CHUNK));
    FlattenBlocks(body, CHUNK);
  }

  /** `unframe_binary` undoes `frame_binary`, for every title and body. */
  lemma FramingRoundTrip(title: string, body: bytes)
    ensures Unframed(Framed(title, body)) == Ok(body)
  {
    hide UnframedFrom, Transfer, MessageBlocks, Checksum;
    MessageFits(title, body);
    Recovers([], MessageBlocks(title, body), [EOT, Checksum(body)], []);
    assert [] + Transfer(MessageBlocks(title, body)) + [EOT, Checksum(body)] == Framed(title, body);
  }

  // ---------------------------------------------------------------- what a cut leaves

  /** What comes out of the first `k` bytes of some blocks: the payload they hold, or an error right behind a control
      byte. */
  function CutResult(blocks: seq<Block>, k: nat): Result {
    if |blocks| == 0 || k == 0 then Ok([])
    else if k == 1 then Err(IndexError)
    else
      var b := blocks[0];
      if k < |Encoded(b)| then Ok(if b.Data? then b.text[..k - 2] else [])
      else Behind(Adds(b), CutResult(blocks[1..], k - |Encoded(b)|))
  }

  function Behind(out: bytes, r: Result): Result {
    if r.Ok? then Ok(out + r.data) else r
  }

  /** A transfer cut off anywhere: `unframe_binary` gives `CutResult`, since it checks neither the checksum nor the
      length of the last block. */
  lemma {:induction false} CutGivesPrefix(pre: bytes, blocks: seq<Block>, k: nat, out: bytes)
    requires forall b | b in blocks :: Fits(b)
    requires |pre| <= k <= |pre| + |Transfer(blocks)|
    ensures UnframedFrom((pre + Transfer(blocks))[..k], |pre|, out) == Behind(out, CutResult(blocks, k - |pre|))
    decreases |blocks|
  {
    hide Encoded, UnframedFrom;
    var cut := (pre + Transfer(blocks))[..k];
    if |pre| == k {
      AtEnd(cut, out);
      assert out + [] == out;
    } else {
      var b, rest := blocks[0], blocks[1..];
      assert pre + Transfer(blocks) == pre + Encoded(b) + Transfer(rest);
      CutMiddle(pre, Encoded(b), Transfer(rest), k);
      BlockLength(b);
      if |pre + Encoded(b)| <= k {
        ReadBlock(cut, |pre|, b, out);
        CutGivesPrefix(pre + Encoded(b), rest, k, out + Adds(b));
        BehindTwice(out, Adds(b), CutResult(rest, k - |pre + Encoded(b)|));
      } else {
        CutBlock(cut, |pre|, b, out);
      }
    }
  }

  lemma BlockLength(b: Block)
    ensures |Encoded(b)| == |b.text| + 2
  {
  }

  lemma BehindTwice(a: bytes, b: bytes, r: Result)
    ensures Behind(a + b, r) == Behind(a, Behind(b, r))
  {
    if r.Ok? {
      assert a + b + r.data == a + (b + r.data);
    }
  }

  /** The error comes exactly at the cuts one byte into a block, right behind its control byte; at every other cut a
      prefix of the payload is returned as if it were all. */
  lemma {:induction false} CutErrorIff(blocks: seq<Block>, k: nat)
    ensures CutResult(blocks, k).Err? <==> exists j: nat | j < |blocks| :: k == |Transfer(blocks[..j])| + 1
    ensures CutResult(blocks, k).Err? ==> CutResult(blocks, k) == Err(IndexError)
    ensures CutResult(blocks, k).Ok? ==> CutResult(blocks, k).data <= Payload(blocks)
    decreases |blocks|
  {
    hide Encoded, Payload;
    PayloadSplits(blocks);
    if |blocks| > 0 {
      var b, rest := blocks[0], blocks[1..];
      BlockLength(b);
      assert Transfer(blocks[..0]) == [];
      forall j: nat | j < |rest|
        ensures |Transfer(blocks[..j + 1])| == |Encoded(b)| + |Transfer(rest[..j])|
      {
        assert blocks[..j + 1][1..] == rest[..j];
      }
      if k >= |Encoded(b)| {
        CutErrorIff(rest, k - |Encoded(b)|);
        if j: nat :| j < |rest| && k - |Encoded(b)| == |Transfer(rest[..j])| + 1 {
          assert k == |Transfer(blocks[..j + 1])| + 1;
        }
      }
      forall j: nat | j < |blocks| && k == |Transfer(blocks[..j])| + 1
        ensures CutResult(blocks, k).Err?
      {
        if j > 0 {
          var i: nat := j - 1;
          assert blocks[..i + 1] == blocks[..j];
          assert k - |Encoded(b)| == |Transfer(rest[..i])| + 1;
        }
      }
    }
  }

  /** Every cut of a framed message. */
  lemma CutMessage(title: string, body: bytes, k: nat)
    requires k <= |Framed(title, body)|
    ensures var blocks := MessageBlocks(title, body);
      Unframed(Framed(title, body)[..k]) == if k <= |Transfer(blocks)| then CutResult(blocks, k) else Ok(body)
  {
    hide UnframedFrom, Transfer, MessageBlocks, Checksum, CutResult;
    var blocks, tail := MessageBlocks(title, body), [EOT, Checksum(body)];
    var n := |Transfer(blocks)|;
    MessageFits(title, body);
    assert [] + Transfer(blocks) == Transfer(blocks);
    if k <= n {
      CutGivesPrefix([], blocks, k, []);
      assert Framed(title, body)[..k] == Transfer(blocks)[..k];
      BehindNothing(CutResult(blocks, k));
    } else {
      assert Framed(title, body)[..k] == Transfer(blocks) + tail[..k - n];
      Recovers([], blocks, tail[..k - n], []);
      assert [] + body == body;
    }
  }

  lemma BehindNothing(r: Result)
    ensures Behind([], r) == r
  {
    if r.Ok? {
      assert [] + r.data == r.data;
    }
  }

  lemma PayloadSplits(blocks: seq<Block>)
    ensures Payload(blocks) == if |blocks| == 0 then [] else Adds(blocks[0]) + Payload(blocks[1..])
  {
  }

  /** Cut off by one payload byte, every message of at least one byte is returned one byte short, without an error. */
  lemma CutUndetected(title: string, body: bytes)
    requires body != []
    ensures var framed := Framed(title, body);
      |framed| >= 3 && Unframed(framed[..|framed| - 3]) == Ok(body[..|body| - 1])
  {
    hide UnframedFrom, Transfer, MessageBlocks, Checksum, CutResult;
    MessageFits(title, body);
    LastIsData(title, body);
    LastByteCut(MessageBlocks(title, body));
    CutMessage(title, body, |Transfer(MessageBlocks(title, body))| - 1);
  }

  lemma LastIsData(title: string, body: bytes)
    requires body != []
    ensures var blocks := MessageBlocks(title, body);
      blocks != [] && blocks[|blocks| - 1].Data? && blocks[|blocks| - 1].text != []
  {
    BlocksSmall(body, CHUNK);
    var cs := BlocksOf(body, CHUNK);
    assert cs != [];
    assert cs[|cs| - 1] in cs;
  }

  lemma {:induction false} LastByteCut(blocks: seq<Block>)
    requires blocks != [] && blocks[|blocks| - 1].Data? && blocks[|blocks| - 1].text != []
    ensures |Transfer(blocks)| > 0 && |Payload(blocks)| > 0
    ensures CutResult(blocks, |Transfer(blocks)| - 1) == Ok(Payload(blocks)[..|Payload(blocks)| - 1])
  {
    hide Encoded;
    var b, rest := blocks[0], blocks[1..];
    BlockLength(b);
    if |blocks| == 1 {
      assert Transfer(rest) == [] && Payload(rest) == [];
      assert Payload(blocks) == b.text;
    } else {
      LastByteCut(rest);
      assert Payload(blocks)[..|Payload(blocks)| - 1] == Adds(b) + Payload(rest)[..|Payload(rest)| - 1];
    }
  }

  lemma CutMiddle(a: bytes, b: bytes, c: bytes, k: nat)
    requires |a| <= k <= |a| + |b| + |c|
    ensures |a| + |b| <= k ==> (a + b + c)[..k][|a|..|a| + |b|] == b
    ensures k < |a| + |b| ==> (a + b + c)[..k][|a|..] == b[..k - |a|]
  {
  }

  lemma AtEnd(s: bytes, out: bytes)
    ensures UnframedFrom(s, |s|, out) == Ok(out)
  {
  }

  lemma CutBlock(s: bytes, i: nat, b: Block, out: bytes)
    requires Fits(b) && i < |s| < i + |Encoded(b)| && s[i..] == Encoded(b)[..|s| - i]
    ensures UnframedFrom(s, i, out) ==
      if |s| == i + 1 then Err(IndexError) else Ok(out + if b.Data? then b.text[..|s| - i - 2] else [])
  {
    var t := s[i..];
    assert t[0] == s[i];
    if i + 1 < |s| {
      assert t[1] == s[i + 1] && t[2..] == s[i + 2..] && t[2..] == b.text[..|s| - i - 2];
      assert |b.text| % 0x100 == |b.text|;
      assert out + [] == out;
    }
  }

  lemma {:induction false} BadLater(t: bytes, i: nat, out: bytes, c: byte, at: nat)
    requires UnframedFrom(t, i, out) == Err(BadControl(c, at))
    ensures at >= i
    decreases |t| - i
  {
    if i + 1 < |t| && t[i] != EOT && (t[i] == SOH || t[i] == STX) {
      var end := i + 2 + t[i + 1];
      BadLater(t, end, if t[i] == STX then out + t[i + 2..Min(end, |t|)] else out, c, at);
    }
  }

  /** A transfer is refused at its first byte exactly when that is none of 01, 02 and 04. */
  lemma FirstControl(t: bytes)
    requires t != []
    ensures Unframed(t) == Err(BadControl(t[0], 0)) <==> t[0] != 0x01 && t[0] != 0x02 && t[0] != 0x04
  {
    if (t[0] == 0x01 || t[0] == 0x02) && Unframed(t) == Err(BadControl(t[0], 0)) {
      var end: nat := 2 + t[1] as int;
      BadLater(t, end, if t[0] == 0x02 then [] + t[2..Min(end, |t|)] else [], t[0], 0);
    }
  }
}
