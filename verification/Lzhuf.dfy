/** `compress` and `decompress`: the Winlink B2 stream around an LZHUF body. */
module Lzhuf {
  import opened Prelude
  import opened BitIO
  import opened Crc16
  import opened Lzss
  import opened LzssEncoder
  import opened LzssDecoder
  import HuffmanReconst
  import HuffmanCode

  /** Why `compress` or `decompress` raises. */
  datatype Error = CodeTooLong | LengthTooLong | StreamTooShort | CrcMismatch

  datatype Result = Ok(data: bytes) | Err(error: Error)

  const LIMIT: nat := 0x1_0000_0000

  /** `to_bytes(2, "little")` */
  function Le16(x: nat): bytes
    requires x < 0x1_0000
  {
    [x % 0x100, x / 0x100]
  }

  /** `to_bytes(4, "little")` */
  function Le32(x: nat): bytes
    requires x < LIMIT
  {
    [x % 0x100, x / 0x100 % 0x100, x / 0x1_0000 % 0x100, x / 0x100_0000]
  }

  /** `int.from_bytes(b, "little")` of two bytes. */
  function FromLe16(b: bytes): nat
    requires |b| == 2
  {
    b[0] as int + 0x100 * b[1] as int
  }

  function FromLe32(b: bytes): nat
    requires |b| == 4
  {
    b[0] as int + 0x100 * b[1] as int + 0x1_0000 * b[2] as int + 0x100_0000 * b[3] as int
  }

  /** What `decompress` does with any bytes. */
  ghost function Decompressed(blob: bytes): Result {
    if |blob| < 6 then Err(StreamTooShort)
    else if Remainder(blob[2..]) as int != FromLe16(blob[..2]) then Err(CrcMismatch)
    else Ok(DecodeBody(blob[6..], FromLe32(blob[2..6])))
  }

  /** The stream `compress` builds around a body. */
  function Framed(len: nat, body: bytes): bytes
    requires len < LIMIT
  {
    var rest := Le32(len) + body;
    Le16(Remainder(rest) as int) + rest
  }

  lemma FramedFields(len: nat, body: bytes)
    requires len < LIMIT
    ensures var blob := Framed(len, body);
      && |blob| == 6 + |body| && blob[2..] == Le32(len) + body && blob[6..] == body
      && FromLe16(blob[..2]) == Remainder(blob[2..]) as int && FromLe32(blob[2..6]) == len
  {
    hide Remainder, FromLe16, FromLe32, Le16, Le32;
    var blob, rest := Framed(len, body), Le32(len) + body;
    FieldLengths(Remainder(rest) as int, len);
    assert blob[..2] == Le16(Remainder(rest) as int) && blob[2..] == rest;
    assert blob[2..6] == Le32(len) && blob[6..] == body;
    Le16Back(Remainder(rest) as int);
    Le32Back(len);
  }

  lemma FieldLengths(x: nat, y: nat)
    requires x < 0x1_0000 && y < LIMIT
    ensures |Le16(x)| == 2 && |Le32(y)| == 4
  {
  }

  lemma Le16Back(x: nat)
    requires x < 0x1_0000
    ensures |Le16(x)| == 2 && FromLe16(Le16(x)) == x
  {
  }

  lemma Le32Back(x: nat)
    requires x < LIMIT
    ensures |Le32(x)| == 4 && FromLe32(Le32(x)) == x
  {
    var a := x / 0x100;
    var b := a / 0x100;
    assert x / 0x1_0000 == b && x / 0x100_0000 == b / 0x100;
  }

  /** A stream built around the code of some tokens decompresses to what the tokens expand to. */
  lemma FramedDecompresses(data: bytes, body: bytes, toks: seq<Token>)
    requires |data| < LIMIT && BodyOf(body, toks) && Expand(FirstWindow(), toks) == data
    ensures Decompressed(Framed(|data|, body)) == Ok(data)
  {
    hide Remainder, DecodeBody, BodyOf, Expand, FirstWindow, Framed, FromLe16, FromLe32;
    FramedFields(|data|, body);
    BodyDecodes(body, toks);
  }

  /** Fewer than 3868 tokens have codes that fit, so fewer than 3868 bytes do. */
  lemma ShortTexts(data: bytes, toks: seq<Token>)
    requires Expand(FirstWindow(), toks) <= data && |data| <= 3867
    ensures Coded(HuffmanReconst.StartTree(), toks).Some?
  {
    hide Coded, Expand, HuffmanReconst.StartTree;
    StartTotal();
    ShortFits(HuffmanReconst.StartTree(), toks);
  }

  lemma StartTotal()
    ensures HuffmanCode.HuffmanTree.Valid(HuffmanReconst.StartTree())
    ensures HuffmanCode.Total(HuffmanReconst.StartTree()) == 314
  {
    HuffmanReconst.StartValid(0);
  }

  /** `compress`. Whenever it returns, `decompress` gives the data back; up to 3867 bytes it always returns. It raises
      only for a token whose code does not fit into 16 bits, or for a length that does not fit into 32. */
  method Compress(data: bytes) returns (r: Result, ghost toks: seq<Token>)
    ensures r.Ok? ==> Decompressed(r.data) == Ok(data)
    ensures r.Ok? ==> exists body: bytes :: BodyOf(body, toks) && |data| < LIMIT && r.data == Framed(|data|, body)
    ensures r.Ok? ==> Expand(FirstWindow(), toks) == data
    ensures r.Err? && r.error != LengthTooLong ==>
      r.error == CodeTooLong && Coded(HuffmanReconst.StartTree(), toks).None?
    ensures r == Err(LengthTooLong) ==> |data| >= LIMIT
    ensures Expand(FirstWindow(), toks) <= data && Greedy(FirstWindow() + data, toks)
    ensures |data| <= 3867 ==> r.Ok?
  {
    hide Remainder, Expand, FirstWindow, Decompressed, BodyOf, Coded, HuffmanReconst.StartTree, Greedy;
    var body;
    body, toks := LzssEncode(data);
    if |data| <= 3867 {
      ShortTexts(data, toks);
    }
    if body.None? {
      return Err(CodeTooLong), toks;
    }
    if |data| >= LIMIT {
      return Err(LengthTooLong), toks;
    }
    var rest := Le32(|data|) + body.value;
    var sm := Crc16.Crc16(rest);
    FramedDecompresses(data, body.value, toks);
    r := Ok(Le16(sm as int) + rest);
  }

  /** `decompress` */
  method Decompress(blob: bytes) returns (r: Result)
    ensures r == Decompressed(blob)
  {
    hide Remainder, DecodeBody;
    if |blob| < 6 {
      return Err(StreamTooShort);
    }
    var stored_crc := FromLe16(blob[..2]);
    var length_bytes, body := blob[2..6], blob[6..];
    assert length_bytes + body == blob[2..];
    var sm := Crc16.Crc16(length_bytes + body);
    if sm as int != stored_crc {
      return Err(CrcMismatch);
    }
    var original_len := FromLe32(length_bytes);
    if original_len == 0 {
      return Ok([]);
    }
    var out := LzssDecode(body, original_len);
    r := Ok(out);
  }

  /** The law of the codec: what `compress` returns, `decompress` undoes. */
  method RoundTrip(data: bytes) returns (r: Result)
    ensures r == Ok(data) || r == Err(CodeTooLong) || (r == Err(LengthTooLong) && |data| >= LIMIT)
    ensures |data| <= 3867 ==> r == Ok(data)
  {
    var blob, toks := Compress(data);
    if blob.Err? {
      return blob;
    }
    r := Decompress(blob.data);
  }

  /** Any damage within 16 consecutive bits of the length and body of an accepted stream is noticed. */
  lemma BurstRejected(blob: bytes, damaged: bytes, i: nat)
    requires Decompressed(blob).Ok?
    requires |damaged| == |blob| && damaged[..2] == blob[..2] && damaged != blob
    requires AgreeOutside(Unpack(blob[2..]), Unpack(damaged[2..]), i)
    ensures Decompressed(damaged) == Err(CrcMismatch)
  {
    hide Remainder, Unpack, AgreeOutside, DecodeBody, FromLe16, FromLe32;
    var a, b := blob[2..], damaged[2..];
    assert blob == blob[..2] + a && damaged == damaged[..2] + b;
    BurstDetected(a, b, i);
    RoundTripWord(Remainder(a));
    RoundTripWord(Remainder(b));
  }
}
