/** KISS framing: `kiss_encode` and class `KissDecoder` of ax25.py. */
module Kiss {
  import opened Prelude
  import opened Blocks

  const FEND: byte := 0xC0
  const FESC: byte := 0xDB
  const TFEND: byte := 0xDC
  const TFESC: byte := 0xDD

  // ---------------------------------------------------------------- encoding

  /** `s.replace(bytes([from]), to)` */
  function Replaced(s: bytes, from: byte, to: bytes): bytes {
    if |s| == 0 then [] else (if s[0] == from then to else [s[0]]) + Replaced(s[1..], from, to)
  }

  /** `kiss_encode`: the port byte and the frame, escaped in two passes, between two FENDs. */
  function Encode(frame: bytes, port: nat): bytes {
    var data := [port % 16 * 16] + frame;
    [FEND] + Replaced(Replaced(data, FESC, [FESC, TFESC]), FEND, [FESC, TFEND]) + [FEND]
  }

  /** One byte, escaped. */
  function Escape(b: byte): bytes {
    if b == FESC then [FESC, TFESC] else if b == FEND then [FESC, TFEND] else [b]
  }

  function Escaped(s: bytes): bytes {
    if |s| == 0 then [] else Escape(s[0]) + Escaped(s[1..])
  }

  lemma {:induction false} ReplacedConcat(a: bytes, b: bytes, from: byte, to: bytes)
    ensures Replaced(a + b, from, to) == Replaced(a, from, to) + Replaced(b, from, to)
    decreases |a|
  {
    if |a| == 0 {
      assert a + b == b;
    } else {
      assert (a + b)[1..] == a[1..] + b;
      ReplacedConcat(a[1..], b, from, to);
    }
  }

  /** In this order the two passes escape each byte once: the second finds no FEND that the first has put in. */
  lemma {:induction false} TwoPasses(s: bytes)
    ensures Replaced(Replaced(s, FESC, [FESC, TFESC]), FEND, [FESC, TFEND]) == Escaped(s)
  {
    if |s| > 0 {
      TwoPasses(s[1..]);
      var head := if s[0] == FESC then [FESC, TFESC] else [s[0]];
      ReplacedConcat(head, Replaced(s[1..], FESC, [FESC, TFESC]), FEND, [FESC, TFEND]);
      PassOver(s[0]);
    }
  }

  lemma ReplacedOne(b: byte, from: byte, to: bytes)
    ensures Replaced([b], from, to) == if b == from then to else [b]
  {
    assert [b][1..] == [];
  }

  lemma PassOver(b: byte)
    ensures Replaced(if b == FESC then [FESC, TFESC] else [b], FEND, [FESC, TFEND]) == Escape(b)
  {
    var to: bytes := [FESC, TFEND];
    ReplacedOne(b, FEND, to);
    ReplacedOne(FESC, FEND, to);
    ReplacedOne(TFESC, FEND, to);
    ReplacedConcat([FESC], [TFESC], FEND, to);
    assert [FESC] + [TFESC] == [FESC, TFESC];
  }

  /** Transparency: between the two FENDs there is none. */
  lemma {:induction false} NoFendInside(s: bytes)
    ensures FEND !in Escaped(s)
  {
    if |s| > 0 {
      NoFendInside(s[1..]);
    }
  }

  // ---------------------------------------------------------------- decoding

  datatype Decoder = Decoder(buf: bytes, esc: bool)

  const IDLE: Decoder := Decoder([], false)

  /** What the bytes collected so far give at a FEND: port 0 of any type number is passed on, the type byte is not. */
  function Leftover(d: Decoder): seq<bytes> {
    if d.buf != [] && d.buf[0] % 16 == 0 then [d.buf[1..]] else []
  }

  function Unescape(b: byte): byte {
    if b == TFEND then FEND else if b == TFESC then FESC else b
  }

  function FedByte(d: Decoder, b: byte): (Decoder, seq<bytes>) {
    if b == FEND then (IDLE, Leftover(d))
    else if d.esc then (Decoder(d.buf + [Unescape(b)], false), [])
    else if b == FESC then (d.(esc := true), [])
    else (d.(buf := d.buf + [b]), [])
  }

  /** `feed`: the decoder after some bytes, and the frames they complete. */
  function Fed(d: Decoder, data: bytes): (Decoder, seq<bytes>) {
    if |data| == 0 then (d, []) else
      var (d1, out) := Fed(d, data[..|data| - 1]);
      var (d2, more) := FedByte(d1, data[|data| - 1]);
      (d2, out + more)
  }

  class KissDecoder {
    var buf: bytes
    var esc: bool

    function Model(): Decoder
      reads this
    {
      Decoder(buf, esc)
    }

    constructor ()
      ensures Model() == IDLE
    {
      buf, esc := [], false;
    }

    method Feed(data: bytes) returns (out: seq<bytes>)
      modifies this
      ensures Model() == Fed(old(Model()), data).0 && out == Fed(old(Model()), data).1
    {
      out := [];
      for i := 0 to |data|
        invariant Model() == Fed(old(Model()), data[..i]).0 && out == Fed(old(Model()), data[..i]).1
      {
        var b := data[i];
        assert data[..i + 1][..i] == data[..i];
        if b == FEND {
          if buf != [] {
            var raw := buf;
            buf := [];
            if raw[0] % 16 == 0 { out := out + [raw[1..]]; }
          }
          esc := false;
          continue;
        }
        if esc {
          buf, esc := buf + [if b == TFEND then FEND else if b == TFESC then FESC else b], false;
        } else if b == FESC {
          esc := true;
        } else {
          buf := buf + [b];
        }
      }
      assert data[..|data|] == data;
    }
  }

  // ---------------------------------------------------------------- any chunking

  /** Feeding in pieces is feeding the whole. */
  lemma {:induction false} FedConcat(d: Decoder, a: bytes, b: bytes)
    ensures Fed(d, a + b).0 == Fed(Fed(d, a).0, b).0
    ensures Fed(d, a + b).1 == Fed(d, a).1 + Fed(Fed(d, a).0, b).1
    decreases |b|
  {
    hide FedByte;
    if |b| == 0 {
      assert a + b == a;
    } else {
      var n := |b| - 1;
      assert (a + b)[..|a + b| - 1] == a + b[..n];
      FedConcat(d, a, b[..n]);
    }
  }

  /** The frames from a sequence of reads. */
  function FedAll(d: Decoder, inputs: seq<bytes>): (Decoder, seq<bytes>) {
    if |inputs| == 0 then (d, []) else
      var (d1, out) := FedAll(d, inputs[..|inputs| - 1]);
      var (d2, more) := Fed(d1, inputs[|inputs| - 1]);
      (d2, out + more)
  }

  lemma {:induction false} ChunkingDoesNotMatter(d: Decoder, inputs: seq<bytes>)
    ensures FedAll(d, inputs).0 == Fed(d, Flatten(inputs)).0
    ensures FedAll(d, inputs).1 == Fed(d, Flatten(inputs)).1
  {
    hide Fed;
    if |inputs| == 0 {
      FedNothing(d);
    } else {
      ChunkingDoesNotMatter(d, inputs[..|inputs| - 1]);
      FedConcat(d, Flatten(inputs[..|inputs| - 1]), inputs[|inputs| - 1]);
    }
  }

  lemma FedNothing(d: Decoder)
    ensures Fed(d, []).0 == d && Fed(d, []).1 == []
  {
  }

  lemma FedOne(d: Decoder, b: byte)
    ensures Fed(d, [b]).0 == FedByte(d, b).0 && Fed(d, [b]).1 == FedByte(d, b).1
  {
    hide FedByte;
    assert [b][..0] == [];
  }

  // ---------------------------------------------------------------- round trip

  /** The escaped bytes come out as they were. */
  lemma {:induction false} FedEscaped(buf: bytes, s: bytes)
    ensures Fed(Decoder(buf, false), Escaped(s)).0 == Decoder(buf + s, false)
    ensures Fed(Decoder(buf, false), Escaped(s)).1 == []
    decreases |s|
  {
    hide Fed, Escape;
    if |s| == 0 {
      FedNothing(Decoder(buf, false));
      assert buf + s == buf;
    } else {
      FedEscape(buf, s[0]);
      FedEscaped(buf + [s[0]], s[1..]);
      FedConcat(Decoder(buf, false), Escape(s[0]), Escaped(s[1..]));
      assert buf + [s[0]] + s[1..] == buf + s;
    }
  }

  lemma FedEscape(buf: bytes, b: byte)
    ensures Fed(Decoder(buf, false), Escape(b)).0 == Decoder(buf + [b], false)
    ensures Fed(Decoder(buf, false), Escape(b)).1 == []
  {
    hide Fed;
    var d := Decoder(buf, false);
    if b == FESC || b == FEND {
      FedOne(d, FESC);
      FedOne(d.(esc := true), Escape(b)[1]);
      FedConcat(d, [FESC], [Escape(b)[1]]);
      assert [FESC] + [Escape(b)[1]] == Escape(b);
    } else {
      FedOne(d, b);
    }
  }

  /** From any state, after whatever noise, an encoded frame comes out last, after at most one leftover, and the
      decoder is idle again. */
  lemma Resync(d: Decoder, frame: bytes, port: nat)
    ensures Fed(d, Encode(frame, port)).0 == IDLE
    ensures Fed(d, Encode(frame, port)).1 == Leftover(d) + [frame]
  {
    hide Fed, Replaced, Escaped;
    var data: bytes := [port % 16 * 16] + frame;
    TwoPasses(data);
    FedOne(d, FEND);
    FedEscaped([], data);
    FedConcat(d, [FEND], Escaped(data));
    FedOne(Decoder(data, false), FEND);
    FedConcat(d, [FEND] + Escaped(data), [FEND]);
    TypeByte(port);
    assert [] + data == data && data[1..] == frame;
  }

  lemma TypeByte(port: nat)
    ensures port % 16 * 16 % 16 == 0
  {
  }

  /** Frames one after the other, each for its port. */
  function Stream(frames: seq<bytes>, ports: seq<nat>): bytes
    requires |ports| == |frames|
  {
    if |frames| == 0 then [] else
      Stream(frames[..|frames| - 1], ports[..|frames| - 1]) + Encode(frames[|frames| - 1], ports[|frames| - 1])
  }

  lemma {:induction false} FedStream(frames: seq<bytes>, ports: seq<nat>)
    requires |ports| == |frames|
    ensures Fed(IDLE, Stream(frames, ports)).0 == IDLE && Fed(IDLE, Stream(frames, ports)).1 == frames
  {
    hide Fed, Encode;
    if |frames| == 0 {
      FedNothing(IDLE);
    } else {
      var n := |frames| - 1;
      FedStream(frames[..n], ports[..n]);
      Resync(IDLE, frames[n], ports[n]);
      FedConcat(IDLE, Stream(frames[..n], ports[..n]), Encode(frames[n], ports[n]));
      assert Leftover(IDLE) + [frames[n]] == [frames[n]];
      assert frames[..n] + [frames[n]] == frames;
    }
  }

  /** However the encoded frames are split into reads, `feed` outputs exactly those frames, in order. */
  lemma RoundTrip(frames: seq<bytes>, ports: seq<nat>, inputs: seq<bytes>)
    requires |ports| == |frames| && Flatten(inputs) == Stream(frames, ports)
    ensures FedAll(IDLE, inputs).0 == IDLE && FedAll(IDLE, inputs).1 == frames
  {
    hide Fed, FedAll, Stream, Flatten;
    ChunkingDoesNotMatter(IDLE, inputs);
    FedStream(frames, ports);
  }

  // ---------------------------------------------------------------- byte by byte

  /** What goes out: C0, the port in the upper half of a byte, the frame, and C0; inside, DB DC stands for C0 and DB DD
      for DB. */
  lemma EncodedBytes(frame: bytes, port: nat)
    ensures Encode(frame, port) ==
      [0xC0] + (if port % 16 == 12 then [0xDB, 0xDC] else [16 * (port % 16)]) + Escaped(frame) + [0xC0]
    ensures forall b: byte :: Escape(b) == if b == 0xC0 then [0xDB, 0xDC] else if b == 0xDB then [0xDB, 0xDD] else [b]
  {
    hide Replaced;
    var p: byte := 16 * (port % 16);
    assert p == port % 16 * 16;
    TwoPasses([p] + frame);
    assert ([p] + frame)[1..] == frame;
    assert Escaped([p] + frame) == Escape(p) + Escaped(frame);
    assert [0xC0] + (Escape(p) + Escaped(frame)) + [0xC0] == [0xC0] + Escape(p) + Escaped(frame) + [0xC0];
  }

  /** What comes in, in either state: C0 ends a frame, which is handed on without its first byte if the lower half of
      that byte is zero; DB announces C0 or DB. */
  lemma FedBytes(d: Decoder, b: byte)
    ensures FedByte(d, b) ==
      if b == 0xC0 then (Decoder([], false), if d.buf != [] && d.buf[0] % 16 == 0 then [d.buf[1..]] else [])
      else if d.esc then (Decoder(d.buf + [if b == 0xDC then 0xC0 else if b == 0xDD then 0xDB else b], false), [])
      else if b == 0xDB then (Decoder(d.buf, true), [])
      else (Decoder(d.buf + [b], false), [])
  {
  }
}
