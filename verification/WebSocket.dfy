/** WebSocket frames: `_frame`, `Conn` and `read_frame` of xara_feed.py (sections 5.2 and 5.3 of RFC 6455). */
module WebSocket {
  import opened Prelude
  import opened BitIO
  import opened Blocks

  const MAX_FRAME: nat := 0x10_0000

  // ---------------------------------------------------------------- masking

  /** The last `k` binary digits of `a ^ b`. */
  function XorDigits(a: nat, b: nat, k: nat): nat {
    if k == 0 then 0 else 2 * XorDigits(a / 2, b / 2, k - 1) + XorBit(a % 2, b % 2)
  }

  lemma {:induction false} XorSmall(a: nat, b: nat, k: nat)
    ensures XorDigits(a, b, k) < Pow2(k)
  {
    if k > 0 {
      XorSmall(a / 2, b / 2, k - 1);
    }
  }

  function Xor(a: byte, b: byte): byte {
    XorSmall(a, b, 8);
    Pow2Values();
    XorDigits(a, b, 8)
  }

  lemma {:induction false} XorDigitsTwice(a: nat, b: nat, k: nat)
    requires a < Pow2(k)
    ensures XorDigits(XorDigits(a, b, k), b, k) == a
  {
    if k > 0 {
      XorDigitsTwice(a / 2, b / 2, k - 1);
    }
  }

  lemma XorTwice(a: byte, m: byte)
    ensures Xor(Xor(a, m), m) == a
  {
    hide XorDigits;
    Pow2Values();
    XorDigitsTwice(a, m, 8);
  }

  /** Byte `i` of the data against byte `i % 4` of the mask. */
  function Masked(data: bytes, mask: bytes): (r: bytes)
    requires |mask| == 4
    ensures |r| == |data|
  {
    seq(|data|, i requires 0 <= i < |data| => Xor(data[i], mask[i % 4]))
  }

  lemma MaskedTwice(data: bytes, mask: bytes)
    requires |mask| == 4
    ensures Masked(Masked(data, mask), mask) == data
  {
    hide Xor;
    forall i | 0 <= i < |data|
      ensures Masked(Masked(data, mask), mask)[i] == data[i]
    {
      XorTwice(data[i], mask[i % 4]);
    }
  }

  // ---------------------------------------------------------------- lengths

  /** `struct.pack` of `k` bytes, big-endian. */
  function BigEndian(n: nat, k: nat): (r: bytes)
    ensures |r| == k
  {
    if k == 0 then [] else BigEndian(n / 0x100, k - 1) + [n % 0x100]
  }

  function FromBigEndian(b: bytes): nat {
    if |b| == 0 then 0 else 0x100 * FromBigEndian(b[..|b| - 1]) + b[|b| - 1]
  }

  /** How many numbers `k` bytes hold. */
  function Range(k: nat): (r: nat)
    ensures r > 0
  {
    if k == 0 then 1 else 0x100 * Range(k - 1)
  }

  lemma {:induction false} BigEndianBack(n: nat, k: nat)
    requires n < Range(k)
    ensures FromBigEndian(BigEndian(n, k)) == n
  {
    if k > 0 {
      BigEndianBack(n / 0x100, k - 1);
      assert BigEndian(n, k)[..k - 1] == BigEndian(n / 0x100, k - 1);
    }
  }

  lemma RangeValues()
    ensures Range(2) == 0x1_0000 && Range(8) == 0x1_0000_0000_0000_0000
  {
    assert Range(4) == 0x1_0000_0000;
    assert Range(6) == 0x1_0000_0000_0000;
  }

  /** The length field: one byte, or 126 and two more, or 127 and eight more. `top` is the mask bit. */
  function LengthField(n: nat, top: nat): (r: bytes)
    requires n < Range(8) && (top == 0 || top == 0x80)
    ensures 1 <= |r|
  {
    if n < 126 then [top + n]
    else if n < 0x1_0000 then [top + 126] + BigEndian(n, 2)
    else [top + 127] + BigEndian(n, 8)
  }

  /** How many more bytes the first length byte announces. */
  function Extra(b: byte): nat {
    if b % 0x80 == 126 then 2 else if b % 0x80 == 127 then 8 else 0
  }

  function LengthOf(b: byte, extra: bytes): nat {
    if Extra(b) == 0 then b % 0x80 else FromBigEndian(extra)
  }

  lemma LengthBack(n: nat, top: nat)
    requires n < Range(8) && (top == 0 || top == 0x80)
    ensures var f := LengthField(n, top);
      |f| == 1 + Extra(f[0]) && LengthOf(f[0], f[1..]) == n && f[0] / 0x80 == top / 0x80
  {
    hide Range, FromBigEndian, BigEndian, Extra;
    RangeValues();
    if n < 126 {
      FirstByte(n, top);
    } else {
      var k := if n < 0x1_0000 then 2 else 8;
      FirstByte(if k == 2 then 126 else 127, top);
      BigEndianBack(n, k);
      assert LengthField(n, top)[1..] == BigEndian(n, k);
    }
  }

  /** The mask bit and the other seven. */
  lemma FirstByte(x: nat, top: nat)
    requires x < 0x80 && (top == 0 || top == 0x80)
    ensures (top + x) % 0x80 == x && (top + x) / 0x80 == top / 0x80
    ensures Extra(top + x) == if x == 126 then 2 else if x == 127 then 8 else 0
  {
  }

  // ---------------------------------------------------------------- frames

  /** One frame on the wire: the opcode, the payload, and the mask if there is one. */
  datatype Frame = Frame(op: nat, payload: bytes, mask: Option<bytes>)

  predicate Sendable(f: Frame) {
    f.op < 16 && |f.payload| < Range(8) && (f.mask.Some? ==> |f.mask.value| == 4)
  }

  /** `_frame`, with the mask given instead of drawn; and the same without a mask, as a server sends it. */
  function Wire(f: Frame): bytes
    requires Sendable(f)
  {
    var body := if f.mask.Some? then f.mask.value + Masked(f.payload, f.mask.value) else f.payload;
    [0x80 + f.op] + LengthField(|f.payload|, if f.mask.Some? then 0x80 else 0) + body
  }

  datatype Error = Closed | OutOfStep(n: nat)

  datatype Result = Ok(op: nat, payload: bytes) | Err(error: Error)

  /** What `read_frame` makes of a stream, and what it leaves of it. */
  function Parsed(s: bytes): (r: (Result, bytes))
    ensures |r.1| <= |s|
  {
    if |s| < 2 then (Err(Closed), s) else
      var m, t := s[1], s[2..];
      var k := Extra(m);
      if |t| < k then (Err(Closed), t) else
        ParsedBody(s[0] % 16, m, LengthOf(m, t[..k]), t[k..])
  }

  /** The same after the length field. */
  function ParsedBody(op: nat, m: byte, n: nat, u: bytes): (r: (Result, bytes))
    ensures |r.1| <= |u|
  {
    if n > MAX_FRAME then (Err(OutOfStep(n)), u)
    else if m < 0x80 then
      if |u| < n then (Err(Closed), u) else (Ok(op, u[..n]), u[n..])
    else if |u| < 4 then (Err(Closed), u)
    else if |u[4..]| < n then (Err(Closed), u[4..])
    else (Ok(op, Masked(u[4..][..n], u[..4])), u[4..][n..])
  }

  /** A frame is read back from whatever stream starts with it if and only if its payload has at most 2^20 bytes. */
  lemma FrameRoundTrip(f: Frame, rest: bytes)
    requires Sendable(f)
    ensures |f.payload| <= 0x10_0000 <==> Parsed(Wire(f) + rest) == (Ok(f.op, f.payload), rest)
  {
    hide LengthField, LengthOf, Extra, Range, Masked, Wire;
    var n, top := |f.payload|, if f.mask.Some? then 0x80 else 0;
    var field := LengthField(n, top);
    var body := if f.mask.Some? then f.mask.value + Masked(f.payload, f.mask.value) else f.payload;
    LengthBack(n, top);
    Header(f, rest);
    var u := body + rest;
    if f.mask.Some? {
      assert u[..4] == f.mask.value;
      assert u[4..][..n] == Masked(f.payload, f.mask.value) && u[4..][n..] == rest;
      MaskedTwice(f.payload, f.mask.value);
    } else {
      assert u[..n] == f.payload && u[n..] == rest;
    }
  }

  /** Cutting the header off. */
  lemma Header(f: Frame, rest: bytes)
    requires Sendable(f)
    ensures var field := LengthField(|f.payload|, if f.mask.Some? then 0x80 else 0);
      var body := if f.mask.Some? then f.mask.value + Masked(f.payload, f.mask.value) else f.payload;
      var s := Wire(f) + rest;
      && |s| >= 1 + |field| && s[0] == 0x80 + f.op && s[0] % 16 == f.op && s[1] == field[0]
      && s[2..][..|field| - 1] == field[1..] && s[2..][|field| - 1..] == body + rest
  {
    hide LengthField, Masked, Range;
    var field := LengthField(|f.payload|, if f.mask.Some? then 0x80 else 0);
    var body := if f.mask.Some? then f.mask.value + Masked(f.payload, f.mask.value) else f.payload;
    var s := Wire(f) + rest;
    assert s == [0x80 + f.op] + field + (body + rest);
    assert s[1..] == field + (body + rest);
    assert s[2..] == field[1..] + (body + rest);
  }

  /** Frames one after the other. */
  function AllWire(fs: seq<Frame>): bytes
    requires forall f | f in fs :: Sendable(f)
  {
    if |fs| == 0 then [] else Wire(fs[0]) + AllWire(fs[1..])
  }

  /** The results of `n` calls of `read_frame`. */
  function ParsedAll(s: bytes, n: nat): (seq<Result>, bytes) {
    if n == 0 then ([], s) else
      var (r, t) := Parsed(s);
      var (rs, u) := ParsedAll(t, n - 1);
      ([r] + rs, u)
  }

  lemma {:induction false} AllRoundTrip(fs: seq<Frame>, rest: bytes)
    requires forall f | f in fs :: Sendable(f) && |f.payload| <= MAX_FRAME
    ensures ParsedAll(AllWire(fs) + rest, |fs|).1 == rest
    ensures |ParsedAll(AllWire(fs) + rest, |fs|).0| == |fs|
    ensures forall i | 0 <= i < |fs| :: ParsedAll(AllWire(fs) + rest, |fs|).0[i] == Ok(fs[i].op, fs[i].payload)
    decreases |fs|
  {
    hide Parsed, Wire, Sendable;
    if |fs| == 0 {
      assert AllWire(fs) + rest == rest;
    } else {
      FrameRoundTrip(fs[0], AllWire(fs[1..]) + rest);
      assert AllWire(fs) + rest == Wire(fs[0]) + (AllWire(fs[1..]) + rest);
      AllRoundTrip(fs[1..], rest);
    }
  }

  // ---------------------------------------------------------------- byte by byte

  /** Bit `i` of the result differs exactly where the two bytes do. */
  lemma {:induction false} XorBits(a: nat, b: nat, k: nat, i: nat)
    requires i < k
    ensures XorDigits(a, b, k) / Pow2(i) % 2 == if a / Pow2(i) % 2 == b / Pow2(i) % 2 then 0 else 1
  {
    var x, y := XorDigits(a, b, k), XorDigits(a / 2, b / 2, k - 1);
    assert x / 2 == y && x % 2 == XorBit(a % 2, b % 2);
    if i > 0 {
      XorBits(a / 2, b / 2, k - 1, i - 1);
      DivTwice(x, Pow2(i - 1));
      DivTwice(a, Pow2(i - 1));
      DivTwice(b, Pow2(i - 1));
    }
  }

  lemma XorOfBytes(a: byte, b: byte, i: nat)
    requires i < 8
    ensures Xor(a, b) / Pow2(i) % 2 == if a / Pow2(i) % 2 == b / Pow2(i) % 2 then 0 else 1
  {
    hide XorDigits;
    XorBits(a, b, 8, i);
  }

  /** Byte `i` of `k`, the most significant first. */
  lemma {:induction false} BigEndianAt(n: nat, k: nat, i: nat)
    requires i < k
    ensures BigEndian(n, k)[i] == n / Range(k - 1 - i) % 0x100
    decreases k
  {
    if i < k - 1 {
      BigEndianAt(n / 0x100, k - 1, i);
      DivStep(n, Range(k - 2 - i));
    }
  }

  lemma DivStep(n: nat, r: nat)
    requires r > 0
    ensures n / 0x100 / r == n / (0x100 * r)
  {
    DivTwice(n, 0x80 * r);
    DivTwice(n / 2, 0x40 * r);
    DivTwice(n / 4, 0x20 * r);
    DivTwice(n / 8, 0x10 * r);
    DivTwice(n / 16, 8 * r);
    DivTwice(n / 32, 4 * r);
    DivTwice(n / 64, 2 * r);
    DivTwice(n / 128, r);
    assert n / 2 / 2 == n / 4 && n / 4 / 2 == n / 8 && n / 8 / 2 == n / 16 && n / 16 / 2 == n / 32;
    assert n / 32 / 2 == n / 64 && n / 64 / 2 == n / 128 && n / 128 / 2 == n / 256;
  }

  /** The header of a frame: the final bit and the opcode; the mask bit and a length up to 125, or 126 and two bytes, or
      127 and eight. */
  lemma WireBytes(f: Frame)
    requires Sendable(f)
    ensures var (w, n) := (Wire(f), |f.payload|);
      && |w| >= 2 && w[0] == 128 + f.op && w[1] / 128 == (if f.mask.Some? then 1 else 0)
      && (n <= 125 ==> w[1] % 128 == n && w[2..] == Body(f))
      && (126 <= n <= 65535 ==>
        w[1] % 128 == 126 && |w| >= 4 && w[2] == n / 256 && w[3] == n % 256 && w[4..] == Body(f))
      && (n >= 65536 ==>
        w[1] % 128 == 127 && |w| >= 10 && w[10..] == Body(f) &&
        forall i: nat | i < 8 :: w[2..10][i] == n / Range(7 - i) % 256)
  {
    hide Masked, Range;
    RangeValues();
    var n, w := |f.payload|, Wire(f);
    if 126 <= n <= 65535 {
      BigEndianAt(n, 2, 0);
      BigEndianAt(n, 2, 1);
      assert w[4..] == Body(f);
      SmallRanges();
    } else if n >= 65536 {
      assert w[2..10] == BigEndian(n, 8);
      assert w[10..] == Body(f);
      forall i: nat | i < 8
        ensures w[2..10][i] == n / Range(7 - i) % 256
      {
        BigEndianAt(n, 8, i);
      }
    } else {
      assert w[2..] == Body(f);
    }
  }

  lemma SmallRanges()
    ensures Range(0) == 1 && Range(1) == 256
  {
  }

  /** The mask, if there is one, and the payload under it. */
  function Body(f: Frame): (r: bytes)
    requires Sendable(f)
    ensures f.mask.None? ==> r == f.payload
    ensures f.mask.Some? ==> |r| == 4 + |f.payload| && r[..4] == f.mask.value
    ensures f.mask.Some? ==> forall i: nat | i < |f.payload| :: r[4..][i] == Xor(f.payload[i], f.mask.value[i % 4])
  {
    if f.mask.Some? then f.mask.value + Masked(f.payload, f.mask.value) else f.payload
  }

  // ---------------------------------------------------------------- connections

  class Conn {
    var buf: bytes
    /** What `recv` will return, one after the other, before the end of the stream. */
    var incoming: seq<bytes>

    predicate Valid()
      reads this
    {
      forall c | c in incoming :: c != []
    }

    /** All that is still to be read. */
    function Stream(): bytes
      reads this
    {
      buf + Flatten(incoming)
    }

    constructor (pending: bytes, incoming: seq<bytes>)
      requires forall c | c in incoming :: c != []
      ensures Valid() && Stream() == pending + Flatten(incoming)
    {
      buf, this.incoming := pending, incoming;
    }

    /** `read_exact`: `n` bytes, or none when the stream ends before. */
    method ReadExact(n: nat) returns (r: Option<bytes>)
      requires Valid()
      modifies this
      ensures Valid() && (r.Some? <==> n <= |old(Stream())|)
      ensures r.Some? ==> r.value == old(Stream())[..n] && Stream() == old(Stream())[n..]
      ensures r.None? ==> Stream() == old(Stream())
    {
      hide Flatten;
      while |buf| < n
        invariant Valid() && Stream() == old(Stream())
        decreases |incoming|
      {
        if incoming == [] {
          NothingFlattened();
          return None;
        }
        FlattenFirst(incoming);
        assert buf + incoming[0] + Flatten(incoming[1..]) == buf + (incoming[0] + Flatten(incoming[1..]));
        buf := buf + incoming[0];
        assert forall c | c in incoming[1..] :: c in incoming;
        incoming := incoming[1..];
      }
      ghost var s := Stream();
      assert s[..n] == buf[..n] && s[n..] == buf[n..] + Flatten(incoming);
      r := Some(buf[..n]);
      buf := buf[n..];
    }

    /** `read_frame`. However the stream is split into reads, it returns what the stream says. */
    method ReadFrame() returns (r: Result)
      requires Valid()
      modifies this
      ensures Valid() && r == Parsed(old(Stream())).0 && Stream() == Parsed(old(Stream())).1
    {
      hide Flatten, Masked, FromBigEndian, Stream, ParsedBody;
      var h := ReadExact(2);
      if h.None? {
        return Err(Closed);
      }
      var op, n, m := h.value[0] % 16, h.value[1] % 0x80, h.value[1];
      if n == 126 {
        var e := ReadExact(2);
        if e.None? {
          return Err(Closed);
        }
        n := FromBigEndian(e.value);
      } else if n == 127 {
        var e := ReadExact(8);
        if e.None? {
          return Err(Closed);
        }
        n := FromBigEndian(e.value);
      }
      r := ReadBody(op, m, n);
    }

    /** The second half of `read_frame`. */
    method ReadBody(op: nat, m: byte, n: nat) returns (r: Result)
      requires Valid()
      modifies this
      ensures Valid()
      ensures r == ParsedBody(op, m, n, old(Stream())).0 && Stream() == ParsedBody(op, m, n, old(Stream())).1
    {
      hide Flatten, Masked, Stream;
      if n > MAX_FRAME {
        return Err(OutOfStep(n));
      }
      if m >= 0x80 {
        var mask := ReadExact(4);
        if mask.None? {
          return Err(Closed);
        }
        var data := ReadExact(n);
        if data.None? {
          return Err(Closed);
        }
        return Ok(op, Masked(data.value, mask.value));
      }
      var data := ReadExact(n);
      if data.None? {
        return Err(Closed);
      }
      r := Ok(op, data.value);
    }
  }

  /** The stream starts with these frames. */
  predicate Carries(s: bytes, fs: seq<Frame>, rest: bytes) {
    (forall f | f in fs :: Sendable(f) && |f.payload| <= MAX_FRAME) && s == AllWire(fs) + rest
  }

  /** `n` calls of `read_frame`: from a stream that carries at least `n` frames they return these, and leave the
      rest. */
  method ReadFrames(conn: Conn, n: nat) returns (rs: seq<Result>)
    requires conn.Valid()
    modifies conn
    ensures conn.Valid() && rs == ParsedAll(old(conn.Stream()), n).0
    ensures conn.Stream() == ParsedAll(old(conn.Stream()), n).1
    ensures forall fs: seq<Frame>, rest: bytes | Carries(old(conn.Stream()), fs, rest) && |fs| == n ::
      rs == seq(n, i requires 0 <= i < n => Ok(fs[i].op, fs[i].payload)) && conn.Stream() == rest
  {
    hide Parsed, Conn.Stream, AllWire, Sendable;
    rs := [];
    ghost var s := conn.Stream();
    for k := 0 to n
      invariant conn.Valid()
      invariant rs + ParsedAll(conn.Stream(), n - k).0 == ParsedAll(s, n).0
      invariant ParsedAll(conn.Stream(), n - k).1 == ParsedAll(s, n).1
    {
      ghost var more := ParsedAll(conn.Stream(), n - k).0;
      assert rs + more == rs + [more[0]] + more[1..];
      var r := conn.ReadFrame();
      rs := rs + [r];
    }
    forall fs: seq<Frame>, rest: bytes | Carries(s, fs, rest) && |fs| == n
      ensures rs == seq(n, i requires 0 <= i < n => Ok(fs[i].op, fs[i].payload)) && conn.Stream() == rest
    {
      AllRoundTrip(fs, rest);
    }
  }

  lemma NothingFlattened()
    ensures Flatten<byte>([]) == []
  {
  }

  lemma FlattenFirst(cs: seq<bytes>)
    requires cs != []
    ensures Flatten(cs) == cs[0] + Flatten(cs[1..])
  {
    FlattenConcat([cs[0]], cs[1..]);
    FlattenOne(cs[0]);
    assert [cs[0]] + cs[1..] == cs;
  }
}
