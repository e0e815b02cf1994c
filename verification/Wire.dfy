/** What is between `_tx` of one station and `_read_frame` of the other (rfsend.py): AX.25 frames in KISS on a byte
    stream that arrives in reads of any size. */
module Wire {
  import opened Prelude
  import opened Ax25Link
  import opened Ax25Frame
  import opened Strings
  import opened Blocks
  import opened Ax25Stream
  import Kiss

  const PID_NO_L3: byte := 0xF0

  /** `_tx`, for the frames of an established link: I frames are commands with a PID, reports are responses without. */
  function OnAir(f: Frame, dest: Call, src: Call, digis: seq<Call>): Option<bytes> {
    Made(Text(dest), Text(src), f.ctrl, f.payload,
         if IsI(f.ctrl) then Some(PID_NO_L3) else None, !IsI(f.ctrl), Texts(digis))
  }

  /** What `_read_frame` makes of one KISS frame: only the source is compared, not the destination. */
  function Heard(kf: bytes, remote: string): Option<Frame> {
    match Split(kf)
    case Ok(p) => if Upper(p.src) == Upper(remote) then Some(Frame(p.ctrl, p.payload)) else None
    case Err(_) => None
  }

  function AllHeard(kfs: seq<bytes>, remote: string): seq<Frame> {
    if |kfs| == 0 then [] else
      var last := Heard(kfs[|kfs| - 1], remote);
      AllHeard(kfs[..|kfs| - 1], remote) + if last.Some? then [last.value] else []
  }

  function FirstOf(fs: seq<Frame>): seq<Frame> {
    if fs == [] then [] else [fs[0]]
  }

  /** The frames `_read_frame` returns from these reads: the first of each, since it drops the rest of the read it
      returns from. */
  function Returned(d: Kiss.Decoder, inputs: seq<bytes>, remote: string): seq<Frame> {
    if |inputs| == 0 then [] else
      var n := |inputs| - 1;
      Returned(d, inputs[..n], remote) + FirstOf(AllHeard(Kiss.Fed(Kiss.FedAll(d, inputs[..n]).0, inputs[n]).1, remote))
  }

  // ---------------------------------------------------------------- the method

  /** One outcome of `reader.read`: some bytes, none at the end of the stream, or no outcome in time. */
  datatype Input = Bytes(data: bytes) | Late

  predicate IsData(i: Input) {
    i.Bytes? && i.data != []
  }

  function DataOf(inputs: seq<Input>): (r: seq<bytes>)
    ensures |r| == |inputs|
  {
    seq(|inputs|, i requires 0 <= i < |inputs| => if inputs[i].Bytes? then inputs[i].data else [])
  }

  lemma ReadStep(d: Kiss.Decoder, inputs: seq<Input>, used: nat, remote: string)
    requires used < |inputs| && inputs[used].Bytes?
    ensures var now, next := DataOf(inputs[..used]), DataOf(inputs[..used + 1]);
      var fed := Kiss.Fed(Kiss.FedAll(d, now).0, inputs[used].data);
      && Kiss.FedAll(d, next).0 == fed.0
      && Returned(d, next, remote) == Returned(d, now, remote) + FirstOf(AllHeard(fed.1, remote))
  {
    hide Kiss.Fed, AllHeard, FirstOf;
    assert DataOf(inputs[..used + 1])[..used] == DataOf(inputs[..used]);
  }

  lemma NoReads(d: Kiss.Decoder, inputs: seq<Input>, remote: string)
    requires inputs == []
    ensures Kiss.FedAll(d, DataOf(inputs)).0 == d && Returned(d, DataOf(inputs), remote) == []
  {
  }

  /** `_read_frame`: read until a frame from the remote station is complete, or time or the stream ends. Nothing is
      returned when the inputs given are used up. */
  method ReadFrame(dec: Kiss.KissDecoder, remote: string, inputs: seq<Input>) returns (r: Option<Reading>, used: nat)
    modifies dec
    ensures used <= |inputs| && forall i | 0 <= i < used :: IsData(inputs[i])
    ensures dec.Model() == Kiss.FedAll(old(dec.Model()), DataOf(inputs[..used])).0
    ensures Returned(old(dec.Model()), DataOf(inputs[..used]), remote) ==
      if r.Some? && r.value.Got? then [r.value.frame] else []
    ensures r.None? ==> used == |inputs|
    ensures r == Some(Timeout) ==> used < |inputs| && inputs[used].Late?
    ensures r == Some(Closed) ==> used < |inputs| && inputs[used] == Bytes([])
  {
    hide Kiss.Fed, Kiss.FedAll, Heard, AllHeard, DataOf, FirstOf, Returned;
    NoReads(dec.Model(), inputs[..0], remote);
    used := 0;
    ghost var d := dec.Model();
    while used < |inputs|
      invariant used <= |inputs| && forall i | 0 <= i < used :: IsData(inputs[i])
      invariant dec.Model() == Kiss.FedAll(d, DataOf(inputs[..used])).0
      invariant Returned(d, DataOf(inputs[..used]), remote) == []
    {
      if inputs[used].Late? {
        return Some(Timeout), used;
      }
      if inputs[used].data == [] {
        return Some(Closed), used;
      }
      ReadStep(d, inputs, used, remote);
      var kfs := dec.Feed(inputs[used].data);
      used := used + 1;
      var f := FirstHeard(kfs, remote);
      if f.Some? {
        return Some(Got(f.value)), used;
      }
    }
    r := None;
  }

  /** The `for` loop of `_read_frame` over the frames of one read. */
  method FirstHeard(kfs: seq<bytes>, remote: string) returns (f: Option<Frame>)
    ensures FirstOf(AllHeard(kfs, remote)) == if f.Some? then [f.value] else []
  {
    hide Heard;
    for k := 0 to |kfs|
      invariant AllHeard(kfs[..k], remote) == []
    {
      assert kfs[..k + 1][..k] == kfs[..k];
      f := Heard(kfs[k], remote);
      if f.Some? {
        FirstStays(kfs, k + 1, remote);
        return f;
      }
    }
    assert kfs[..|kfs|] == kfs;
    f := None;
  }

  lemma {:induction false} FirstStays(kfs: seq<bytes>, k: nat, remote: string)
    requires k <= |kfs| && AllHeard(kfs[..k], remote) != []
    ensures AllHeard(kfs, remote) != [] && AllHeard(kfs, remote)[0] == AllHeard(kfs[..k], remote)[0]
    decreases |kfs| - k
  {
    hide Heard;
    if k < |kfs| {
      assert kfs[..k + 1][..k] == kfs[..k];
      FirstStays(kfs, k + 1, remote);
    } else {
      assert kfs[..k] == kfs;
    }
  }

  // ---------------------------------------------------------------- a channel that keeps its order

  /** `a` is `b` with some elements left out. */
  predicate Subsequence(a: seq<Frame>, b: seq<Frame>) {
    a == [] ||
    (b != [] &&
     ((a[|a| - 1] == b[|b| - 1] && Subsequence(a[..|a| - 1], b[..|b| - 1])) || Subsequence(a, b[..|b| - 1])))
  }

  lemma {:induction false} LosesMore(a: seq<Frame>, b: seq<Frame>, c: seq<Frame>)
    requires Subsequence(a, b)
    ensures Subsequence(a, b + c)
    decreases |c|
  {
    if |c| == 0 {
      assert b + c == b;
    } else {
      assert (b + c)[..|b + c| - 1] == b + c[..|c| - 1];
      LosesMore(a, b, c[..|c| - 1]);
    }
  }

  lemma KeepsFirst(a: seq<Frame>, b: seq<Frame>, c: seq<Frame>)
    requires Subsequence(a, b)
    ensures Subsequence(a + FirstOf(c), b + c)
  {
    if c == [] {
      assert a + [] == a && b + [] == b;
    } else {
      var x, y := a + [c[0]], b + [c[0]];
      assert x[..|x| - 1] == a && y[..|y| - 1] == b;
      assert Subsequence(x, y);
      LosesMore(x, y, c[1..]);
      assert y + c[1..] == b + c;
    }
  }

  lemma {:induction false} HeardConcat(a: seq<bytes>, b: seq<bytes>, remote: string)
    ensures AllHeard(a + b, remote) == AllHeard(a, remote) + AllHeard(b, remote)
    decreases |b|
  {
    hide Heard;
    if |b| == 0 {
      assert a + b == a;
    } else {
      assert (a + b)[..|a + b| - 1] == a + b[..|b| - 1];
      HeardConcat(a, b[..|b| - 1], remote);
    }
  }

  /** Whatever the reads, what is returned is what was heard, with some frames left out and none moved. */
  lemma {:induction false} ReturnedInOrder(d: Kiss.Decoder, inputs: seq<bytes>, remote: string)
    ensures Subsequence(Returned(d, inputs, remote), AllHeard(Kiss.FedAll(d, inputs).1, remote))
  {
    hide Heard, AllHeard, Subsequence, Kiss.Fed;
    if |inputs| == 0 {
      assert Subsequence([], AllHeard([], remote)) by { NothingLost(AllHeard([], remote)); }
    } else {
      var n := |inputs| - 1;
      ReturnedInOrder(d, inputs[..n], remote);
      var more := Kiss.Fed(Kiss.FedAll(d, inputs[..n]).0, inputs[n]).1;
      HeardConcat(Kiss.FedAll(d, inputs[..n]).1, more, remote);
      var heard := AllHeard(Kiss.FedAll(d, inputs[..n]).1, remote);
      KeepsFirst(Returned(d, inputs[..n], remote), heard, AllHeard(more, remote));
    }
  }

  lemma NothingLost(b: seq<Frame>)
    ensures Subsequence([], b)
  {
  }

  /** A frame of the link goes through `make_frame` and `split_frame` and is recognised by its source, in whatever case
      the callsign is configured. */
  lemma HeardAsSent(f: Frame, dest: Call, src: Call, digis: seq<Call>, remote: string)
    requires Canonical(dest) && Canonical(src) && AllCanonical(digis) && |digis| <= 9
    requires IsI(f.ctrl) || IsS(f.ctrl)
    requires Upper(remote) == Upper(Text(src))
    ensures OnAir(f, dest, src, digis).Some? && Heard(OnAir(f, dest, src, digis).value, remote) == Some(f)
  {
    hide Made, Split, Text, Texts, Canonical, Upper;
    FrameRoundTrip(dest, src, f.ctrl, f.payload, if IsI(f.ctrl) then Some(PID_NO_L3) else None, !IsI(f.ctrl), digis);
  }

  lemma NoneHeard(remote: string)
    ensures AllHeard([], remote) == []
  {
  }

  lemma HeardOne(kf: bytes, remote: string)
    ensures AllHeard([kf], remote) == if Heard(kf, remote).Some? then [Heard(kf, remote).value] else []
  {
    hide Heard;
    var kfs := [kf];
    assert kfs[..0] == [];
  }

  /** The KISS bytes of some frames, one after the other. */
  function Transmission(fs: seq<Frame>, dest: Call, src: Call, digis: seq<Call>): bytes {
    if |fs| == 0 then [] else
      var kf := OnAir(fs[|fs| - 1], dest, src, digis);
      Transmission(fs[..|fs| - 1], dest, src, digis) + if kf.Some? then Kiss.Encode(kf.value, 0) else []
  }

  lemma {:induction false} Transmitted(fs: seq<Frame>, dest: Call, src: Call, digis: seq<Call>, remote: string)
    requires Canonical(dest) && Canonical(src) && AllCanonical(digis) && |digis| <= 9
    requires forall i | 0 <= i < |fs| :: IsI(fs[i].ctrl) || IsS(fs[i].ctrl)
    requires Upper(remote) == Upper(Text(src))
    ensures Kiss.Fed(Kiss.IDLE, Transmission(fs, dest, src, digis)).0 == Kiss.IDLE
    ensures AllHeard(Kiss.Fed(Kiss.IDLE, Transmission(fs, dest, src, digis)).1, remote) == fs
  {
    hide Heard, AllHeard, OnAir, Canonical, Text, Kiss.Encode, Kiss.Fed, Upper, IsI, IsS;
    if |fs| == 0 {
      NoneHeard(remote);
      Kiss.FedNothing(Kiss.IDLE);
    } else {
      var n := |fs| - 1;
      Transmitted(fs[..n], dest, src, digis, remote);
      HeardAsSent(fs[n], dest, src, digis, remote);
      var kf := OnAir(fs[n], dest, src, digis).value;
      var sent := Transmission(fs[..n], dest, src, digis);
      Kiss.FedConcat(Kiss.IDLE, sent, Kiss.Encode(kf, 0));
      Kiss.Resync(Kiss.IDLE, kf, 0);
      HeardConcat(Kiss.Fed(Kiss.IDLE, sent).1, [kf], remote);
      HeardOne(kf, remote);
      assert Kiss.Leftover(Kiss.IDLE) + [kf] == [kf];
      assert fs[..n] + [fs[n]] == fs;
    }
  }

  /** However the bytes are cut into reads, the frames returned to
      the receiver are frames transmitted, in order, some lost. */
  lemma WireIsChannel(fs: seq<Frame>, dest: Call, src: Call, digis: seq<Call>, remote: string, inputs: seq<bytes>)
    requires Canonical(dest) && Canonical(src) && AllCanonical(digis) && |digis| <= 9
    requires forall i | 0 <= i < |fs| :: IsI(fs[i].ctrl) || IsS(fs[i].ctrl)
    requires Upper(remote) == Upper(Text(src))
    requires Flatten(inputs) == Transmission(fs, dest, src, digis)
    ensures Subsequence(Returned(Kiss.IDLE, inputs, remote), fs)
  {
    hide Heard, Subsequence, Kiss.Fed, Kiss.FedAll, Transmission, Flatten, Canonical, Text, Upper, IsI, IsS, Returned;
    Transmitted(fs, dest, src, digis, remote);
    Kiss.ChunkingDoesNotMatter(Kiss.IDLE, inputs);
    ReturnedInOrder(Kiss.IDLE, inputs, remote);
  }

  /** What `_tx` puts on the air: an I frame as a command with the PID F0, anything else as a response without. */
  lemma OnAirBytes(f: Frame, dest: Call, src: Call, digis: seq<Call>)
    requires Canonical(dest) && Canonical(src) && AllCanonical(digis)
    ensures var r := OnAir(f, dest, src, digis);
      && r.Some? && |r.value| >= 14 + 7 * |digis|
      && AddressIs(r.value[..7], dest, f.ctrl % 2 == 0, false)
      && AddressIs(r.value[7..14], src, f.ctrl % 2 == 1, digis == [])
      && r.value[14 + 7 * |digis|..] == [f.ctrl] + (if f.ctrl % 2 == 0 then [0xF0] else []) + f.payload
  {
    hide Made, AddressIs, Text, Canonical;
    FrameBytes(dest, src, f.ctrl, f.payload, if IsI(f.ctrl) then Some(PID_NO_L3) else None, !IsI(f.ctrl), digis, 0);
  }
}
