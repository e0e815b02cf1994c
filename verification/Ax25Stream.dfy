/** Class `AX25Stream` of rfsend.py. What `_read_frame` returns is a parameter: a frame, a timeout, or the news that the
    connection is closed. */
module Ax25Stream {
  import opened Prelude
  import opened Ax25Link
  import opened Blocks

  datatype Reading = Got(frame: Frame) | Timeout | Closed

  /** How `send` ends: normally, with one of its two errors, or not yet when the readings given are used up. */
  datatype Outcome = Sent | NoAck | LinkClosed | Waiting

  /** What a stream does to its endpoint, one act at a time. */
  datatype Act = Queueing(chunk: bytes) | Receiving(frame: Frame) | Resending

  /** What one act does to an endpoint, and the frames it writes. */
  function Acted(e: Endpoint, act: Act): (r: (Endpoint, seq<Frame>))
    requires WellFormed(e)
    ensures WellFormed(r.0) && r.0.kind == e.kind
  {
    match act
    case Queueing(chunk) => Queued(e, chunk)
    case Receiving(f) => Received(e, f)
    case Resending => (e, Resent(e))
  }

  /** The endpoint after some acts, and the frames written by them. */
  function Play(e: Endpoint, acts: seq<Act>): (r: (Endpoint, seq<Frame>))
    requires WellFormed(e)
    ensures WellFormed(r.0) && r.0.kind == e.kind
  {
    if |acts| == 0 then (e, []) else
      var (e1, out) := Play(e, acts[..|acts| - 1]);
      var (e2, more) := Acted(e1, acts[|acts| - 1]);
      (e2, out + more)
  }

  /** A chunk is queued only while fewer than 7 are outstanding. */
  predicate Legal(e: Endpoint, acts: seq<Act>)
    requires WellFormed(e)
  {
    |acts| == 0 ||
    (&& Legal(e, acts[..|acts| - 1])
     && (acts[|acts| - 1].Queueing? ==> Outstanding(Play(e, acts[..|acts| - 1]).0) < WINDOW))
  }

  /** The chunks queued by some acts. */
  function ChunksOf(acts: seq<Act>): seq<bytes> {
    if |acts| == 0 then [] else
      ChunksOf(acts[..|acts| - 1]) + if acts[|acts| - 1].Queueing? then [acts[|acts| - 1].chunk] else []
  }

  /** The acts that answer a reading, as opposed to those of the caller. */
  function Turns(acts: seq<Act>): seq<Act> {
    if |acts| == 0 then [] else
      Turns(acts[..|acts| - 1]) + if acts[|acts| - 1].Queueing? then [] else [acts[|acts| - 1]]
  }

  /** The one act that answers a reading: a frame is received, a timeout is met with a retransmission. */
  function Turn(reading: Reading): Act
    requires !reading.Closed?
  {
    if reading.Got? then Receiving(reading.frame) else Resending
  }

  /** The acts are the answers to these readings, one by one, between the caller's. */
  predicate Answer(acts: seq<Act>, readings: seq<Reading>) {
    && |Turns(acts)| == |readings|
    && forall i :: 0 <= i < |readings| ==> !readings[i].Closed? && Turns(acts)[i] == Turn(readings[i])
  }

  function Timeouts(readings: seq<Reading>): nat {
    if |readings| == 0 then 0
    else Timeouts(readings[..|readings| - 1]) + if readings[|readings| - 1].Timeout? then 1 else 0
  }

  lemma AnswerOne(acts: seq<Act>, readings: seq<Reading>, used: nat, act: Act)
    requires used <= |readings| && Answer(acts, readings[..used])
    requires act.Queueing? || (used < |readings| && !readings[used].Closed? && act == Turn(readings[used]))
    ensures Answer(acts + [act], readings[..if act.Queueing? then used else used + 1])
  {
    assert (acts + [act])[..|acts|] == acts;
    if !act.Queueing? {
      assert Turns(acts + [act]) == Turns(acts) + [act];
      assert readings[..used + 1] == readings[..used] + [readings[used]];
    }
  }

  lemma TimeoutsOne(readings: seq<Reading>, from: nat, used: nat)
    requires from <= used < |readings|
    ensures Timeouts(readings[from..used + 1]) ==
      Timeouts(readings[from..used]) + if readings[used].Timeout? then 1 else 0
  {
    assert readings[from..used + 1][..used - from] == readings[from..used];
  }

  /** From endpoint `e0` with frames `w0` written, the acts lead to endpoint `e` with frames `w` written. */
  ghost predicate Reached(e0: Endpoint, w0: seq<Frame>, acts: seq<Act>, e: Endpoint, w: seq<Frame>) {
    && WellFormed(e0)
    && Legal(e0, acts)
    && e == Play(e0, acts).0
    && w == w0 + Play(e0, acts).1
  }

  /** All that the acts of an endpoint write are I frames that do not poll, and receive-ready frames. */
  lemma {:induction false} PlayBytes(e: Endpoint, acts: seq<Act>)
    requires WellFormed(e)
    ensures forall i: nat | i < |Play(e, acts).1| :: IsLinkByte(Play(e, acts).1[i].ctrl)
  {
    hide Received, Queued, Resent, IsLinkByte;
    if |acts| > 0 {
      PlayBytes(e, acts[..|acts| - 1]);
      ActedBytes(Play(e, acts[..|acts| - 1]).0, acts[|acts| - 1]);
    }
  }

  lemma ActedBytes(e: Endpoint, act: Act)
    requires WellFormed(e)
    ensures forall i: nat | i < |Acted(e, act).1| :: IsLinkByte(Acted(e, act).1[i].ctrl)
  {
    hide Received, Queued, ResentFrom;
    match act
    case Queueing(chunk) => QueuedBits(e, chunk);
    case Receiving(f) => ReceivedBits(e, f);
    case Resending => ResentBytes(e, e.va);
  }

  lemma ReachedOne(e0: Endpoint, w0: seq<Frame>, acts: seq<Act>, e: Endpoint, w: seq<Frame>, act: Act)
    requires Reached(e0, w0, acts, e, w)
    requires act.Queueing? ==> Outstanding(e) < WINDOW
    ensures WellFormed(e) && Reached(e0, w0, acts + [act], Acted(e, act).0, w + Acted(e, act).1)
    ensures ChunksOf(acts + [act]) == ChunksOf(acts) + if act.Queueing? then [act.chunk] else []
  {
    hide Acted, Outstanding;
    assert (acts + [act])[..|acts|] == acts;
    assert w0 + Play(e0, acts).1 + Acted(e, act).1 == w0 + (Play(e0, acts).1 + Acted(e, act).1);
  }

  lemma NothingReached(e: Endpoint, w: seq<Frame>)
    requires WellFormed(e)
    ensures Reached(e, w, [], e, w) && ChunksOf([]) == [] && Answer([], [])
  {
  }

  lemma AckEnd(e: Endpoint, nr: nat)
    requires e.va < 8 && nr < 8
    ensures e.va == nr ==> Ax25Link.AckUpto(e, nr) == e
  {
  }

  lemma AckStep(e: Endpoint, nr: nat)
    requires e.va < 8 && nr < 8 && e.va != nr
    ensures Ax25Link.AckUpto(e, nr) == Ax25Link.AckUpto(e.(unacked := e.unacked - {e.va}, va := (e.va + 1) % 8), nr)
  {
  }

  lemma ResentEnd(e: Endpoint)
    requires e.vs < 8
    ensures ResentFrom(e, e.vs) == []
  {
  }

  lemma ResentStep(e: Endpoint, n: nat, w: seq<Frame>)
    requires e.vs < 8 && n < 8 && n != e.vs
    ensures w + ResentFrom(e, n) ==
      (if n in e.unacked then w + [Frame(IFrame(n, e.vr, false), e.unacked[n])] else w) + ResentFrom(e, (n + 1) % 8)
  {
    hide IFrame, ResentFrom;
    ResentUnfold(e, n);
    var rest := ResentFrom(e, (n + 1) % 8);
    var one := if n in e.unacked then [Frame(IFrame(n, e.vr, false), e.unacked[n])] else [];
    assert w + (one + rest) == w + one + rest;
    assert n !in e.unacked ==> w + one == w;
  }

  lemma ResentUnfold(e: Endpoint, n: nat)
    requires e.vs < 8 && n < 8 && n != e.vs
    ensures ResentFrom(e, n) ==
      (if n in e.unacked then [Frame(IFrame(n, e.vr, false), e.unacked[n])] else []) + ResentFrom(e, (n + 1) % 8)
  {
    hide IFrame;
  }

  /** Why a wait ended early. */
  predicate Stopped(outcome: Outcome, readings: seq<Reading>, used: nat) {
    && (outcome.Waiting? ==> used == |readings|)
    && (outcome.LinkClosed? ==> used < |readings| && readings[used].Closed?)
  }

  class AX25Stream {
    const block_size: nat
    const connect_retries: nat
    var vs: nat
    var vr: nat
    var va: nat
    var unacked: map<nat, bytes>
    var rxbuf: bytes
    /** Everything `_tx` has written. */
    var written: seq<Frame>

    function Model(): Endpoint
      reads this
    {
      Endpoint(Stream, vs, vr, va, unacked, rxbuf)
    }

    predicate Valid()
      reads this
    {
      vs < 8 && vr < 8 && va < 8 && 1 <= block_size <= 255
    }

    constructor (block_size: int, connect_retries: nat)
      ensures Valid() && Model() == Endpoint(Stream, 0, 0, 0, map[], []) && written == []
      ensures 1 <= block_size <= 255 ==> this.block_size == block_size
    {
      this.block_size := if block_size < 1 then 1 else if block_size > 255 then 255 else block_size;
      this.connect_retries := connect_retries;
      vs, vr, va, unacked, rxbuf, written := 0, 0, 0, map[], [], [];
    }

    method AckUpto(peer_nr: nat)
      requires Valid() && peer_nr < 8
      modifies this`va, this`unacked
      ensures Valid() && Model() == Ax25Link.AckUpto(old(Model()), peer_nr)
    {
      hide Ahead, Ax25Link.AckUpto;
      AckEnd(Model(), peer_nr);
      while va != peer_nr
        invariant Valid() && Ax25Link.AckUpto(Model(), peer_nr) == Ax25Link.AckUpto(old(Model()), peer_nr)
        decreases Ahead(va, peer_nr)
      {
        AckStep(Model(), peer_nr);
        NextAhead(va, peer_nr);
        unacked := unacked - {va};
        va := (va + 1) % 8;
      }
      AckEnd(Model(), peer_nr);
    }

    method AcceptIframe(f: Frame)
      requires Valid()
      modifies this`vr, this`rxbuf, this`written
      ensures Valid() && Model() == Accepted(old(Model()), f).0
      ensures written == old(written) + Accepted(old(Model()), f).1
      ensures |written| == |old(written)| + 1 && old(written) <= written
      ensures IsReady(written[|old(written)|], vr, Ns(f.ctrl) == old(vr) ==> f.ctrl / 16 % 2 == 1)
    {
      hide Rr, Ns;
      ReadyIs(vr, true);
      ReadyIs((vr + 1) % 8, PollBit(f.ctrl));
      if Ns(f.ctrl) == vr {
        vr := (vr + 1) % 8;
        if f.payload != [] {
          rxbuf := rxbuf + f.payload;
        }
        written := written + [Frame(Rr(vr, PollBit(f.ctrl)), [])];
      } else {
        written := written + [Frame(Rr(vr, true), [])];
      }
    }

    /** `_pump_once` when a frame has arrived. */
    method PumpOnce(f: Frame)
      requires Valid()
      modifies this
      ensures Valid() && Model() == Received(old(Model()), f).0
      ensures written == old(written) + Received(old(Model()), f).1
      ensures old(written) <= written && forall i: nat | |old(written)| <= i < |written| :: written[i].ctrl % 16 == 1
    {
      hide Ax25Link.AckUpto, IsI, IsS, Nr, PollBit, Rr;
      ReceivedBits(Model(), f);
      NrSmall(f.ctrl);
      if IsI(f.ctrl) || IsS(f.ctrl) {
        AckUpto(Nr(f.ctrl));
      }
      if IsI(f.ctrl) {
        AcceptIframe(f);
      } else if IsS(f.ctrl) && PollBit(f.ctrl) {
        written := written + [Frame(Rr(vr, true), [])];
      }
    }

    /** `recv`: up to `n` bytes, in the order they came in; none when the connection is closed. `reading` is what
        `_read_frame` gives if it is asked. */
    method Recv(n: nat, reading: Reading) returns (r: Option<bytes>)
      requires Valid()
      modifies this
      ensures Valid() && (r.None? <==> old(rxbuf) == [] && reading.Closed?)
      ensures var e := Pumped(old(Model()), reading);
        && (r.Some? ==> |r.value| == Min(n, |e.rx|) && r.value + rxbuf == e.rx && Model() == e.(rx := rxbuf))
        && (r.None? ==> Model() == old(Model()))
    {
      hide Received;
      if rxbuf == [] {
        if reading.Closed? {
          return None;
        }
        if reading.Timeout? {
          return Some([]);
        }
        PumpOnce(reading.frame);
      }
      var k := Min(n, |rxbuf|);
      r := Some(rxbuf[..k]);
      rxbuf := rxbuf[k..];
    }

    /** `_retransmit` */
    method Retransmit()
      requires Valid()
      modifies this`written
      ensures Valid() && written == old(written) + Resent(Model())
    {
      hide ResentFrom, IFrame;
      var n := va;
      ghost var e := Model();
      ResentEnd(e);
      while n != vs
        invariant n < 8 && written + ResentFrom(e, n) == old(written) + ResentFrom(e, va)
        invariant Valid() && Model() == e
        decreases (vs - n) % 8
      {
        ResentStep(e, n, written);
        if n in unacked {
          written := written + [Frame(IFrame(n, vr, false), unacked[n])];
        }
        n := (n + 1) % 8;
      }
    }

    /** The second half of `_send_chunk`. */
    method QueueChunk(chunk: bytes)
      requires Valid()
      modifies this
      ensures Valid() && Model() == Queued(old(Model()), chunk).0
      ensures written == old(written) + Queued(old(Model()), chunk).1
    {
      unacked := unacked[vs := chunk];
      written := written + [Frame(IFrame(vs, vr, false), chunk)];
      vs := (vs + 1) % 8;
    }

    /** One turn of the two waiting loops: pump a frame, or retransmit on a timeout. */
    method Wait(reading: Reading, ghost e0: Endpoint, ghost w0: seq<Frame>, ghost acts: seq<Act>)
      returns (pumped: bool, ghost acts': seq<Act>)
      requires Valid() && Reached(e0, w0, acts, Model(), written) && !reading.Closed?
      modifies this
      ensures Valid() && Reached(e0, w0, acts', Model(), written)
      ensures acts' == acts + [Turn(reading)] && ChunksOf(acts') == ChunksOf(acts)
      ensures pumped == reading.Got? && (!pumped ==> va == old(va) && vs == old(vs))
    {
      hide Reached, Received, Resent, ChunksOf;
      ghost var act := Turn(reading);
      ReachedOne(e0, w0, acts, Model(), written, act);
      acts' := acts + [act];
      if reading.Got? {
        PumpOnce(reading.frame);
        pumped := true;
      } else {
        Retransmit();
        pumped := false;
      }
    }

    /** `_send_chunk`: wait while the window is full, without a limit, then queue the chunk. */
    method SendChunk(chunk: bytes, readings: seq<Reading>, used0: nat, ghost e0: Endpoint, ghost w0: seq<Frame>,
                     ghost acts0: seq<Act>)
      returns (outcome: Outcome, used: nat, ghost acts: seq<Act>)
      requires Valid() && Reached(e0, w0, acts0, Model(), written)
      requires used0 <= |readings| && Answer(acts0, readings[..used0])
      modifies this
      ensures Valid() && Reached(e0, w0, acts, Model(), written)
      ensures used0 <= used <= |readings| && Answer(acts, readings[..used])
      ensures outcome.Sent? ==> ChunksOf(acts) == ChunksOf(acts0) + [chunk]
      ensures !outcome.Sent? ==> ChunksOf(acts) == ChunksOf(acts0) && Outstanding(Model()) >= WINDOW
      ensures Stopped(outcome, readings, used) && !outcome.NoAck?
      ensures (old(vs) - old(va)) % 8 < 7 ==> outcome.Sent? && used == used0
      ensures !outcome.Sent? ==> (vs - va) % 8 == 7
    {
      hide Reached, Queued, ChunksOf, Answer;
      used, acts := used0, acts0;
      while (vs - va) % 8 >= WINDOW
        invariant Valid() && Reached(e0, w0, acts, Model(), written) && ChunksOf(acts) == ChunksOf(acts0)
        invariant used0 <= used <= |readings| && Answer(acts, readings[..used])
        invariant if used == used0 then vs == old(vs) && va == old(va) else (old(vs) - old(va)) % 8 >= 7
        decreases |readings| - used
      {
        if used == |readings| {
          return Waiting, used, acts;
        }
        if readings[used].Closed? {
          return LinkClosed, used, acts;
        }
        AnswerOne(acts, readings, used, Turn(readings[used]));
        var pumped;
        pumped, acts := Wait(readings[used], e0, w0, acts);
        used := used + 1;
      }
      ReachedOne(e0, w0, acts, Model(), written, Queueing(chunk));
      AnswerOne(acts, readings, used, Queueing(chunk));
      QueueChunk(chunk);
      acts := acts + [Queueing(chunk)];
      outcome := Sent;
    }

    /** `_drain_window`: wait until nothing is outstanding, giving up after too many timeouts. */
    method DrainWindow(readings: seq<Reading>, used0: nat, ghost e0: Endpoint, ghost w0: seq<Frame>,
                       ghost acts0: seq<Act>)
      returns (outcome: Outcome, used: nat, ghost acts: seq<Act>)
      requires Valid() && Reached(e0, w0, acts0, Model(), written)
      requires used0 <= |readings| && Answer(acts0, readings[..used0])
      modifies this
      ensures Valid() && Reached(e0, w0, acts, Model(), written) && ChunksOf(acts) == ChunksOf(acts0)
      ensures used0 <= used <= |readings| && Answer(acts, readings[..used])
      ensures outcome.Sent? <==> va == vs
      ensures outcome.NoAck? ==> Timeouts(readings[used0..used]) == 8 * connect_retries + 1
      ensures Stopped(outcome, readings, used)
    {
      hide Reached, ChunksOf, Answer, Timeouts;
      used, acts := used0, acts0;
      var tries := 0;
      NoTimeouts(readings, used0);
      while va != vs
        invariant Valid() && Reached(e0, w0, acts, Model(), written) && ChunksOf(acts) == ChunksOf(acts0)
        invariant used0 <= used <= |readings| && Answer(acts, readings[..used])
        invariant tries == Timeouts(readings[used0..used]) <= connect_retries * (WINDOW + 1)
        decreases |readings| - used
      {
        if used == |readings| {
          return Waiting, used, acts;
        }
        if readings[used].Closed? {
          return LinkClosed, used, acts;
        }
        TimeoutsOne(readings, used0, used);
        AnswerOne(acts, readings, used, Turn(readings[used]));
        var pumped;
        pumped, acts := Wait(readings[used], e0, w0, acts);
        used := used + 1;
        if !pumped {
          tries := tries + 1;
          if tries > connect_retries * (WINDOW + 1) {
            return NoAck, used, acts;
          }
        }
      }
      outcome := Sent;
    }

    /** `send`: the data goes out in blocks, each queued only while the window has room, and the normal return means
        that nothing is outstanding. All it does is the acts reported; whatever ends it early, only a prefix of the
        blocks is queued. */
    method Send(data: bytes, readings: seq<Reading>) returns (outcome: Outcome, used: nat, ghost acts: seq<Act>)
      requires Valid()
      modifies this
      ensures Valid() && Reached(old(Model()), old(written), acts, Model(), written)
      ensures used <= |readings| && Answer(acts, readings[..used]) && Stopped(outcome, readings, used)
      ensures ChunksOf(acts) <= BlocksOf(data, block_size)
      ensures outcome.Sent? ==> ChunksOf(acts) == BlocksOf(data, block_size) && va == vs
      ensures !outcome.Sent? ==> va != vs
    {
      hide Reached, BlocksOf, ChunksOf, Answer;
      ghost var e0, w0 := Model(), written;
      acts := [];
      NothingReached(e0, w0);
      BlocksEnd(data, block_size);
      var i := 0;
      used := 0;
      while i < |data|
        invariant Valid() && Reached(e0, w0, acts, Model(), written) && i <= |data|
        invariant used <= |readings| && Answer(acts, readings[..used])
        invariant ChunksOf(acts) + BlocksOf(data[i..], block_size) == BlocksOf(data, block_size)
        decreases |data| - i
      {
        var chunk := data[i..Min(i + block_size, |data|)];
        NextBlock(data, block_size, i);
        outcome, used, acts := SendChunk(chunk, readings, used, e0, w0, acts);
        if outcome != Sent {
          return outcome, used, acts;
        }
        i := i + |chunk|;
      }
      BlocksEnd(data[i..], block_size);
      outcome, used, acts := DrainWindow(readings, used, e0, w0, acts);
    }
  }

  /** The endpoint `recv` takes its bytes from: with nothing buffered it pumps once. */
  function Pumped(e: Endpoint, reading: Reading): (r: Endpoint)
    requires WellFormed(e)
    ensures WellFormed(r)
  {
    if e.rx == [] && reading.Got? then Received(e, reading.frame).0 else e
  }

  lemma NrSmall(c: byte)
    ensures Nr(c) < 8
  {
  }

  lemma NoTimeouts(readings: seq<Reading>, used: nat)
    requires used <= |readings|
    ensures Timeouts(readings[used..used]) == 0
  {
  }
}
