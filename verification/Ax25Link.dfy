/** Connected mode: the control field helpers of ax25.py, and what one endpoint of rfsend.py or gateway.py does with its
    sequence numbers, as functions of the endpoint. */
module Ax25Link {
  import opened Prelude

  // ---------------------------------------------------------------- control fields

  predicate IsI(c: byte) { c % 2 == 0 }

  predicate IsS(c: byte) { c % 4 == 1 }

  predicate PollBit(c: byte) { c / 16 % 2 == 1 }

  /** N(S), the number of an I frame. */
  function Ns(c: byte): nat { c / 2 % 8 }

  /** N(R), the number the sender expects next. */
  function Nr(c: byte): nat { c / 32 % 8 }

  /** A receive-ready frame. The fields do not overlap, so `|` is a sum. */
  function Rr(n: nat, pf: bool): byte {
    0x01 + n % 8 * 32 + if pf then 0x10 else 0
  }

  function IFrame(send: nat, recv: nat, pf: bool): byte {
    send % 8 * 2 + recv % 8 * 32 + if pf then 0x10 else 0
  }

  /** The fields come back out of a control byte as they went in, and the two kinds of frame are told apart. */
  lemma ControlFields(send: nat, recv: nat, pf: bool)
    ensures var c := IFrame(send, recv, pf);
      IsI(c) && !IsS(c) && Ns(c) == send % 8 && Nr(c) == recv % 8 && PollBit(c) == pf
    ensures var c := Rr(recv, pf); IsS(c) && !IsI(c) && Nr(c) == recv % 8 && PollBit(c) == pf
  {
    Fields(0, send % 8, recv % 8, if pf then 1 else 0);
    Fields(1, 0, recv % 8, if pf then 1 else 0);
  }

  /** Bit 0, three bits, bit 4 and three bits make up a byte. */
  lemma Fields(low: bit, s: nat, r: nat, p: bit)
    requires s < 8 && r < 8 && (low == 1 ==> s == 0)
    ensures var c := low + 2 * s + 16 * p + 32 * r;
      c < 256 && c % 2 == low && c / 2 % 8 == s && c / 16 % 2 == p && c / 32 % 8 == r && (low == 1 ==> c % 4 == 1)
  {
  }

  /** The same on the byte itself, whose bits are, from the lowest, 0, N(S), P/F and N(R) in an I frame, and 1, 0, 0, 0,
      P/F and N(R) in a receive-ready frame (section 4.3 of AX.25 2.2). */
  lemma ControlBytes(send: nat, recv: nat, pf: bool)
    ensures var c := IFrame(send, recv, pf);
      c % 2 == 0 && c / 2 % 8 == send % 8 && c / 16 % 2 == (if pf then 1 else 0) && c / 32 == recv % 8
    ensures var c := Rr(recv, pf); c % 16 == 1 && c / 16 % 2 == (if pf then 1 else 0) && c / 32 == recv % 8
  {
    Fields(0, send % 8, recv % 8, if pf then 1 else 0);
    LowBits(recv % 8, if pf then 1 else 0);
  }

  lemma LowBits(r: nat, p: bit)
    requires r < 8
    ensures (1 + 16 * p + 32 * r) % 16 == 1 && (1 + 16 * p + 32 * r) / 16 % 2 == p && (1 + 16 * p + 32 * r) / 32 == r
  {
  }

  // ---------------------------------------------------------------- endpoints

  const WINDOW: nat := 7

  datatype Frame = Frame(ctrl: byte, payload: bytes)

  /** `AX25Stream` keeps what is unacknowledged and can send it again; the gateway does not. */
  datatype Kind = Stream | Gateway

  /** The sequence variables of one endpoint, the chunks awaiting acknowledgement, and the bytes taken in. */
  datatype Endpoint = Endpoint(kind: Kind, vs: nat, vr: nat, va: nat, unacked: map<nat, bytes>, rx: bytes)

  predicate WellFormed(e: Endpoint) {
    e.vs < 8 && e.vr < 8 && e.va < 8
  }

  /** How far number `m` lies ahead of number `va`, going round. */
  function Ahead(va: nat, m: nat): (d: nat)
    ensures d < 8
  {
    (m - va) % 8
  }

  lemma NextAhead(va: nat, m: nat)
    requires va < 8 && m < 8
    ensures Ahead(va, va) == 0 && (m != va ==> Ahead(va, m) > 0)
    ensures Ahead((va + 1) % 8, m) == if m == va then 7 else Ahead(va, m) - 1
  {
  }

  /** How many frames are outstanding, modulo 8. */
  function Outstanding(e: Endpoint): nat {
    (e.vs - e.va) % 8
  }

  /** `_ack_upto`: drop everything before `peer_nr`. */
  function AckUpto(e: Endpoint, peer_nr: nat): (r: Endpoint)
    requires e.va < 8 && peer_nr < 8
    ensures r == e.(va := peer_nr, unacked := r.unacked)
    decreases (peer_nr - e.va) % 8
  {
    if e.va == peer_nr then e
    else AckUpto(e.(unacked := e.unacked - {e.va}, va := (e.va + 1) % 8), peer_nr)
  }

  /** What both receivers do with the N(R) of an I or S frame. */
  function Acknowledged(e: Endpoint, nr: nat): (r: Endpoint)
    requires e.va < 8 && nr < 8
    ensures r == e.(va := nr, unacked := r.unacked)
  {
    if e.kind.Stream? then AckUpto(e, nr) else e.(va := nr)
  }

  /** `_accept_iframe`, and the same lines of `Gateway.handle`: take an I frame in sequence, and answer every one. */
  function Accepted(e: Endpoint, f: Frame): (Endpoint, seq<Frame>)
    requires e.vr < 8
  {
    if Ns(f.ctrl) == e.vr then
      var vr := (e.vr + 1) % 8;
      (e.(vr := vr, rx := e.rx + f.payload), [Frame(Rr(vr, PollBit(f.ctrl)), [])])
    else (e, [Frame(Rr(e.vr, true), [])])
  }

  /** `_pump_once` and `Gateway.handle` for one frame. */
  function Received(e: Endpoint, f: Frame): (Endpoint, seq<Frame>)
    requires WellFormed(e)
  {
    var e1 := if IsI(f.ctrl) || IsS(f.ctrl) then Acknowledged(e, Nr(f.ctrl)) else e;
    if IsI(f.ctrl) then Accepted(e1, f)
    else if e.kind.Stream? && IsS(f.ctrl) && PollBit(f.ctrl) then (e1, [Frame(Rr(e1.vr, true), [])])
    else (e1, [])
  }

  /** The second half of `_send_chunk`: number a chunk, keep it, send it. */
  function Queued(e: Endpoint, chunk: bytes): (Endpoint, seq<Frame>) {
    (e.(vs := (e.vs + 1) % 8, unacked := if e.kind.Stream? then e.unacked[e.vs := chunk] else e.unacked),
     [Frame(IFrame(e.vs, e.vr, false), chunk)])
  }

  /** `_retransmit` from number `n` on: every outstanding chunk again, oldest first. */
  function ResentFrom(e: Endpoint, n: nat): seq<Frame>
    requires e.vs < 8 && n < 8
    decreases (e.vs - n) % 8
  {
    if n == e.vs then []
    else (if n in e.unacked then [Frame(IFrame(n, e.vr, false), e.unacked[n])] else []) + ResentFrom(e, (n + 1) % 8)
  }

  function Resent(e: Endpoint): seq<Frame>
    requires WellFormed(e)
  {
    ResentFrom(e, e.va)
  }

  // ---------------------------------------------------------------- what is received, bit by bit

  /** An answer: receive-ready, with this number of the next frame and this final bit. */
  predicate IsReady(f: Frame, next: nat, final: bool) {
    f.payload == [] && f.ctrl % 16 == 1 && f.ctrl / 32 == next && f.ctrl / 16 % 2 == if final then 1 else 0
  }

  /** What any frame does to an endpoint, in terms of the bits of its control byte. An even byte is an I frame, with its
      number in the three bits behind the lowest; one that leaves 1 modulo 4 is an S frame. The upper three bits of both
      acknowledge. Bit 4 polls. */
  lemma ReceivedBits(e: Endpoint, f: Frame)
    requires WellFormed(e)
    ensures var (r, out) := Received(e, f);
      && r.kind == e.kind && r.vs == e.vs
      && r.va == (if f.ctrl % 2 == 0 || f.ctrl % 4 == 1 then f.ctrl / 32 else e.va)
      && (f.ctrl % 2 == 0 && f.ctrl / 2 % 8 == e.vr ==>
        && r.vr == (e.vr + 1) % 8 && r.rx == e.rx + f.payload
        && |out| == 1 && IsReady(out[0], r.vr, f.ctrl / 16 % 2 == 1))
      && (f.ctrl % 2 == 0 && f.ctrl / 2 % 8 != e.vr ==>
        r.vr == e.vr && r.rx == e.rx && |out| == 1 && IsReady(out[0], e.vr, true))
      && (f.ctrl % 2 == 1 ==> r.vr == e.vr && r.rx == e.rx)
      && (f.ctrl % 4 == 1 && e.kind.Stream? && f.ctrl / 16 % 2 == 1 ==> |out| == 1 && IsReady(out[0], e.vr, true))
      && (f.ctrl % 2 == 1 && !(f.ctrl % 4 == 1 && e.kind.Stream? && f.ctrl / 16 % 2 == 1) ==> out == [])
      && (f.ctrl % 4 == 3 ==> r == e)
  {
    hide AckUpto, Rr, IsReady;
    UpperBits(f.ctrl);
    ReadyIs((e.vr + 1) % 8, f.ctrl / 16 % 2 == 1);
    ReadyIs(e.vr, true);
  }

  lemma ReadyIs(next: nat, final: bool)
    requires next < 8
    ensures IsReady(Frame(Rr(next, final), []), next, final)
  {
    ControlBytes(0, next, final);
  }

  lemma UpperBits(c: byte)
    ensures c / 32 % 8 == c / 32
  {
  }

  /** What is queued goes out as an I frame with the two numbers, and without a poll. */
  lemma QueuedBits(e: Endpoint, chunk: bytes)
    requires WellFormed(e)
    ensures var (r, out) := Queued(e, chunk);
      && r.vs == (e.vs + 1) % 8 && |out| == 1 && out[0].payload == chunk
      && out[0].ctrl % 2 == 0 && out[0].ctrl / 2 % 8 == e.vs && out[0].ctrl / 16 % 2 == 0 && out[0].ctrl / 32 == e.vr
  {
    ControlBytes(e.vs, e.vr, false);
  }

  /** I frames without a poll, and receive-ready frames. */
  predicate IsLinkByte(c: byte) {
    (c % 2 == 0 && c / 16 % 2 == 0) || c % 16 == 1
  }

  lemma {:induction false} ResentBytes(e: Endpoint, n: nat)
    requires e.vs < 8 && n < 8
    ensures forall i | 0 <= i < |ResentFrom(e, n)| ::
      ResentFrom(e, n)[i].ctrl % 2 == 0 && IsLinkByte(ResentFrom(e, n)[i].ctrl)
    decreases Ahead(n, e.vs)
  {
    hide IFrame;
    if n != e.vs {
      NextAhead(n, e.vs);
      ControlBytes(n, e.vr, false);
      ResentBytes(e, (n + 1) % 8);
    }
  }
}
