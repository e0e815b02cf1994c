/** Two connected endpoints, joined by two first-in-first-out channels that may lose frames. Which frames are
    transmitted and lost, and when, is left open, and a stream may send again at any time, where the code waits for a
    timeout: the invariant holds for every such run. (`Progress` and `Liveness` let it send again in silence only.) */
module Arq {
  import opened Prelude
  import opened Ax25Link
  import opened Blocks

  // ---------------------------------------------------------------- the system

  /** A frame under way, with what it meant when it was sent and no receiver can see: the unbounded number of its
      chunk, how many chunks its sender had queued, and how many its sender had accepted. */
  datatype Packet = Packet(frame: Frame, num: nat, top: nat, ack: nat)

  /** One side: its endpoint, and its history: the chunks queued and accepted, how many it knows to be accepted, and the
      bytes already handed on by `recv`. */
  datatype Side = Side(e: Endpoint, sent: seq<bytes>, got: seq<bytes>, base: nat, taken: bytes)

  /** `ab` carries the packets from `a` to `b`, oldest first. */
  datatype State = State(a: Side, b: Side, ab: seq<Packet>, ba: seq<Packet>)

  /** What can happen: side `a` or side `b` queues a chunk, receives the next frame, sends its outstanding chunks again
      or hands on bytes; or the channel towards it loses a frame. */
  datatype Action = Queue(chunk: bytes) | Deliver | Resend | Take(n: nat) | Lose(i: nat)

  datatype Event = Event(atA: bool, act: Action)

  function Flip(s: State): State {
    State(s.b, s.a, s.ba, s.ab)
  }

  /** Frames put on a channel by `x`. Only I frames in `fs` carry numbers, starting at `num`. */
  function Stamped(fs: seq<Frame>, x: Side, num: nat): (r: seq<Packet>)
    ensures |r| == |fs|
  {
    seq(|fs|, i requires 0 <= i < |fs| => Packet(fs[i], num + i, |x.sent|, |x.got|))
  }

  predicate Enabled(s: State, act: Action)
    requires WellFormed(s.a.e)
  {
    match act
    case Queue(_) => Outstanding(s.a.e) < WINDOW
    case Deliver => s.ba != []
    case Resend => s.a.e.kind.Stream?
    case Take(n) => n <= |s.a.e.rx|
    case Lose(i) => i < |s.ba|
  }

  /** The step of side `a`. */
  function StepA(s: State, act: Action): State
    requires WellFormed(s.a.e) && Enabled(s, act)
  {
    match act
    case Queue(chunk) =>
      var (e, out) := Queued(s.a.e, chunk);
      var a := s.a.(e := e, sent := s.a.sent + [chunk]);
      s.(a := a, ab := s.ab + Stamped(out, a, |s.a.sent|))
    case Deliver =>
      var p := s.ba[0];
      var (e, out) := Received(s.a.e, p.frame);
      var taken := IsI(p.frame.ctrl) && Ns(p.frame.ctrl) == s.a.e.vr;
      var a := s.a.(e := e, base := p.ack, got := if taken then s.a.got + [p.frame.payload] else s.a.got);
      s.(a := a, ba := s.ba[1..], ab := s.ab + Stamped(out, a, 0))
    case Resend =>
      s.(ab := s.ab + Stamped(Resent(s.a.e), s.a, s.a.base))
    case Take(n) =>
      s.(a := s.a.(e := s.a.e.(rx := s.a.e.rx[n..]), taken := s.a.taken + s.a.e.rx[..n]))
    case Lose(i) =>
      s.(ba := s.ba[..i] + s.ba[i + 1..])
  }

  /** `t` follows `s` by the event `ev`. */
  ghost predicate Next(s: State, ev: Event, t: State) {
    && WellFormed(s.a.e) && WellFormed(s.b.e)
    && if ev.atA then Enabled(s, ev.act) && t == StepA(s, ev.act)
       else Enabled(Flip(s), ev.act) && t == Flip(StepA(Flip(s), ev.act))
  }

  function Fresh(kind: Kind): Side {
    Side(Endpoint(kind, 0, 0, 0, map[], []), [], [], 0, [])
  }

  /** The link just established. */
  function Initial(a: Kind, b: Kind): State {
    State(Fresh(a), Fresh(b), [], [])
  }

  // ---------------------------------------------------------------- the invariant

  /** The number under which chunk `n` travels and is kept. */
  function Mod8(n: nat): (m: nat)
    ensures m < 8
  {
    n % 8
  }

  predicate KeptAt(x: Side, n: nat)
    requires n < |x.sent|
  {
    Mod8(n) in x.e.unacked && x.e.unacked[Mod8(n)] == x.sent[n]
  }

  /** `m` is the number of an outstanding chunk. */
  ghost predicate IsOutstanding(x: Side, m: nat) {
    exists n: nat :: x.base <= n < |x.sent| && Mod8(n) == m
  }

  /** The outstanding chunks, and no others, are kept under their numbers modulo 8. */
  ghost predicate Kept(x: Side) {
    && (forall n: nat | x.base <= n < |x.sent| :: KeptAt(x, n))
    && (forall m: nat | m in x.e.unacked :: IsOutstanding(x, m))
  }

  /** A side by itself: its counters are its history modulo 8. */
  ghost predicate SideOk(x: Side) {
    && x.e.vs == Mod8(|x.sent|)
    && x.e.va == Mod8(x.base)
    && x.e.vr == Mod8(|x.got|)
    && x.base <= |x.sent| <= x.base + WINDOW
    && x.taken + x.e.rx == Flatten(x.got)
    && (x.e.kind.Stream? ==> Kept(x))
    && (x.e.kind.Gateway? ==> x.e.unacked == map[])
  }

  /** A packet on its way from `x` to `y`. A chunk under way is at most 7 behind the newest when it was sent, and `y`
      had then accepted none newer: so its number modulo 8 identifies it. */
  ghost predicate PacketOk(p: Packet, x: Side, y: Side) {
    && (IsI(p.frame.ctrl) || IsS(p.frame.ctrl))
    && Nr(p.frame.ctrl) == Mod8(p.ack)
    && |y.got| <= p.top <= |x.sent|
    && y.base <= p.ack <= |x.got|
    && (IsI(p.frame.ctrl) ==>
      && p.num < p.top <= p.num + WINDOW
      && p.frame.payload == x.sent[p.num]
      && Ns(p.frame.ctrl) == Mod8(p.num))
  }

  /** First in, first out: what a later packet reports is not older. */
  ghost predicate InOrder(c: seq<Packet>) {
    forall i: nat, j: nat | i < j < |c| :: c[i].top <= c[j].top && c[i].ack <= c[j].ack
  }

  ghost predicate ChannelOk(c: seq<Packet>, x: Side, y: Side) {
    (forall i: nat | i < |c| :: PacketOk(c[i], x, y)) && InOrder(c)
  }

  /** What `y` has accepted are the first chunks `x` queued, at least as many as `x` knows of. */
  ghost predicate Agree(x: Side, y: Side) {
    x.base <= |y.got| <= |x.sent| && y.got == x.sent[..|y.got|]
  }

  ghost predicate Inv(s: State) {
    && SideOk(s.a) && SideOk(s.b)
    && Agree(s.a, s.b) && Agree(s.b, s.a)
    && ChannelOk(s.ab, s.a, s.b) && ChannelOk(s.ba, s.b, s.a)
  }

  lemma InvFlip(s: State)
    requires Inv(s)
    ensures Inv(Flip(s))
  {
  }

  lemma InvInitial(a: Kind, b: Kind)
    ensures Inv(Initial(a, b))
  {
  }

  // ---------------------------------------------------------------- acknowledgements

  lemma OutstandingIs(x: Side)
    requires SideOk(x)
    ensures Outstanding(x.e) == |x.sent| - x.base
  {
    hide Kept, Flatten;
    Difference8(|x.sent|, x.base);
  }

  lemma Difference8(m: nat, n: nat)
    requires n <= m < n + 8
    ensures (Mod8(m) - Mod8(n)) % 8 == m - n
  {
  }

  /** Among eight consecutive numbers the remainder modulo 8 identifies each. */
  lemma Window8(m: nat, n: nat)
    requires Mod8(m) == Mod8(n) && (m <= n < m + 8 || n <= m < n + 8)
    ensures m == n
  {
  }

  /** Acknowledging up to `ack` drops exactly the chunks before it. */
  lemma {:induction false} AckKeeps(x: Side, ack: nat)
    requires SideOk(x) && x.e.kind.Stream? && x.base <= ack <= |x.sent|
    ensures x.e.va < 8 && SideOk(x.(e := AckUpto(x.e, Mod8(ack)), base := ack))
    decreases ack - x.base
  {
    if x.base < ack {
      var x' := x.(e := x.e.(unacked := x.e.unacked - {x.e.va}, va := (x.e.va + 1) % 8), base := x.base + 1);
      assert x.e.va != Mod8(ack) by {
        if x.e.va == Mod8(ack) { Window8(x.base, ack); }
      }
      DropOldest(x);
      AckKeeps(x', ack);
      assert x'.(e := AckUpto(x'.e, Mod8(ack)), base := ack) == x.(e := AckUpto(x.e, Mod8(ack)), base := ack);
    }
  }

  lemma Mod8Next(n: nat)
    ensures (Mod8(n) + 1) % 8 == Mod8(n + 1)
  {
  }

  lemma DropOldest(x: Side)
    requires SideOk(x) && x.e.kind.Stream? && x.base < |x.sent|
    ensures SideOk(x.(e := x.e.(unacked := x.e.unacked - {x.e.va}, va := (x.e.va + 1) % 8), base := x.base + 1))
  {
    hide Mod8, Flatten;
    var x' := x.(e := x.e.(unacked := x.e.unacked - {x.e.va}, va := (x.e.va + 1) % 8), base := x.base + 1);
    Mod8Next(x.base);
    forall n: nat | x'.base <= n < |x'.sent|
      ensures KeptAt(x', n)
    {
      assert KeptAt(x, n);
      if Mod8(n) == Mod8(x.base) { Window8(x.base, n); }
    }
    forall m: nat | m in x'.e.unacked
      ensures IsOutstanding(x', m)
    {
      assert IsOutstanding(x, m);
    }
  }

  /** `_ack_upto` believes any N(R), also one from outside the window. The exact condition under which what it leaves is
      still the outstanding part of the history: the N(R) is no further from the oldest outstanding number than the next
      number to use. A stale N(R) that a channel repeats or reorders fails it, so the channels here keep their order. */
  lemma AckSafe(x: Side, nr: nat)
    requires SideOk(x) && x.e.kind.Stream? && nr < 8
    ensures x.e.va < 8
    ensures Ahead(x.e.va, nr) <= Outstanding(x.e) <==>
      exists ack: nat :: x.base <= ack <= |x.sent| && SideOk(x.(e := AckUpto(x.e, nr), base := ack))
  {
    hide Kept, Flatten, AckUpto, KeptAt, IsOutstanding, Mod8, Ahead, Outstanding;
    OutstandingIs(x);
    var d := Ahead(x.e.va, nr);
    Offset8(x.base, nr);
    if d <= Outstanding(x.e) {
      AckKeeps(x, x.base + d);
      assert SideOk(x.(e := AckUpto(x.e, nr), base := x.base + d));
    }
    forall ack: nat | x.base <= ack <= |x.sent| && SideOk(x.(e := AckUpto(x.e, nr), base := ack))
      ensures d <= Outstanding(x.e)
    {
      Window8(ack, x.base + d);
    }
  }

  lemma Offset8(base: nat, nr: nat)
    requires nr < 8
    ensures Mod8(base + Ahead(Mod8(base), nr)) == nr == Mod8(nr)
  {
  }

  /** What `_ack_upto` keeps, whatever the N(R): the chunks whose numbers are not passed on the way to it. */
  lemma {:induction false} AckDrops(e: Endpoint, nr: nat)
    requires e.va < 8 && nr < 8
    ensures forall m | m in AckUpto(e, nr).unacked ::
      m in e.unacked && AckUpto(e, nr).unacked[m] == e.unacked[m]
    ensures forall m | m in e.unacked ::
      m in AckUpto(e, nr).unacked <==> m >= 8 || Ahead(e.va, nr) <= Ahead(e.va, m)
    decreases Ahead(e.va, nr)
  {
    hide Ahead;
    NextAhead(e.va, nr);
    if e.va != nr {
      var e1 := e.(unacked := e.unacked - {e.va}, va := (e.va + 1) % 8);
      AckDrops(e1, nr);
      forall m | m in e.unacked
        ensures m in AckUpto(e, nr).unacked <==> m >= 8 || Ahead(e.va, nr) <= Ahead(e.va, m)
      {
        if m < 8 { NextAhead(e.va, m); }
      }
    }
  }

  /** Told an N(R) from outside the window, a stream forgets every outstanding chunk: it can never send it again. */
  lemma StaleForgets(x: Side, nr: nat)
    requires SideOk(x) && x.e.kind.Stream? && nr < 8 && x.e.va < 8 && Outstanding(x.e) < Ahead(x.e.va, nr)
    ensures AckUpto(x.e, nr).unacked == map[]
  {
    hide Flatten, AckUpto, Mod8, Ahead, Outstanding;
    AckDrops(x.e, nr);
    OutstandingIs(x);
    forall m | m in x.e.unacked
      ensures m < 8 && Ahead(x.e.va, m) < Ahead(x.e.va, nr)
    {
      assert IsOutstanding(x, m);
      var n: nat :| x.base <= n < |x.sent| && Mod8(n) == m;
      Offset8(x.base, m);
      Window8(n, x.base + Ahead(x.e.va, m));
    }
  }
}
