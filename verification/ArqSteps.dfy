/** Every step of either side and of the channels keeps the invariant. */
module ArqSteps {
  import opened Prelude
  import opened Ax25Link
  import opened Blocks
  import opened Arq

  // ---------------------------------------------------------------- channels

  /** A sender that has only queued and accepted more does not spoil what is under way. */
  lemma ChannelGrows(c: seq<Packet>, x: Side, x': Side, y: Side)
    requires ChannelOk(c, x, y) && x.sent <= x'.sent && |x.got| <= |x'.got|
    ensures ChannelOk(c, x', y)
  {
    hide Mod8;
    forall i: nat | i < |c|
      ensures PacketOk(c[i], x', y)
    {
      assert PacketOk(c[i], x, y);
    }
  }

  lemma ChannelAppends(c: seq<Packet>, d: seq<Packet>, x: Side, y: Side)
    requires ChannelOk(c, x, y)
    requires forall i: nat | i < |d| :: PacketOk(d[i], x, y) && d[i].top == |x.sent| && d[i].ack == |x.got|
    ensures ChannelOk(c + d, x, y)
  {
    forall i: nat | i < |c|
      ensures c[i].top <= |x.sent| && c[i].ack <= |x.got|
    {
      assert PacketOk(c[i], x, y);
    }
    hide PacketOk;
  }

  /** Removing a packet leaves the order of the others. */
  lemma ChannelLoses(c: seq<Packet>, i: nat, x: Side, y: Side)
    requires ChannelOk(c, x, y) && i < |c|
    ensures ChannelOk(c[..i] + c[i + 1..], x, y)
  {
    hide PacketOk;
    var d := c[..i] + c[i + 1..];
    forall j: nat | j < |d|
      ensures PacketOk(d[j], x, y)
    {
      assert d[j] == c[if j < i then j else j + 1];
    }
  }

  /** Receiving the oldest packet: the receiver moves up to what it reports, never past what later ones do. */
  lemma ChannelDelivers(c: seq<Packet>, x: Side, y: Side, y': Side)
    requires ChannelOk(c, x, y) && c != [] && y'.base == c[0].ack && |y'.got| <= c[0].top
    ensures ChannelOk(c[1..], x, y')
  {
    forall i: nat | i < |c[1..]|
      ensures PacketOk(c[1..][i], x, y')
    {
      assert PacketOk(c[i + 1], x, y);
      assert c[0].top <= c[i + 1].top && c[0].ack <= c[i + 1].ack;
    }
    hide PacketOk;
  }

  // ---------------------------------------------------------------- steps

  lemma QueueKeeps(s: State, chunk: bytes)
    requires Inv(s) && WellFormed(s.a.e) && Enabled(s, Queue(chunk))
    ensures Inv(StepA(s, Queue(chunk)))
  {
    hide Mod8, Flatten, InOrder, ChannelOk, PacketOk;
    var t := StepA(s, Queue(chunk));
    var n := |s.a.sent|;
    QueueSide(s.a, chunk);
    var p := t.ab[|s.ab|];
    ChannelGrows(s.ab, s.a, t.a, s.b);
    FreshPacket(p, t.a, s.b, n, s.a.e.vr);
    ChannelAppends(s.ab, [p], t.a, s.b);
    assert t.ab == s.ab + [p];
    ChannelSameReceiver(s.ba, s.b, s.a, t.a);
  }

  lemma ChannelSameReceiver(c: seq<Packet>, x: Side, y: Side, y': Side)
    requires ChannelOk(c, x, y) && y'.base == y.base && y'.got == y.got
    ensures ChannelOk(c, x, y')
  {
    hide Mod8, InOrder;
    forall i: nat | i < |c|
      ensures PacketOk(c[i], x, y')
    {
      assert PacketOk(c[i], x, y);
    }
  }

  lemma FreshPacket(p: Packet, x: Side, y: Side, n: nat, vr: nat)
    requires n < |x.sent| <= n + WINDOW
    requires p == Packet(Frame(IFrame(Mod8(n), vr, false), x.sent[n]), n, |x.sent|, |x.got|)
    requires |y.got| <= |x.sent| && y.base <= |x.got| && vr == Mod8(|x.got|)
    ensures PacketOk(p, x, y)
  {
    ControlFields(Mod8(n), vr, false);
    hide IFrame, IsI, IsS, Ns, Nr;
  }

  /** With fewer than 7 chunks outstanding, the next one gets a number that is free. */
  lemma QueueSide(x: Side, chunk: bytes)
    requires SideOk(x) && Outstanding(x.e) < WINDOW
    ensures |x.sent| < x.base + WINDOW
    ensures SideOk(x.(e := Queued(x.e, chunk).0, sent := x.sent + [chunk]))
  {
    var x' := x.(e := Queued(x.e, chunk).0, sent := x.sent + [chunk]);
    OutstandingIs(x);
    Mod8Next(|x.sent|);
    hide Mod8, Flatten, Outstanding;
    if x.e.kind.Stream? {
      forall n: nat | x'.base <= n < |x'.sent|
        ensures KeptAt(x', n)
      {
        if n < |x.sent| {
          assert KeptAt(x, n);
          if Mod8(n) == Mod8(|x.sent|) { Window8(n, |x.sent|); }
        }
      }
      forall m: nat | m in x'.e.unacked
        ensures IsOutstanding(x', m)
      {
        if m == Mod8(|x.sent|) {
          assert x'.base <= |x.sent| < |x'.sent|;
        } else {
          assert IsOutstanding(x, m);
        }
      }
    }
  }

  /** In sequence means: exactly the chunk that comes next. Modulo 8 no other chunk under way can be taken for it. */
  lemma NeverConfused(p: Packet, x: Side, y: Side)
    requires SideOk(x) && SideOk(y) && Agree(x, y) && PacketOk(p, x, y) && IsI(p.frame.ctrl)
    ensures Ns(p.frame.ctrl) == y.e.vr <==> p.num == |y.got|
  {
    hide Flatten, Kept, IsI, IsS, Ns, Nr;
    if Mod8(p.num) == Mod8(|y.got|) {
      Window8(p.num, |y.got|);
    }
  }

  /** The acknowledgement a packet carries moves the receiver's window up to it. */
  lemma AcknowledgeSide(x: Side, ack: nat)
    requires SideOk(x) && x.base <= ack <= |x.sent|
    ensures x.e.va < 8 && SideOk(x.(e := Acknowledged(x.e, Mod8(ack)), base := ack))
  {
    if x.e.kind.Stream? {
      AckKeeps(x, ack);
    }
  }

  lemma KeptSame(x: Side, x': Side)
    requires Kept(x) && x'.base == x.base && x'.sent == x.sent && x'.e.unacked == x.e.unacked
    ensures Kept(x')
  {
    hide Mod8;
    forall n: nat | x'.base <= n < |x'.sent|
      ensures KeptAt(x', n)
    {
      assert KeptAt(x, n);
    }
    forall m: nat | m in x'.e.unacked
      ensures IsOutstanding(x', m)
    {
      assert IsOutstanding(x, m);
    }
  }

  /** Taking in a chunk in sequence, or answering one that is not. */
  lemma AcceptSide(x: Side, f: Frame, taken: bool)
    requires SideOk(x) && taken == (Ns(f.ctrl) == x.e.vr)
    ensures x.e.vr < 8 && SideOk(x.(e := Accepted(x.e, f).0, got := if taken then x.got + [f.payload] else x.got))
  {
    hide Ns, Rr, PollBit;
    Mod8Next(|x.got|);
    hide Mod8;
    if x.e.kind.Stream? {
      KeptSame(x, x.(e := Accepted(x.e, f).0, got := if taken then x.got + [f.payload] else x.got));
    }
    if taken {
      assert (x.got + [f.payload])[..|x.got|] == x.got;
      assert x.taken + (x.e.rx + f.payload) == x.taken + x.e.rx + f.payload;
    }
  }

  /** Every answer is a receive-ready frame with the number of chunks accepted. */
  lemma AnswerIsReport(x: Side, f: Frame, out: seq<Frame>, x': Side, y: Side)
    requires WellFormed(x.e) && out == Received(x.e, f).1 && x'.e == Received(x.e, f).0 && SideOk(x')
    requires |y.got| <= |x'.sent| && y.base <= |x'.got|
    ensures forall i: nat | i < |out| :: PacketOk(Stamped(out, x', 0)[i], x', y)
  {
    hide Flatten, Kept, AckUpto, IsI, IsS, Ns, PollBit;
    forall i: nat | i < |out|
      ensures PacketOk(Stamped(out, x', 0)[i], x', y)
    {
      assert exists pf: bool :: out[i] == Frame(Rr(x'.e.vr, pf), []);
      var pf: bool :| out[i] == Frame(Rr(x'.e.vr, pf), []);
      ControlFields(0, x'.e.vr, pf);
    }
  }

  /** What side `a` becomes by receiving a packet. */
  function After(x: Side, p: Packet): Side
    requires WellFormed(x.e)
  {
    var taken := IsI(p.frame.ctrl) && Ns(p.frame.ctrl) == x.e.vr;
    x.(e := Received(x.e, p.frame).0, base := p.ack, got := if taken then x.got + [p.frame.payload] else x.got)
  }

  lemma ReceiveSide(p: Packet, x: Side, y: Side)
    requires SideOk(x) && SideOk(y) && Agree(x, y) && Agree(y, x) && PacketOk(p, y, x)
    ensures WellFormed(x.e) && SideOk(After(x, p)) && Agree(y, After(x, p)) && Agree(After(x, p), y)
    ensures |After(x, p).got| <= p.top
  {
    AcknowledgeSide(x, p.ack);
    var x1 := x.(e := Acknowledged(x.e, Mod8(p.ack)), base := p.ack);
    if IsI(p.frame.ctrl) {
      AcceptSide(x1, p.frame, Ns(p.frame.ctrl) == x.e.vr);
      NeverConfused(p, y, x);
    }
    hide Flatten, Kept, IsS, IsI, Ns, Nr, Rr, PollBit, Mod8;
  }

  lemma DeliverKeeps(s: State)
    requires Inv(s) && WellFormed(s.a.e) && s.ba != []
    ensures Inv(StepA(s, Deliver))
  {
    hide SideOk, PacketOk, InOrder, Received, Stamped, IsI, Ns, Agree;
    var p, t := s.ba[0], StepA(s, Deliver);
    assert PacketOk(p, s.b, s.a);
    ReceiveSide(p, s.a, s.b);
    assert t.a == After(s.a, p);
    ChannelDelivers(s.ba, s.b, s.a, t.a);
    AfterGrows(s.a, p);
    ChannelGrows(s.ab, s.a, t.a, s.b);
    var out := Received(s.a.e, p.frame).1;
    AgreeBounds(t.a, s.b);
    AgreeBounds(s.b, t.a);
    AnswerIsReport(s.a, p.frame, out, t.a, s.b);
    StampedMarks(out, t.a, 0);
    ChannelAppends(s.ab, Stamped(out, t.a, 0), t.a, s.b);
  }

  lemma AfterGrows(x: Side, p: Packet)
    requires WellFormed(x.e)
    ensures After(x, p).sent == x.sent && |x.got| <= |After(x, p).got| && After(x, p).base == p.ack
  {
  }

  lemma AgreeBounds(x: Side, y: Side)
    requires Agree(x, y)
    ensures x.base <= |y.got| <= |x.sent|
  {
  }

  lemma StampedMarks(fs: seq<Frame>, x: Side, num: nat)
    ensures forall i: nat | i < |fs| :: Stamped(fs, x, num)[i].top == |x.sent| && Stamped(fs, x, num)[i].ack == |x.got|
  {
  }

  // ---------------------------------------------------------------- retransmission

  lemma ResentUnfolds(x: Side, n: nat)
    requires SideOk(x) && x.e.kind.Stream? && x.base <= n <= |x.sent|
    ensures WellFormed(x.e)
    ensures ResentFrom(x.e, Mod8(n)) == if n == |x.sent| then [] else
      [Frame(IFrame(Mod8(n), x.e.vr, false), x.sent[n])] + ResentFrom(x.e, Mod8(n + 1))
  {
    hide Flatten, IFrame, Mod8;
    Mod8Next(n);
    if n < |x.sent| {
      if Mod8(n) == Mod8(|x.sent|) { Window8(n, |x.sent|); }
      assert KeptAt(x, n);
    }
  }

  /** `_retransmit` sends exactly the outstanding chunks, oldest first, each under its old number. */
  lemma {:induction false} ResentIs(x: Side, n: nat)
    requires SideOk(x) && x.e.kind.Stream? && x.base <= n <= |x.sent|
    ensures WellFormed(x.e)
    ensures |ResentFrom(x.e, Mod8(n))| == |x.sent| - n
    ensures forall i: nat | i < |x.sent| - n ::
      ResentFrom(x.e, Mod8(n))[i] == Frame(IFrame(Mod8(n + i), x.e.vr, false), x.sent[n + i])
    decreases |x.sent| - n
  {
    hide Flatten, IFrame, Mod8, Kept, KeptAt, ResentFrom;
    ResentUnfolds(x, n);
    if n < |x.sent| {
      ResentIs(x, n + 1);
      var r, rest := ResentFrom(x.e, Mod8(n)), ResentFrom(x.e, Mod8(n + 1));
      forall i: nat | i < |x.sent| - n
        ensures r[i] == Frame(IFrame(Mod8(n + i), x.e.vr, false), x.sent[n + i])
      {
        if i > 0 {
          var j: nat := i - 1;
          assert r[i] == rest[j] && rest[j] == Frame(IFrame(Mod8(n + 1 + j), x.e.vr, false), x.sent[n + 1 + j]);
          assert n + 1 + j == n + i;
        }
      }
    }
  }

  lemma ResendKeeps(s: State)
    requires Inv(s) && WellFormed(s.a.e) && s.a.e.kind.Stream?
    ensures Inv(StepA(s, Resend))
  {
    hide Mod8, Flatten, InOrder, ChannelOk, PacketOk, IFrame, ResentFrom;
    var out := Resent(s.a.e);
    ResentIs(s.a, s.a.base);
    var d := Stamped(out, s.a, s.a.base);
    forall i: nat | i < |d|
      ensures PacketOk(d[i], s.a, s.b)
    {
      FreshPacket(d[i], s.a, s.b, s.a.base + i, s.a.e.vr);
    }
    StampedMarks(out, s.a, s.a.base);
    ChannelAppends(s.ab, d, s.a, s.b);
  }

  lemma TakeKeeps(s: State, n: nat)
    requires Inv(s) && WellFormed(s.a.e) && n <= |s.a.e.rx|
    ensures Inv(StepA(s, Take(n)))
  {
    hide Mod8, Flatten, InOrder, ChannelOk, Kept;
    var t := StepA(s, Take(n));
    assert s.a.taken + s.a.e.rx[..n] + s.a.e.rx[n..] == s.a.taken + s.a.e.rx;
    if s.a.e.kind.Stream? {
      KeptSame(s.a, t.a);
    }
    ChannelGrows(s.ab, s.a, t.a, s.b);
    ChannelSameReceiver(s.ba, s.b, s.a, t.a);
  }

  lemma LoseKeeps(s: State, i: nat)
    requires Inv(s) && WellFormed(s.a.e) && i < |s.ba|
    ensures Inv(StepA(s, Lose(i)))
  {
    hide SideOk, Agree, PacketOk, InOrder;
    ChannelLoses(s.ba, i, s.b, s.a);
  }

  lemma StepKeeps(s: State, act: Action)
    requires Inv(s) && WellFormed(s.a.e) && Enabled(s, act)
    ensures Inv(StepA(s, act))
  {
    hide Inv, StepA;
    match act
    case Queue(chunk) => QueueKeeps(s, chunk);
    case Deliver => DeliverKeeps(s);
    case Resend => ResendKeeps(s);
    case Take(n) => TakeKeeps(s, n);
    case Lose(i) => LoseKeeps(s, i);
  }

  /** Every event keeps the invariant. */
  lemma NextKeeps(s: State, ev: Event, t: State)
    requires Inv(s) && Next(s, ev, t)
    ensures Inv(t)
  {
    hide Inv, StepA, Enabled;
    if ev.atA {
      StepKeeps(s, ev.act);
    } else {
      InvFlip(s);
      StepKeeps(Flip(s), ev.act);
      InvFlip(StepA(Flip(s), ev.act));
    }
  }
}
