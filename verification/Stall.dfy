/** The gateway keeps no copy of what it has sent (gateway.py): exactly when its chunks can still arrive. */
module Stall {
  import opened Prelude
  import opened Ax25Link
  import opened Arq
  import opened ArqSteps
  import opened ArqRuns
  import opened Progress

  /** Chunk `n` of a gateway has been sent, has not been accepted, and is on the channel no more. */
  ghost predicate LostAt(s: State, n: nat) {
    && s.a.e.kind.Gateway?
    && |s.b.got| <= n < |s.a.sent|
    && Misses(s.ab, n)
  }

  /** The next chunk side `b` waits for is lost. */
  ghost predicate Lost(s: State) {
    LostAt(s, |s.b.got|)
  }

  ghost predicate Misses(c: seq<Packet>, n: nat) {
    forall i: nat | i < |c| :: IsI(c[i].frame.ctrl) ==> c[i].num != n
  }

  lemma MissesMore(c: seq<Packet>, d: seq<Packet>, n: nat)
    requires Misses(c, n) && Misses(d, n)
    ensures Misses(c + d, n)
  {
    hide IsI;
  }

  lemma MissesLess(c: seq<Packet>, i: nat, n: nat)
    requires Misses(c, n) && i < |c|
    ensures Misses(c[1..], n) && Misses(c[..i] + c[i + 1..], n)
  {
    hide IsI;
    var d := c[..i] + c[i + 1..];
    forall j: nat | j < |d|
      ensures IsI(d[j].frame.ctrl) ==> d[j].num != n
    {
      assert d[j] == c[if j < i then j else j + 1];
    }
  }

  /** Reports are no chunks. */
  lemma Reports(e: Endpoint, f: Frame)
    requires WellFormed(e)
    ensures forall i: nat | i < |Received(e, f).1| :: !IsI(Received(e, f).1[i].ctrl)
  {
    hide AckUpto, Ns, Nr, PollBit;
    var out := Received(e, f).1;
    forall i: nat | i < |out|
      ensures !IsI(out[i].ctrl)
    {
      assert exists m: nat, pf: bool :: out[i] == Frame(Rr(m, pf), []);
      var m: nat, pf: bool :| out[i] == Frame(Rr(m, pf), []);
      ControlFields(0, m, pf);
    }
  }

  lemma ReportsMiss(e: Endpoint, f: Frame, x: Side, n: nat)
    requires WellFormed(e)
    ensures Misses(Stamped(Received(e, f).1, x, 0), n)
  {
    hide Received, IsI;
    Reports(e, f);
  }

  /** What side `a` does leaves it lost: a gateway does not send again. */
  lemma SenderLeavesLost(s: State, act: Action, n: nat)
    requires Inv(s) && LostAt(s, n) && WellFormed(s.a.e) && Enabled(s, act)
    ensures LostAt(StepA(s, act), n) && StepA(s, act).b.got == s.b.got
  {
    hide Inv, Misses, Received, IsI, Ns, Nr;
    match act
    case Queue(chunk) =>
      var t := StepA(s, act);
      var d := Stamped(Queued(s.a.e, chunk).1, t.a, |s.a.sent|);
      QueuedMisses(d, n, |s.a.sent|);
      MissesMore(s.ab, d, n);
    case Deliver =>
      var t := StepA(s, act);
      ReportsMiss(s.a.e, s.ba[0].frame, t.a, n);
      MissesMore(s.ab, Stamped(Received(s.a.e, s.ba[0].frame).1, t.a, 0), n);
      KindStays(s.a.e, s.ba[0].frame);
    case Take(_) =>
    case Lose(_) =>
  }

  lemma KindStays(e: Endpoint, f: Frame)
    requires WellFormed(e)
    ensures Received(e, f).0.kind == e.kind
  {
    hide IsI, IsS, Ns, Nr, AckUpto;
  }

  lemma QueuedMisses(d: seq<Packet>, n: nat, num: nat)
    requires |d| == 1 && d[0].num == num && n < num
    ensures Misses(d, n)
  {
  }

  /** What side `b` does leaves it lost: no chunk under way is taken for it. */
  lemma ReceiverLeavesLost(s: State, act: Action, n: nat)
    requires Inv(s) && LostAt(s, n) && WellFormed(s.b.e) && Enabled(Flip(s), act)
    ensures var t := Flip(StepA(Flip(s), act)); LostAt(t, n) && (n == |s.b.got| ==> t.b.got == s.b.got)
  {
    hide SideOk, Agree, InOrder, PacketOk, Misses, Received, IsI, Ns, Nr, Resent, Queued;
    match act
    case Deliver =>
      var p := s.ab[0];
      assert PacketOk(p, s.a, s.b);
      if IsI(p.frame.ctrl) {
        NeverConfused(p, s.a, s.b);
        FirstMissing(s.ab, n);
      }
      MissesLess(s.ab, 0, n);
    case Lose(i) =>
      MissesLess(s.ab, i, n);
    case Queue(_) =>
    case Take(_) =>
    case Resend =>
  }

  lemma FirstMissing(c: seq<Packet>, n: nat)
    requires Misses(c, n) && c != [] && IsI(c[0].frame.ctrl)
    ensures c[0].num != n
  {
  }

  lemma LostStays(s: State, ev: Event, t: State, n: nat)
    requires Inv(s) && LostAt(s, n) && Next(s, ev, t)
    ensures LostAt(t, n) && (n == |s.b.got| ==> t.b.got == s.b.got)
  {
    hide Inv, LostAt, StepA, Enabled;
    if ev.atA {
      SenderLeavesLost(s, ev.act, n);
    } else {
      ReceiverLeavesLost(s, ev.act, n);
    }
  }

  /** A single lost I frame of the gateway ends the flow for good: whatever the two sides and the channels do, the peer
      never accepts that chunk or a later one. */
  lemma {:induction false} LossIsFinal(states: seq<State>, events: seq<Event>, i: nat, j: nat, n: nat)
    requires Run(states, events) && Inv(states[0]) && i <= j < |states| && LostAt(states[i], n)
    ensures LostAt(states[j], n) && |states[j].b.got| <= n
    ensures n == |states[i].b.got| ==> states[j].b.got == states[i].b.got
    decreases j - i
  {
    hide Inv, Next, LostAt;
    if i < j {
      LossIsFinal(states, events, i, j - 1, n);
      RunKeeps(states, events, j - 1);
      LostStays(states[j - 1], events[j - 1], states[j], n);
    }
    LostMeans(states[j], n);
  }

  lemma LostMeans(s: State, n: nat)
    requires LostAt(s, n)
    ensures |s.b.got| <= n < |s.a.sent|
  {
  }

  lemma LostBlocks(s: State, t: State, n: nat)
    requires Inv(s) && LostAt(s, n) && Can(Freely, s, t)
    ensures |t.b.got| <= n
  {
    hide Inv, Next, LostAt;
    var states: seq<State>, events: seq<Event> :| Leads(Freely, s, t, states, events);
    LossIsFinal(states, events, 0, |events|, n);
  }

  // ---------------------------------------------------------------- when a chunk can arrive

  /** Packet `i` of the channel is the chunk side `b` waits for. */
  ghost predicate NextAt(s: State, i: nat) {
    i < |s.ab| && IsI(s.ab[i].frame.ctrl) && s.ab[i].num == |s.b.got|
  }

  /** One delivery: the chunk waited for is accepted, and nothing else is. */
  lemma OneDelivered(s: State) returns (t: State)
    requires Inv(s) && s.ab != []
    ensures Next(s, Event(false, Deliver), t) && Inv(t) && t.a == s.a && t.ab == s.ab[1..]
    ensures |t.b.got| == |s.b.got| + if NextAt(s, 0) then 1 else 0
  {
    hide SideOk, Agree, InOrder, PacketOk, Received, IsI, Ns, Nr;
    SideSmall(s);
    var p := s.ab[0];
    assert PacketOk(p, s.a, s.b);
    if IsI(p.frame.ctrl) {
      NeverConfused(p, s.a, s.b);
    }
    t := Flip(StepA(Flip(s), Deliver));
    assert Next(s, Event(false, Deliver), t);
    NextKeeps(s, Event(false, Deliver), t);
  }

  /** With the next chunk on the channel, delivering gets it across. */
  lemma {:induction false} NextArrives(s: State, i: nat) returns (t: State)
    requires Inv(s) && NextAt(s, i)
    ensures Can(Freely, s, t) && |t.b.got| > |s.b.got|
    decreases i
  {
    hide Inv, Can, Next, IsI;
    var u := OneDelivered(s);
    if |u.b.got| > |s.b.got| {
      t := u;
      Stay(Freely, t);
    } else {
      assert NextAt(u, i - 1);
      t := NextArrives(u, i - 1);
    }
    StepThen(Freely, s, Event(false, Deliver), u, t);
  }

  /** Exactly when the flow of a gateway can go on: when the next chunk is still on the channel. */
  lemma GoesOnIff(s: State)
    requires Inv(s) && s.a.e.kind.Gateway? && |s.b.got| < |s.a.sent|
    ensures !Lost(s) <==> exists t: State :: Can(Freely, s, t) && |t.b.got| > |s.b.got|
  {
    hide Inv, Can, IsI;
    if Lost(s) {
      forall t: State | Can(Freely, s, t)
        ensures |t.b.got| <= |s.b.got|
      {
        LostBlocks(s, t, |s.b.got|);
      }
    } else {
      var i: nat :| i < |s.ab| && IsI(s.ab[i].frame.ctrl) && s.ab[i].num == |s.b.got|;
      var t := NextArrives(s, i);
    }
  }

  // ---------------------------------------------------------------- when everything can arrive

  /** The chunks of a gateway are on the channel in the order of their numbers: it never sends one again. */
  ghost predicate Rising(c: seq<Packet>) {
    forall i: nat, j: nat | i < j < |c| && IsI(c[i].frame.ctrl) && IsI(c[j].frame.ctrl) :: c[i].num < c[j].num
  }

  /** Chunk `n` is on the channel. */
  ghost predicate Carries(c: seq<Packet>, n: nat) {
    exists i: nat :: i < |c| && IsI(c[i].frame.ctrl) && c[i].num == n
  }

  lemma RisingAppends(c: seq<Packet>, d: seq<Packet>, num: nat)
    requires Rising(c) && forall i: nat | i < |c| && IsI(c[i].frame.ctrl) :: c[i].num < num
    requires |d| <= 1 && forall i: nat | i < |d| && IsI(d[i].frame.ctrl) :: d[i].num >= num
    ensures Rising(c + d)
  {
    hide IsI;
  }

  lemma RisingReports(c: seq<Packet>, d: seq<Packet>)
    requires Rising(c) && forall i: nat | i < |d| :: !IsI(d[i].frame.ctrl)
    ensures Rising(c + d)
  {
    hide IsI;
  }

  lemma RisingLoses(c: seq<Packet>, i: nat)
    requires Rising(c) && i < |c|
    ensures Rising(c[1..]) && Rising(c[..i] + c[i + 1..])
  {
    hide IsI;
    var d := c[..i] + c[i + 1..];
    assert forall j: nat | j < |d| :: d[j] == c[if j < i then j else j + 1];
  }

  lemma NumsBelow(s: State)
    requires Inv(s)
    ensures forall i: nat | i < |s.ab| && IsI(s.ab[i].frame.ctrl) :: s.ab[i].num < |s.a.sent|
  {
    hide SideOk, Agree, InOrder, IsI, IsS, Ns, Nr;
    forall i: nat | i < |s.ab| && IsI(s.ab[i].frame.ctrl)
      ensures s.ab[i].num < |s.a.sent|
    {
      assert PacketOk(s.ab[i], s.a, s.b);
    }
  }

  lemma NextRising(s: State, ev: Event, t: State)
    requires Inv(s) && s.a.e.kind.Gateway? && Rising(s.ab) && Next(s, ev, t)
    ensures Rising(t.ab)
  {
    hide Inv, Rising, Received, IsI, Ns, Nr, Resent;
    NumsBelow(s);
    if ev.atA {
      match ev.act
      case Queue(chunk) =>
        RisingAppends(s.ab, Stamped(Queued(s.a.e, chunk).1, t.a, |s.a.sent|), |s.a.sent|);
      case Deliver =>
        Reports(s.a.e, s.ba[0].frame);
        RisingReports(s.ab, Stamped(Received(s.a.e, s.ba[0].frame).1, t.a, 0));
      case Take(_) =>
      case Lose(_) =>
    } else {
      match ev.act
      case Deliver => RisingLoses(s.ab, 0);
      case Lose(i) => RisingLoses(s.ab, i);
      case Queue(_) =>
      case Take(_) =>
      case Resend =>
    }
  }

  /** In every run of a gateway. */
  lemma {:induction false} AlwaysRising(states: seq<State>, events: seq<Event>, kindB: Kind, i: nat)
    requires Run(states, events) && states[0] == Initial(Gateway, kindB) && i < |states|
    ensures Inv(states[i]) && states[i].a.e.kind.Gateway? && Rising(states[i].ab)
  {
    hide Inv, Next;
    InvInitial(Gateway, kindB);
    RunKeeps(states, events, i);
    KindKept(states, events, i);
    if i > 0 {
      AlwaysRising(states, events, kindB, i - 1);
      NextRising(states[i - 1], events[i - 1], states[i]);
    }
  }

  lemma {:induction false} RestArrives(s: State) returns (t: State)
    requires Inv(s) && Rising(s.ab) && forall n: nat | |s.b.got| <= n < |s.a.sent| :: Carries(s.ab, n)
    ensures Can(Freely, s, t) && t.a == s.a && |t.b.got| >= |s.a.sent|
    decreases |s.ab|
  {
    hide Inv, Can, Next, IsI;
    if |s.b.got| >= |s.a.sent| {
      t := s;
      Stay(Freely, t);
    } else {
      assert Carries(s.ab, |s.b.got|);
      var u := OneDelivered(s);
      StillCarried(s, u);
      t := RestArrives(u);
      StepThen(Freely, s, Event(false, Deliver), u, t);
    }
  }

  /** What comes first is not ahead of what is waited for, so nothing still needed is wasted. */
  lemma StillCarried(s: State, u: State)
    requires Rising(s.ab) && s.ab != [] && u.ab == s.ab[1..] && u.a == s.a && |s.b.got| < |s.a.sent|
    requires forall n: nat | |s.b.got| <= n < |s.a.sent| :: Carries(s.ab, n)
    requires |u.b.got| == |s.b.got| + if NextAt(s, 0) then 1 else 0
    ensures Rising(u.ab) && forall n: nat | |u.b.got| <= n < |u.a.sent| :: Carries(u.ab, n)
  {
    hide IsI;
    RisingLoses(s.ab, 0);
    forall n: nat | |u.b.got| <= n < |u.a.sent|
      ensures Carries(u.ab, n)
    {
      assert Carries(s.ab, n) && Carries(s.ab, |s.b.got|);
      var i: nat :| i < |s.ab| && IsI(s.ab[i].frame.ctrl) && s.ab[i].num == n;
      var j: nat :| j < |s.ab| && IsI(s.ab[j].frame.ctrl) && s.ab[j].num == |s.b.got|;
      assert i > 0;
      assert u.ab[i - 1] == s.ab[i];
    }
  }

  /** Exactly when all a gateway has sent can still arrive: when every chunk from the next one on is on the channel. A
      stream can always get there (`Progress.AlwaysRecovers`). */
  lemma AllArriveIff(states: seq<State>, events: seq<Event>, kindB: Kind, k: nat)
    requires Run(states, events) && states[0] == Initial(Gateway, kindB) && k < |states|
    ensures var s := states[k];
      (forall n: nat | |s.b.got| <= n < |s.a.sent| :: Carries(s.ab, n)) <==>
      exists t: State :: Can(Freely, s, t) && |t.b.got| >= |s.a.sent|
  {
    hide Inv, Can, Next, IsI;
    AlwaysRising(states, events, kindB, k);
    var s := states[k];
    if forall n: nat | |s.b.got| <= n < |s.a.sent| :: Carries(s.ab, n) {
      var t := RestArrives(s);
    } else {
      var n: nat :| |s.b.got| <= n < |s.a.sent| && !Carries(s.ab, n);
      assert Misses(s.ab, n) && LostAt(s, n);
      forall t: State | Can(Freely, s, t)
        ensures |t.b.got| < |s.a.sent|
      {
        LostBlocks(s, t, n);
      }
    }
  }

  /** A loss does happen: one chunk queued by the gateway and lost. */
  lemma LossHappens(chunk: bytes)
    returns (states: seq<State>, events: seq<Event>)
    ensures Run(states, events) && states[0] == Initial(Gateway, Stream) && Lost(states[|events|])
  {
    hide IFrame;
    var s := Initial(Gateway, Stream);
    var ev1, ev2 := Event(true, Queue(chunk)), Event(false, Lose(0));
    var t := StepA(s, Queue(chunk));
    assert |t.ab| == 1;
    var u := Flip(StepA(Flip(t), Lose(0)));
    assert Next(s, ev1, t) && Next(t, ev2, u);
    states, events := [s, t, u], [ev1, ev2];
    assert u.ab == [];
  }
}
