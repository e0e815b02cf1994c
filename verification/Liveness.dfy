/** How a link goes on when nothing more is lost and a stream sends again only after a timeout: with a gateway as its
    peer it always gets everything across; two streams may answer each other for ever. */
module Liveness {
  import opened Prelude
  import opened Ax25Link
  import opened Arq
  import opened ArqSteps
  import opened ArqRuns
  import opened Progress

  // ---------------------------------------------------------------- one delivery

  predicate IsChunk(p: Packet) { IsI(p.frame.ctrl) }

  predicate Polls(p: Packet) { PollBit(p.frame.ctrl) }

  /** Whether a receiver of this kind answers a packet, and whether its answer polls, when it has accepted `n`
      chunks. */
  predicate Answers(kind: Kind, p: Packet) {
    IsChunk(p) || (kind.Stream? && Polls(p))
  }

  predicate PollsBack(p: Packet, n: nat) {
    IsChunk(p) && p.num == n ==> Polls(p)
  }

  /** Side `a` has received the oldest packet: what it takes from it, and the report it answers with. */
  ghost predicate Delivered(s: State, t: State) {
    && s.ba != [] && t.ba == s.ba[1..] && t.b == s.b
    && t.a.sent == s.a.sent && t.a.base == s.ba[0].ack && t.a.e.kind == s.a.e.kind
    && |t.a.got| == |s.a.got| + (if IsChunk(s.ba[0]) && s.ba[0].num == |s.a.got| then 1 else 0)
    && s.ab <= t.ab && |t.ab| == |s.ab| + (if Answers(s.a.e.kind, s.ba[0]) then 1 else 0)
    && (Answers(s.a.e.kind, s.ba[0]) ==>
      var r := t.ab[|s.ab|];
      !IsChunk(r) && r.ack == |t.a.got| && (Polls(r) <==> PollsBack(s.ba[0], |s.a.got|)))
  }

  lemma DeliverIs(s: State)
    requires Inv(s) && s.ba != [] && WellFormed(s.a.e)
    ensures Delivered(s, StepA(s, Deliver))
  {
    hide SideOk, Agree, InOrder, PacketOk, IsI, IsS, Ns, Nr, Rr, PollBit, AckUpto;
    var p := s.ba[0];
    assert PacketOk(p, s.b, s.a);
    PacketKind(p, s.b, s.a);
    if IsI(p.frame.ctrl) {
      NeverConfused(p, s.b, s.a);
    }
    var out, t := Received(s.a.e, p.frame).1, StepA(s, Deliver);
    assert t.ab == s.ab + Stamped(out, t.a, 0);
    forall m: nat, pf: bool
      ensures !IsI(Rr(m, pf)) && PollBit(Rr(m, pf)) == pf
    {
      ControlFields(0, m, pf);
    }
  }

  lemma PacketKind(p: Packet, x: Side, y: Side)
    requires PacketOk(p, x, y)
    ensures IsI(p.frame.ctrl) <==> !IsS(p.frame.ctrl)
  {
    hide Ns, Nr;
  }

  /** The same for either side. */
  lemma NextDelivers(s: State, atA: bool, t: State)
    requires Inv(s) && Next(s, Event(atA, Deliver), t)
    ensures Inv(t) && if atA then Delivered(s, t) else Delivered(Flip(s), Flip(t))
  {
    hide Inv, StepA, Delivered;
    NextKeeps(s, Event(atA, Deliver), t);
    if atA {
      DeliverIs(s);
    } else {
      InvFlip(s);
      DeliverIs(Flip(s));
    }
  }

  /** Without loss, as long as anything is under way it can be received, and otherwise the timeout of a stream comes. */
  lemma NeverStuck(s: State)
    requires Inv(s) && s.a.e.kind.Stream?
    ensures exists ev: Event, t: State ::
      Next(s, ev, t) && Allowed(WithoutLoss, s, ev.act) && (Quiet(s) <==> ev.act.Resend?)
  {
    hide Inv, StepA;
    SideSmall(s);
    var ev := Event(s.ba != [] || s.ab == [], if Quiet(s) then Resend else Deliver);
    var t := if ev.atA then StepA(s, ev.act) else Flip(StepA(Flip(s), ev.act));
    assert Next(s, ev, t);
  }

  // ---------------------------------------------------------------- a gateway as peer

  /** Chunks count `i`, reports `r`. */
  function Weight(c: seq<Packet>, i: nat, r: nat): nat {
    if c == [] then 0 else (if IsChunk(c[0]) then i else r) + Weight(c[1..], i, r)
  }

  lemma {:induction false} WeightAppend(c: seq<Packet>, p: Packet, i: nat, r: nat)
    ensures Weight(c + [p], i, r) == Weight(c, i, r) + if IsChunk(p) then i else r
  {
    hide IsChunk;
    if c == [] {
      assert c + [p] == [p];
    } else {
      WeightAppend(c[1..], p, i, r);
      assert (c + [p])[1..] == c[1..] + [p];
    }
  }

  lemma WeightZero(c: seq<Packet>, i: nat, r: nat)
    requires i > 0 && r > 0
    ensures Weight(c, i, r) == 0 <==> c == []
  {
  }

  /** How many more receptions there can be: a chunk is answered by the gateway, and that again by the stream; the
      gateway answers no report. */
  function Work(s: State): nat {
    Weight(s.ab, 3, 1) + Weight(s.ba, 2, 2)
  }

  lemma DeliveredWeight(s: State, t: State, i: nat, r: nat)
    requires Delivered(s, t)
    ensures Weight(t.ab, i, r) == Weight(s.ab, i, r) + if Answers(s.a.e.kind, s.ba[0]) then r else 0
  {
    hide Weight, IsChunk, Polls, PollsBack;
    if Answers(s.a.e.kind, s.ba[0]) {
      WeightAppend(s.ab, t.ab[|s.ab|], i, r);
      assert t.ab == s.ab + [t.ab[|s.ab|]];
    } else {
      assert t.ab == s.ab;
    }
  }

  lemma WorkFalls(s: State, atA: bool, t: State)
    requires Inv(s) && s.a.e.kind.Stream? && s.b.e.kind.Gateway? && Next(s, Event(atA, Deliver), t)
    ensures Work(t) < Work(s)
  {
    hide Inv, Next, IsChunk, Polls, PollsBack;
    NextDelivers(s, atA, t);
    if atA {
      DeliveredWeight(s, t, 3, 1);
    } else {
      DeliveredWeight(Flip(s), Flip(t), 2, 2);
    }
  }

  /** The chunks from number `n` on are under way, in order, before anything else. */
  predicate Remaining(c: seq<Packet>, n: nat, top: nat) {
    if c == [] then n == top
    else if IsChunk(c[0]) then c[0].num == n && Remaining(c[1..], n + 1, top)
    else n == top && Remaining(c[1..], n, top)
  }

  lemma {:induction false} RemainingAppend(c: seq<Packet>, p: Packet, n: nat, top: nat)
    requires Remaining(c, n, top) && !IsChunk(p)
    ensures Remaining(c + [p], n, top)
  {
    hide IsChunk;
    if c == [] {
      assert c + [p] == [p] && [p][1..] == [];
    } else {
      RemainingAppend(c[1..], p, if IsChunk(c[0]) then n + 1 else n, top);
      assert (c + [p])[1..] == c[1..] + [p];
    }
  }

  /** The receiver still gets every chunk it misses, and will report it. */
  ghost predicate Flushing(s: State, n: nat) {
    && Remaining(s.ab, n, |s.a.sent|) && n <= |s.b.got|
    && (n == |s.a.sent| ==> LastAck(s) == |s.b.got|)
  }

  lemma {:induction false} RemainingBound(c: seq<Packet>, n: nat, top: nat)
    requires Remaining(c, n, top)
    ensures n <= top
  {
    if c != [] {
      RemainingBound(c[1..], if IsChunk(c[0]) then n + 1 else n, top);
    }
  }

  lemma FlushingGoesOn(s: State, n: nat, atA: bool, t: State) returns (m: nat)
    requires Inv(s) && Flushing(s, n) && Next(s, Event(atA, Deliver), t)
    ensures Flushing(t, m)
  {
    hide Inv, Next, IsChunk, Polls, PollsBack;
    NextDelivers(s, atA, t);
    InvBounds(s);
    InvBounds(t);
    RemainingBound(s.ab, n, |s.a.sent|);
    if atA {
      m := n;
      if Answers(s.a.e.kind, s.ba[0]) {
        RemainingAppend(s.ab, t.ab[|s.ab|], n, |s.a.sent|);
        assert t.ab == s.ab + [t.ab[|s.ab|]];
      } else {
        assert t.ab == s.ab;
      }
      assert LastAck(t) == LastAck(s);
    } else {
      m := if IsChunk(s.ab[0]) then n + 1 else n;
      assert Flip(t).ab == t.ba && Flip(s).ab == s.ba;
      if Answers(s.b.e.kind, s.ab[0]) {
        assert LastAck(t) == |t.b.got|;
      } else {
        assert t.ba == s.ba && LastAck(t) == LastAck(s);
      }
      assert m <= |t.b.got|;
    }
  }

  lemma {:induction false} TailRemains(c: seq<Packet>, n: nat, top: nat)
    requires n + |c| == top && forall i: nat | i < |c| :: IsChunk(c[i]) && c[i].num == n + i
    ensures Remaining(c, n, top) && Weight(c, 3, 1) == 3 * |c|
  {
    hide IsChunk;
    if c != [] {
      TailRemains(c[1..], n + 1, top);
    }
  }

  /** After a timeout everything outstanding is under way again. */
  lemma ResendFlushes(s: State, t: State)
    requires Inv(s) && Quiet(s) && s.a.e.kind.Stream? && Next(s, Event(true, Resend), t) && s.a.base < |s.a.sent|
    ensures Flushing(t, s.a.base) && Work(t) <= 3 * WINDOW
  {
    hide Inv, ResentFrom, IsI;
    SideSmall(s);
    ResendIsTail(s);
    InvBounds(s);
    TailRemains(t.ab, s.a.base, |s.a.sent|);
    WindowBound(s);
  }

  lemma WindowBound(s: State)
    requires Inv(s)
    ensures |s.a.sent| <= s.a.base + WINDOW
  {
    hide Kept, Agree, ChannelOk;
  }

  lemma FlushedIsDrained(s: State, n: nat)
    requires Inv(s) && Quiet(s) && Flushing(s, n)
    ensures Drained(s.a)
  {
    hide Inv;
    InvBounds(s);
    BaseIsDrained(s);
  }

  lemma DrainedStays(s: State, ev: Event, t: State)
    requires Inv(s) && Drained(s.a) && Next(s, ev, t) && Allowed(WithoutLoss, s, ev.act)
    ensures Drained(t.a)
  {
    hide Inv, Drained, StepA, Enabled;
    NextKeeps(s, ev, t);
    DrainedBase(s);
    SentStays(s, ev, t);
    InvBounds(t);
    BaseGrows(s, ev, t);
    BaseIsDrained(t);
  }

  lemma DrainedBase(s: State)
    requires Inv(s) && Drained(s.a)
    ensures s.a.base == |s.a.sent|
  {
    hide Kept, Agree, ChannelOk;
    Window8(s.a.base, |s.a.sent|);
  }

  lemma SentStays(s: State, ev: Event, t: State)
    requires Next(s, ev, t) && Allowed(WithoutLoss, s, ev.act)
    ensures t.a.sent == s.a.sent && t.a.e.kind == s.a.e.kind && t.b.e.kind == s.b.e.kind
  {
    hide Resent, IsI, IsS, Ns, Nr, PollBit, AckUpto;
  }

  lemma BaseGrows(s: State, ev: Event, t: State)
    requires Inv(s) && Next(s, ev, t)
    ensures t.a.base >= s.a.base
  {
    hide SideOk, Agree, InOrder, Received, Resent, IsI, Ns, Queued;
    if ev.atA && ev.act.Deliver? {
      assert PacketOk(s.ba[0], s.b, s.a);
    }
  }

  /** Where a run without loss can be after `k` steps, when it began with work `w`: done, or before its first timeout,
      or behind it. */
  ghost predicate Phase(s: State, k: nat, w: nat) {
    || Drained(s.a)
    || Work(s) + k <= w
    || (Work(s) + k <= w + 1 + 3 * WINDOW && exists n: nat :: Flushing(s, n))
  }

  lemma PhaseNext(s: State, ev: Event, t: State, k: nat, w: nat)
    requires Inv(s) && s.a.e.kind.Stream? && s.b.e.kind.Gateway? && Phase(s, k, w)
    requires Next(s, ev, t) && Allowed(WithoutLoss, s, ev.act)
    ensures Phase(t, k + 1, w)
  {
    hide Inv, Next, Drained, Flushing;
    if Drained(s.a) {
      DrainedStays(s, ev, t);
    } else if ev.act.Deliver? {
      WorkFalls(s, ev.atA, t);
      if Work(s) + k > w {
        var n: nat :| Flushing(s, n);
        var m := FlushingGoesOn(s, n, ev.atA, t);
      }
    } else {
      GatewaySendsOnce(s, ev, t);
      InvBounds(s);
      if n: nat :| Flushing(s, n) {
        FlushedIsDrained(s, n);
      } else if s.a.base == |s.a.sent| {
        BaseIsDrained(s);
      } else {
        ResendFlushes(s, t);
      }
    }
  }

  lemma GatewaySendsOnce(s: State, ev: Event, t: State)
    requires s.b.e.kind.Gateway? && Next(s, ev, t) && ev.act.Resend?
    ensures ev.atA && ev == Event(true, Resend)
  {
    hide StepA;
  }

  lemma QuietIs(s: State)
    ensures Work(s) == 0 <==> Quiet(s)
  {
    hide Weight;
    WeightZero(s.ab, 3, 1);
    WeightZero(s.ba, 2, 2);
  }

  lemma {:induction false} PhaseHolds(s: State, t: State, states: seq<State>, events: seq<Event>, k: nat)
    requires Leads(WithoutLoss, s, t, states, events) && k <= |events|
    requires Inv(s) && s.a.e.kind.Stream? && s.b.e.kind.Gateway?
    ensures Inv(states[k]) && states[k].a.sent == s.a.sent && Phase(states[k], k, Work(s))
    ensures states[k].a.e.kind == s.a.e.kind && states[k].b.e.kind == s.b.e.kind
  {
    hide Inv, Next, Work, Drained, Flushing, Allowed;
    if k > 0 {
      PhaseHolds(s, t, states, events, k - 1);
      assert Next(states[k - 1], events[k - 1], states[k]) && Allowed(WithoutLoss, states[k - 1], events[k - 1].act);
      NextKeeps(states[k - 1], events[k - 1], states[k]);
      SentStays(states[k - 1], events[k - 1], states[k]);
      PhaseNext(states[k - 1], events[k - 1], states[k], k - 1, Work(s));
    }
  }

  /** With a gateway as peer nothing can go wrong any more: whatever was lost before, and in whatever order the two now
      receive, after a number of steps known in advance everything is across and acknowledged, and stays so. */
  lemma GatewayDrains(s: State, t: State, states: seq<State>, events: seq<Event>, k: nat)
    requires Leads(WithoutLoss, s, t, states, events) && Inv(s) && s.a.e.kind.Stream? && s.b.e.kind.Gateway?
    requires Work(s) + 1 + 3 * WINDOW <= k <= |events|
    ensures Drained(states[k].a) && states[k].a.sent == s.a.sent && states[k].b.got == s.a.sent
  {
    hide Inv, Next, Work, Drained, Flushing, Allowed;
    PhaseHolds(s, t, states, events, k);
    QuietIs(states[k]);
    if n: nat :| Flushing(states[k], n) && Quiet(states[k]) {
      FlushedIsDrained(states[k], n);
    }
    DrainedIsDelivered(states[k]);
  }

  // ---------------------------------------------------------------- two streams

  /** Nothing on this channel polls, and every chunk comes in sequence when the receiver has accepted `n`. */
  predicate CoolChannel(c: seq<Packet>, n: nat) {
    c == [] ||
    (&& !Polls(c[0])
     && (IsChunk(c[0]) ==> c[0].num == n)
     && CoolChannel(c[1..], if IsChunk(c[0]) then n + 1 else n))
  }

  /** No report under way polls, and none will have to. */
  predicate Cool(s: State) {
    CoolChannel(s.ab, |s.b.got|) && CoolChannel(s.ba, |s.a.got|)
  }

  lemma {:induction false} CoolAppend(c: seq<Packet>, p: Packet, n: nat)
    requires !IsChunk(p)
    ensures CoolChannel(c + [p], n) <==> CoolChannel(c, n) && !Polls(p)
  {
    hide IsChunk, Polls;
    if c == [] {
      assert c + [p] == [p] && [p][1..] == [];
    } else {
      CoolAppend(c[1..], p, if IsChunk(c[0]) then n + 1 else n);
      assert (c + [p])[1..] == c[1..] + [p];
    }
  }

  lemma DeliveredCool(s: State, t: State)
    requires Delivered(s, t) && s.a.e.kind.Stream?
    ensures Cool(t) <==> Cool(s)
    ensures Cool(s) ==> (Answers(s.a.e.kind, s.ba[0]) <==> IsChunk(s.ba[0]))
  {
    hide IsChunk, Polls;
    if Answers(s.a.e.kind, s.ba[0]) {
      CoolAppend(s.ab, t.ab[|s.ab|], |s.b.got|);
      assert t.ab == s.ab + [t.ab[|s.ab|]];
    } else {
      assert t.ab == s.ab;
    }
  }

  lemma CoolFlip(s: State)
    ensures Cool(Flip(s)) <==> Cool(s)
  {
    hide CoolChannel;
  }

  /** Receiving neither cools a link of two streams nor heats it. */
  lemma CoolStays(s: State, atA: bool, t: State)
    requires Inv(s) && s.a.e.kind.Stream? && s.b.e.kind.Stream? && Next(s, Event(atA, Deliver), t)
    ensures Cool(t) <==> Cool(s)
    ensures Cool(s) ==> Weight(t.ab, 2, 1) + Weight(t.ba, 2, 1) < Weight(s.ab, 2, 1) + Weight(s.ba, 2, 1)
  {
    hide Inv, Next, Cool, Delivered, IsChunk, Polls;
    NextDelivers(s, atA, t);
    CoolFlip(s);
    CoolFlip(t);
    if atA {
      DeliveredCool(s, t);
      DeliveredWeight(s, t, 2, 1);
      DeliveredFront(s, t);
    } else {
      DeliveredCool(Flip(s), Flip(t));
      DeliveredWeight(Flip(s), Flip(t), 2, 1);
      DeliveredFront(Flip(s), Flip(t));
    }
  }

  lemma DeliveredFront(s: State, t: State)
    requires Delivered(s, t)
    ensures s.ba != [] && t.ba == s.ba[1..]
  {
    hide IsChunk, Polls;
  }

  /** How many chunks of side `a` will have been accepted when all that is under way is received. */
  function GotInTheEnd(s: State): nat {
    GotAfter(s.ab, |s.b.got|)
  }

  lemma {:induction false} GotAppend(c: seq<Packet>, p: Packet, n: nat)
    requires !IsChunk(p)
    ensures GotAfter(c + [p], n) == GotAfter(c, n)
  {
    if c == [] {
      assert c + [p] == [p] && [p][1..] == [];
    } else {
      GotAppend(c[1..], p, if IsChunk(c[0]) && c[0].num == n then n + 1 else n);
      assert (c + [p])[1..] == c[1..] + [p];
    }
  }

  lemma {:induction false} GotAtLeast(c: seq<Packet>, n: nat)
    ensures GotAfter(c, n) >= n
  {
    if c != [] {
      GotAtLeast(c[1..], if IsChunk(c[0]) && c[0].num == n then n + 1 else n);
    }
  }

  lemma GotInTheEndStays(s: State, atA: bool, t: State)
    requires Inv(s) && Next(s, Event(atA, Deliver), t)
    ensures GotInTheEnd(t) == GotInTheEnd(s)
  {
    hide Inv, Next, Polls;
    NextDelivers(s, atA, t);
    if atA {
      if Answers(s.a.e.kind, s.ba[0]) {
        GotAppend(s.ab, t.ab[|s.ab|], |s.b.got|);
        assert t.ab == s.ab + [t.ab[|s.ab|]];
      } else {
        assert t.ab == s.ab;
      }
    }
  }

  /** A link of two streams that is not cool never falls silent, so that no timeout comes and nothing is sent again. */
  lemma {:induction false} BusyForEver(s: State, t: State, states: seq<State>, events: seq<Event>, k: nat)
    requires Leads(WithoutLoss, s, t, states, events) && k <= |events|
    requires Inv(s) && s.a.e.kind.Stream? && s.b.e.kind.Stream? && !Cool(s)
    ensures Inv(states[k]) && !Cool(states[k]) && !Quiet(states[k]) && states[k].a.sent == s.a.sent
    ensures GotInTheEnd(states[k]) == GotInTheEnd(s)
    ensures states[k].a.e.kind == s.a.e.kind && states[k].b.e.kind == s.b.e.kind
    ensures forall i: nat | i < k :: events[i].act.Deliver?
  {
    hide Inv, Next, Cool, GotInTheEnd;
    if k > 0 {
      BusyForEver(s, t, states, events, k - 1);
      var u, ev, v := states[k - 1], events[k - 1], states[k];
      assert Next(u, ev, v) && Allowed(WithoutLoss, u, ev.act);
      NextKeeps(u, ev, v);
      SentStays(u, ev, v);
      assert ev == Event(ev.atA, Deliver);
      CoolStays(u, ev.atA, v);
      GotInTheEndStays(u, ev.atA, v);
    }
    QuietIsCool(states[k]);
  }

  lemma QuietIsCool(s: State)
    ensures Quiet(s) ==> Cool(s)
  {
  }

  /** A cool link falls silent. */
  lemma {:induction false} CoolDown(s: State) returns (t: State)
    requires Inv(s) && s.a.e.kind.Stream? && s.b.e.kind.Stream? && Cool(s)
    ensures Can(WithoutLoss, s, t) && Inv(t) && Quiet(t) && t.a.sent == s.a.sent
    ensures t.a.e.kind == s.a.e.kind && t.b.e.kind == s.b.e.kind
    decreases Weight(s.ab, 2, 1) + Weight(s.ba, 2, 1)
  {
    hide Inv, Can, Cool, StepA, Weight;
    if Quiet(s) {
      Stay(WithoutLoss, s);
      t := s;
    } else {
      SideSmall(s);
      var ev := Event(s.ba != [], Deliver);
      var u := if ev.atA then StepA(s, Deliver) else Flip(StepA(Flip(s), Deliver));
      assert Next(s, ev, u);
      NextKeeps(s, ev, u);
      CoolStays(s, ev.atA, u);
      SentStays(s, ev, u);
      t := CoolDown(u);
      StepThen(WithoutLoss, s, ev, u, t);
    }
  }

  /** Exactly when, without further loss, two streams can fall silent so that a timeout comes. */
  lemma QuietIff(s: State)
    requires Inv(s) && s.a.e.kind.Stream? && s.b.e.kind.Stream?
    ensures Cool(s) <==> exists t: State :: Can(WithoutLoss, s, t) && Quiet(t)
  {
    hide Inv, Next, Cool, Allowed;
    if Cool(s) {
      var t := CoolDown(s);
    } else {
      forall t: State | Can(WithoutLoss, s, t)
        ensures !Quiet(t)
      {
        var states: seq<State>, events: seq<Event> :| Leads(WithoutLoss, s, t, states, events);
        BusyForEver(s, t, states, events, |events|);
      }
    }
  }

  /** When all chunks are across or under way, two streams that keep answering each other do report it. */
  lemma HotDrains(s: State) returns (t: State)
    requires Inv(s) && s.a.e.kind.Stream? && s.b.e.kind.Stream? && !Cool(s) && GotInTheEnd(s) == |s.a.sent|
    ensures Can(WithoutLoss, s, t) && Drained(t.a) && t.a.sent == s.a.sent
  {
    hide Inv, Can, Next, Cool, Drained, GotAfter;
    var u := TakesAll(s);
    var v := ReceivesAll(u);
    var w := TakesAll(v);
    t := ReceivesAll(w);
    HotStays(s, u);
    HotStays(s, v) by {
      Then(WithoutLoss, s, u, v);
    }
    Then(WithoutLoss, u, v, w);
    Then(WithoutLoss, s, u, w);
    HotStays(s, w);
    assert w.ba != [];
    InvBounds(w);
    GotAtLeast(v.ab, |v.b.got|);
    Then(WithoutLoss, s, w, t);
    BaseIsDrained(t);
  }

  lemma HotStays(s: State, t: State)
    requires Inv(s) && s.a.e.kind.Stream? && s.b.e.kind.Stream? && !Cool(s) && Can(WithoutLoss, s, t)
    ensures Inv(t) && !Cool(t) && !Quiet(t) && t.a.sent == s.a.sent && GotInTheEnd(t) == GotInTheEnd(s)
    ensures t.a.e.kind == s.a.e.kind && t.b.e.kind == s.b.e.kind
  {
    hide Inv, Next, Cool, Allowed, GotInTheEnd, Quiet;
    var states: seq<State>, events: seq<Event> :| Leads(WithoutLoss, s, t, states, events);
    BusyForEver(s, t, states, events, |events|);
  }

  /** Exactly when, without further loss, a stream whose peer is a stream can get everything across: when no poll is
      under way and none will come of what is, or when no chunk is missing that is not under way. */
  lemma DrainIff(s: State)
    requires Inv(s) && s.a.e.kind.Stream? && s.b.e.kind.Stream?
    ensures Cool(s) || GotInTheEnd(s) == |s.a.sent| <==>
      exists t: State :: Can(WithoutLoss, s, t) && t.a.sent == s.a.sent && Drained(t.a)
  {
    hide Inv, Can, Cool, GotInTheEnd, Drained;
    if Cool(s) {
      var u := CoolDown(s);
      var t := QuietDrains(u);
      Then(WithoutLoss, s, u, t);
    } else if GotInTheEnd(s) == |s.a.sent| {
      var t := HotDrains(s);
    } else {
      forall t: State | Can(WithoutLoss, s, t)
        ensures !Drained(t.a)
      {
        HotStays(s, t);
        if Drained(t.a) {
          AllGot(t);
        }
      }
    }
  }

  lemma AllGot(t: State)
    requires Inv(t) && Drained(t.a)
    ensures GotInTheEnd(t) == |t.a.sent|
  {
    hide Inv, Drained;
    DrainedIsDelivered(t);
    GotAtMost(t);
    GotAtLeast(t.ab, |t.b.got|);
  }

  lemma GotAtMost(s: State)
    requires Inv(s)
    ensures GotInTheEnd(s) <= |s.a.sent|
  {
    hide Inv, Can;
    var t := TakesAll(s);
    InvBounds(t);
  }

  /** Such a stall does happen: of two chunks the first is lost, and the second makes the receiver poll. */
  lemma StallHappens(c0: bytes, c1: bytes) returns (states: seq<State>, events: seq<Event>)
    ensures Run(states, events) && states[0] == Initial(Stream, Stream)
    ensures var s := states[|events|]; Inv(s) && !Cool(s) && GotInTheEnd(s) != |s.a.sent|
  {
    hide Inv, Received, Delivered, IFrame, IsI;
    var s0 := Initial(Stream, Stream);
    var s1 := StepA(s0, Queue(c0));
    var s2 := StepA(s1, Queue(c1));
    var s3 := Flip(StepA(Flip(s2), Lose(0)));
    ControlFields(1, 0, false);
    assert |s3.ab| == 1 && IsChunk(s3.ab[0]) && s3.ab[0].num == 1;
    var s4 := Flip(StepA(Flip(s3), Deliver));
    states := [s0, s1, s2, s3, s4];
    events := [Event(true, Queue(c0)), Event(true, Queue(c1)), Event(false, Lose(0)), Event(false, Deliver)];
    InvInitial(Stream, Stream);
    RunKeeps(states, events, 3);
    NextDelivers(s3, false, s4);
    PolledBack(s3, s4);
  }

  lemma PolledBack(s: State, t: State)
    requires Delivered(Flip(s), Flip(t)) && |s.ab| == 1 && IsChunk(s.ab[0]) && s.ab[0].num != |s.b.got|
    requires s.ba == [] && s.a.got == [] && |s.b.got| < |s.a.sent|
    ensures !Cool(t) && GotInTheEnd(t) != |t.a.sent|
  {
    hide IsChunk, Polls;
    assert t.ab == [];
  }
}
