/** A stream can always recover: from every state the system can get into, there is a way on to the end of `send`, in
    which it sends again only after a timeout. */
module Progress {
  import opened Prelude
  import opened Ax25Link
  import opened Arq
  import opened ArqSteps
  import opened ArqRuns

  /** Nothing is under way, so that nothing will be heard until a timeout comes. */
  predicate Quiet(s: State) {
    s.ab == [] && s.ba == []
  }

  /** Ways to go on: anything that can happen; or only receiving, losing and, as `_retransmit` is called only after a
      timeout, sending again when nothing is under way; or the same without losing. */
  datatype Manner = Freely | Patiently | WithoutLoss

  predicate Allowed(how: Manner, s: State, act: Action) {
    match how
    case Freely => true
    case Patiently => act.Deliver? || act.Lose? || (act.Resend? && Quiet(s))
    case WithoutLoss => act.Deliver? || (act.Resend? && Quiet(s))
  }

  /** A run from `s` to `t`. */
  ghost predicate Leads(how: Manner, s: State, t: State, states: seq<State>, events: seq<Event>) {
    && Run(states, events) && states[0] == s && states[|events|] == t
    && forall i: nat | i < |events| :: Allowed(how, states[i], events[i].act)
  }

  ghost predicate Can(how: Manner, s: State, t: State) {
    exists states: seq<State>, events: seq<Event> :: Leads(how, s, t, states, events)
  }

  lemma Stay(how: Manner, s: State)
    ensures Can(how, s, s)
  {
    hide Next;
    assert Leads(how, s, s, [s], []);
  }

  lemma StepThen(how: Manner, s: State, ev: Event, u: State, t: State)
    requires Next(s, ev, u) && Allowed(how, s, ev.act) && Can(how, u, t)
    ensures Can(how, s, t)
  {
    hide Next, Allowed;
    var states: seq<State>, events: seq<Event> :| Leads(how, u, t, states, events);
    var more, evs := [s] + states, [ev] + events;
    forall i: nat | i < |evs|
      ensures Next(more[i], evs[i], more[i + 1]) && Allowed(how, more[i], evs[i].act)
    {
      if i > 0 {
        var k: nat := i - 1;
        assert Next(states[k], events[k], states[k + 1]);
      }
    }
    assert Leads(how, s, t, more, evs);
  }

  lemma {:induction false} Onward(how: Manner, s: State, u: State, t: State, states: seq<State>, events: seq<Event>)
    requires Leads(how, s, u, states, events) && Can(how, u, t)
    ensures Can(how, s, t)
    decreases |events|
  {
    hide Next, Allowed;
    if |events| > 0 {
      assert Next(states[0], events[0], states[1]);
      forall i: nat | i < |events[1..]|
        ensures Next(states[1..][i], events[1..][i], states[1..][i + 1])
        ensures Allowed(how, states[1..][i], events[1..][i].act)
      {
        var k := i + 1;
        assert Next(states[k], events[k], states[k + 1]);
      }
      assert Leads(how, states[1], u, states[1..], events[1..]);
      Onward(how, states[1], u, t, states[1..], events[1..]);
      StepThen(how, s, events[0], states[1], t);
    }
  }

  lemma Then(how: Manner, s: State, u: State, t: State)
    requires Can(how, s, u) && Can(how, u, t)
    ensures Can(how, s, t)
  {
    var states: seq<State>, events: seq<Event> :| Leads(how, s, u, states, events);
    Onward(how, s, u, t, states, events);
  }

  /** What is possible without loss is possible with it. */
  lemma Loosen(s: State, t: State)
    requires Can(WithoutLoss, s, t)
    ensures Can(Patiently, s, t)
  {
    hide Next;
    var states: seq<State>, events: seq<Event> :| Leads(WithoutLoss, s, t, states, events);
    assert Leads(Patiently, s, t, states, events);
  }

  // ---------------------------------------------------------------- emptying a channel

  lemma SideSmall(s: State)
    requires Inv(s)
    ensures WellFormed(s.a.e) && WellFormed(s.b.e)
  {
    hide Kept, Agree, ChannelOk;
  }

  /** Side `a` receives all that is on its way, and knows what the last of it reports. */
  lemma {:induction false} ReceivesAll(s: State) returns (t: State)
    requires Inv(s)
    ensures Can(WithoutLoss, s, t) && Inv(t) && t.ba == [] && t.b == s.b && t.a.sent == s.a.sent
    ensures t.a.base == if s.ba == [] then s.a.base else s.ba[|s.ba| - 1].ack
    decreases |s.ba|
  {
    hide Inv, Received, Can, IsI, Ns;
    if s.ba == [] {
      Stay(WithoutLoss, s);
      t := s;
    } else {
      SideSmall(s);
      var u := StepA(s, Deliver);
      assert Next(s, Event(true, Deliver), u);
      NextKeeps(s, Event(true, Deliver), u);
      t := ReceivesAll(u);
      StepThen(WithoutLoss, s, Event(true, Deliver), u, t);
    }
  }

  /** How many chunks the receiver has accepted after all these packets, when it has `n` before. */
  function GotAfter(c: seq<Packet>, n: nat): nat {
    if c == [] then n
    else GotAfter(c[1..], if IsI(c[0].frame.ctrl) && c[0].num == n then n + 1 else n)
  }

  /** What side `a` will know to be accepted when it has received all that is on its way. */
  function LastAck(s: State): nat {
    if s.ba == [] then s.a.base else s.ba[|s.ba| - 1].ack
  }

  /** The same for side `b`. If it answers at all, its last answer reports all it has accepted. */
  lemma {:induction false} TakesAll(s: State) returns (t: State)
    requires Inv(s)
    ensures Can(WithoutLoss, s, t) && Inv(t) && t.ab == [] && t.a == s.a && t.b.sent == s.b.sent && s.ba <= t.ba
    ensures |t.b.got| == GotAfter(s.ab, |s.b.got|) && (t.ba == s.ba || LastAck(t) == |t.b.got|)
    ensures t.b.e.kind == s.b.e.kind && (t.ba == s.ba ==> |t.b.got| == |s.b.got|)
    decreases |s.ab|
  {
    hide Inv, Received, Can, IsI, Ns;
    if s.ab == [] {
      Stay(WithoutLoss, s);
      t := s;
    } else {
      SideSmall(s);
      var u := Flip(StepA(Flip(s), Deliver));
      assert Next(s, Event(false, Deliver), u);
      NextKeeps(s, Event(false, Deliver), u);
      TakesOne(s, u);
      t := TakesAll(u);
      StepThen(WithoutLoss, s, Event(false, Deliver), u, t);
    }
  }

  lemma TakesOne(s: State, u: State)
    requires Inv(s) && s.ab != [] && Next(s, Event(false, Deliver), u)
    ensures |u.b.got| == |s.b.got| + if IsI(s.ab[0].frame.ctrl) && s.ab[0].num == |s.b.got| then 1 else 0
    ensures u.ba == s.ba || LastAck(u) == |u.b.got|
    ensures u.b.e.kind == s.b.e.kind && s.ba <= u.ba && (u.ba == s.ba ==> |u.b.got| == |s.b.got|)
  {
    hide SideOk, Agree, InOrder, PacketOk, IsI, IsS, Ns, Nr, Rr, PollBit, AckUpto;
    var p := s.ab[0];
    assert PacketOk(p, s.a, s.b);
    if IsI(p.frame.ctrl) {
      NeverConfused(p, s.a, s.b);
    }
    var out := Received(s.b.e, p.frame).1;
    assert u.ba == s.ba + Stamped(out, u.b, 0);
  }

  /** Chunks from number `n` to the last are on their way to `b`, and nothing else. */
  ghost predicate Tail(s: State, n: nat) {
    && n + |s.ab| == |s.a.sent|
    && forall i: nat | i < |s.ab| :: IsI(s.ab[i].frame.ctrl) && s.ab[i].num == n + i
  }

  lemma OneTaken(s: State, n: nat, u: State)
    requires Inv(s) && Tail(s, n) && n <= |s.b.got| && s.ab != []
    requires WellFormed(s.b.e) && u == Flip(StepA(Flip(s), Deliver))
    ensures Tail(u, n + 1) && n + 1 <= |u.b.got| <= |u.a.sent| && u.a == s.a
    ensures u.ba != [] && u.ba[|u.ba| - 1].ack == |u.b.got|
  {
    hide SideOk, InOrder, PacketOk, IsI, Ns, Nr, IsS, PollBit, AckUpto;
    var p := s.ab[0];
    assert PacketOk(p, s.a, s.b);
    NeverConfused(p, s.a, s.b);
    var out := Received(s.b.e, p.frame).1;
    assert |out| == 1;
    assert u.ba == s.ba + Stamped(out, u.b, 0);
    forall i: nat | i < |u.ab|
      ensures IsI(u.ab[i].frame.ctrl) && u.ab[i].num == n + 1 + i
    {
      var k := i + 1;
      assert u.ab[i] == s.ab[k];
    }
  }

  lemma {:induction false} TakesTail(s: State, n: nat) returns (t: State)
    requires Inv(s) && Tail(s, n) && n <= |s.b.got|
    requires s.ab == [] ==> s.ba != [] && s.ba[|s.ba| - 1].ack == |s.b.got|
    ensures Can(WithoutLoss, s, t) && Inv(t) && t.a == s.a && |t.b.got| >= |s.a.sent|
    ensures t.ba != [] && t.ba[|t.ba| - 1].ack == |t.b.got|
    decreases |s.ab|
  {
    hide Inv, Can, Received, IsI, Ns;
    if s.ab == [] {
      Stay(WithoutLoss, s);
      t := s;
    } else {
      SideSmall(s);
      var u := Flip(StepA(Flip(s), Deliver));
      assert Next(s, Event(false, Deliver), u);
      NextKeeps(s, Event(false, Deliver), u);
      OneTaken(s, n, u);
      t := TakesTail(u, n + 1);
      StepThen(WithoutLoss, s, Event(false, Deliver), u, t);
    }
  }

  /** A retransmission puts exactly the outstanding chunks on an empty channel. */
  lemma ResendIsTail(s: State)
    requires Inv(s) && s.a.e.kind.Stream? && s.ab == [] && WellFormed(s.a.e)
    ensures Tail(StepA(s, Resend), s.a.base) && |StepA(s, Resend).ab| == |s.a.sent| - s.a.base
  {
    hide Kept, Agree, ChannelOk, Mod8, IFrame, ResentFrom, IsI;
    ResentIs(s.a, s.a.base);
    var t := StepA(s, Resend);
    forall i: nat | i < |t.ab|
      ensures IsI(t.ab[i].frame.ctrl) && t.ab[i].num == s.a.base + i
    {
      ControlFields(Mod8(s.a.base + i), s.a.e.vr, false);
    }
  }

  /** All that is under way to `a` is lost. */
  lemma {:induction false} LosesAll(s: State) returns (t: State)
    requires Inv(s)
    ensures Can(Patiently, s, t) && Inv(t) && t == s.(ba := [])
    decreases |s.ba|
  {
    hide Inv, Can;
    if s.ba == [] {
      Stay(Patiently, s);
      t := s;
    } else {
      SideSmall(s);
      var u := StepA(s, Lose(0));
      assert Next(s, Event(true, Lose(0)), u);
      NextKeeps(s, Event(true, Lose(0)), u);
      t := LosesAll(u);
      StepThen(Patiently, s, Event(true, Lose(0)), u, t);
    }
  }

  /** After a timeout in a quiet state, sending again brings everything across. */
  lemma QuietDrains(s: State) returns (t: State)
    requires Inv(s) && s.a.e.kind.Stream? && Quiet(s)
    ensures Can(WithoutLoss, s, t) && Drained(t.a) && t.a.sent == s.a.sent && t.b.got == s.a.sent
  {
    hide Inv, Can, Next, StepA, Received, Tail;
    InvBounds(s);
    if s.a.base == |s.a.sent| {
      Stay(WithoutLoss, s);
      t := s;
    } else {
      var v := Resends(s);
      var w := TakesTail(v, s.a.base);
      t := ReceivesAll(w);
      Then(WithoutLoss, v, w, t);
      StepThen(WithoutLoss, s, Event(true, Resend), v, t);
      InvBounds(w);
    }
    BaseIsDrained(t);
    DrainedIsDelivered(t);
  }

  /** In every state, what a stream has queued can still all arrive and be acknowledged, so that the wait at the end of
      `send` can end. The stream sends again only after a timeout; what may be needed for that is that what is under way
      to it is lost. Exactly when it is needed says `Liveness.DrainIff`. */
  lemma CanDrain(s: State) returns (t: State)
    requires Inv(s) && s.a.e.kind.Stream?
    ensures Can(Patiently, s, t) && Drained(t.a) && t.a.sent == s.a.sent && t.b.got == s.a.sent
  {
    hide Inv, Can, Drained;
    var u := TakesAll(s);
    Loosen(s, u);
    var v := LosesAll(u);
    Then(Patiently, s, u, v);
    t := QuietDrains(v);
    Loosen(v, t);
    Then(Patiently, s, v, t);
  }

  lemma Resends(u: State) returns (v: State)
    requires Inv(u) && u.a.e.kind.Stream? && u.ab == [] && u.a.base < |u.a.sent|
    ensures Next(u, Event(true, Resend), v) && Inv(v) && v.a == u.a && v.b == u.b && v.ab != []
    ensures Tail(v, u.a.base) && u.a.base <= |v.b.got|
  {
    hide Inv, Tail, ResentFrom;
    SideSmall(u);
    v := StepA(u, Resend);
    assert Next(u, Event(true, Resend), v);
    NextKeeps(u, Event(true, Resend), v);
    ResendIsTail(u);
    InvBounds(u);
  }

  lemma InvBounds(s: State)
    requires Inv(s)
    ensures s.a.base <= |s.b.got| <= |s.a.sent|
  {
    hide SideOk, ChannelOk;
  }

  lemma BaseIsDrained(s: State)
    requires Inv(s) && s.a.base == |s.a.sent|
    ensures Drained(s.a)
  {
    hide Kept, Agree, ChannelOk;
  }

  /** The kind of an endpoint never changes. */
  lemma {:induction false} KindKept(states: seq<State>, events: seq<Event>, i: nat)
    requires Run(states, events) && i < |states|
    ensures states[i].a.e.kind == states[0].a.e.kind
  {
    hide StepA;
    if i > 0 {
      KindKept(states, events, i - 1);
      assert Next(states[i - 1], events[i - 1], states[i]);
      NextKind(states[i - 1], events[i - 1], states[i]);
    }
  }

  lemma NextKind(s: State, ev: Event, t: State)
    requires Next(s, ev, t)
    ensures t.a.e.kind == s.a.e.kind
  {
    hide IsI, IsS, Ns, Nr, PollBit, AckUpto, Resent, Enabled;
  }

  /** Whatever has happened on a link, everything its stream has queued can still arrive. */
  lemma AlwaysRecovers(states: seq<State>, events: seq<Event>, kindB: Kind, i: nat) returns (t: State)
    requires Run(states, events) && states[0] == Initial(Stream, kindB) && i < |states|
    ensures Can(Patiently, states[i], t) && Drained(t.a) && t.a.sent == states[i].a.sent && t.b.got == states[i].a.sent
  {
    hide Inv, Next, Can;
    InvInitial(Stream, kindB);
    RunKeeps(states, events, i);
    KindKept(states, events, i);
    t := CanDrain(states[i]);
  }
}
