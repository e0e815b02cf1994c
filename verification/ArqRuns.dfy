/** What holds in every state of every run, and when a `send` has ended. */
module ArqRuns {
  import opened Prelude
  import opened Ax25Link
  import opened Blocks
  import opened Arq
  import opened ArqSteps

  // ---------------------------------------------------------------- runs

  /** A run: each state follows from the one before by the event between them. */
  ghost predicate Run(states: seq<State>, events: seq<Event>) {
    |states| == |events| + 1 && forall i: nat | i < |events| :: Next(states[i], events[i], states[i + 1])
  }

  lemma {:induction false} RunKeeps(states: seq<State>, events: seq<Event>, i: nat)
    requires Run(states, events) && Inv(states[0]) && i < |states|
    ensures Inv(states[i])
  {
    hide Inv, Next;
    if i > 0 {
      RunKeeps(states, events, i - 1);
      NextKeeps(states[i - 1], events[i - 1], states[i]);
    }
  }

  /** Prefix safety: in every state of every run, the bytes each side has taken in, handed on or not, are a prefix of
      the bytes the other has queued. Chunk by chunk nothing is lost, repeated or swapped. */
  lemma PrefixSafety(states: seq<State>, events: seq<Event>, kindA: Kind, kindB: Kind, i: nat)
    requires Run(states, events) && states[0] == Initial(kindA, kindB) && i < |states|
    ensures var s := states[i];
      && s.b.taken + s.b.e.rx <= Flatten(s.a.sent) && s.b.got <= s.a.sent
      && s.a.taken + s.a.e.rx <= Flatten(s.b.sent) && s.a.got <= s.b.sent
  {
    hide Next, StepA, ChannelOk, Kept, Mod8;
    InvInitial(kindA, kindB);
    RunKeeps(states, events, i);
    var s := states[i];
    FlattenPrefix(s.a.sent, |s.b.got|);
    FlattenPrefix(s.b.sent, |s.a.got|);
  }

  /** What side `x` has outstanding, and what of it side `y` may still miss. */
  ghost predicate WindowOk(x: Side, y: Side) {
    && Outstanding(x.e) == |x.sent| - x.base <= WINDOW
    && x.base <= |y.got| <= |x.sent|
    && (x.e.kind.Stream? ==> Kept(x))
  }

  /** The window, on both sides: never more than 7 chunks are outstanding, and a stream keeps exactly those, each
      under its number. */
  lemma WindowSafety(states: seq<State>, events: seq<Event>, kindA: Kind, kindB: Kind, i: nat)
    requires Run(states, events) && states[0] == Initial(kindA, kindB) && i < |states|
    ensures WindowOk(states[i].a, states[i].b) && WindowOk(states[i].b, states[i].a)
  {
    hide Next, StepA, ChannelOk, Kept, Mod8, Flatten, Outstanding;
    InvInitial(kindA, kindB);
    RunKeeps(states, events, i);
    OutstandingIs(states[i].a);
    OutstandingIs(states[i].b);
  }

  /** What side `a` queued during a run. */
  function QueuedBy(events: seq<Event>): seq<bytes> {
    if |events| == 0 then [] else
      var last := events[|events| - 1];
      QueuedBy(events[..|events| - 1]) + if last.atA && last.act.Queue? then [last.act.chunk] else []
  }

  lemma {:induction false} SentIsQueued(states: seq<State>, events: seq<Event>)
    requires Run(states, events)
    ensures states[|events|].a.sent == states[0].a.sent + QueuedBy(events)
  {
    if |events| > 0 {
      var n := |events| - 1;
      assert Run(states[..n + 1], events[..n]);
      SentIsQueued(states[..n + 1], events[..n]);
      SentGrows(states[n], events[n], states[n + 1]);
    }
  }

  lemma SentGrows(s: State, ev: Event, t: State)
    requires Next(s, ev, t)
    ensures t.a.sent == s.a.sent + if ev.atA && ev.act.Queue? then [ev.act.chunk] else []
  {
    hide Received, Resent, Enabled;
  }

  /** Nothing is outstanding: the condition on which `send` returns. */
  predicate Drained(x: Side) {
    x.e.va == x.e.vs
  }

  /** When nothing is outstanding, the peer has accepted everything. */
  lemma DrainedIsDelivered(s: State)
    requires Inv(s) && Drained(s.a)
    ensures s.b.got == s.a.sent && s.b.taken + s.b.e.rx == Flatten(s.a.sent)
  {
    hide ChannelOk, Kept, Mod8, Flatten;
    Window8(s.a.base, |s.a.sent|);
  }

  /** From one moment at which nothing is outstanding to the next, the peer takes in exactly the bytes queued between
      them: all of them, once, in order. */
  lemma SendDelivers(before: seq<State>, first: seq<Event>, during: seq<State>, second: seq<Event>, kindA: Kind,
                     kindB: Kind)
    requires Run(before, first) && before[0] == Initial(kindA, kindB)
    requires Run(during, second) && during[0] == before[|first|]
    requires Drained(during[0].a) && Drained(during[|second|].a)
    ensures var s, t := during[0], during[|second|];
      t.b.taken + t.b.e.rx == s.b.taken + s.b.e.rx + Flatten(QueuedBy(second))
  {
    hide Inv, Next, Drained, Flatten, QueuedBy;
    InvInitial(kindA, kindB);
    RunKeeps(before, first, |first|);
    RunKeeps(during, second, |second|);
    DrainedIsDelivered(during[0]);
    DrainedIsDelivered(during[|second|]);
    SentIsQueued(during, second);
    FlattenConcat(during[0].a.sent, QueuedBy(second));
  }

  /** Every packet on both channels is an I frame that does not poll, or a receive-ready frame. */
  predicate LinkBytes(c: seq<Packet>) {
    forall i: nat | i < |c| :: IsLinkByte(c[i].frame.ctrl)
  }

  lemma StepBytes(s: State, act: Action)
    requires WellFormed(s.a.e) && Enabled(s, act) && LinkBytes(s.ab) && LinkBytes(s.ba)
    ensures LinkBytes(StepA(s, act).ab) && LinkBytes(StepA(s, act).ba)
  {
    hide Received, Queued, ResentFrom, IsLinkByte, IsI, Ns, Outstanding;
    match act
    case Queue(chunk) => QueuedLink(s.a.e, chunk);
    case Deliver => ReceivedLink(s.a.e, s.ba[0].frame);
    case Resend => ResentBytes(s.a.e, s.a.e.va);
    case Take(n) =>
    case Lose(i) =>
  }

  lemma QueuedLink(e: Endpoint, chunk: bytes)
    requires WellFormed(e)
    ensures forall i: nat | i < |Queued(e, chunk).1| :: IsLinkByte(Queued(e, chunk).1[i].ctrl)
  {
    hide Queued;
    QueuedBits(e, chunk);
  }

  lemma ReceivedLink(e: Endpoint, f: Frame)
    requires WellFormed(e)
    ensures forall i: nat | i < |Received(e, f).1| :: IsLinkByte(Received(e, f).1[i].ctrl)
  {
    hide Received;
    ReceivedBits(e, f);
  }

  lemma {:induction false} OnlyLinkBytes(states: seq<State>, events: seq<Event>, kindA: Kind, kindB: Kind, i: nat)
    requires Run(states, events) && states[0] == Initial(kindA, kindB) && i < |states|
    ensures LinkBytes(states[i].ab) && LinkBytes(states[i].ba)
  {
    hide StepA, Enabled, IsLinkByte;
    if i > 0 {
      OnlyLinkBytes(states, events, kindA, kindB, i - 1);
      var s, ev := states[i - 1], events[i - 1];
      assert Next(s, ev, states[i]);
      StepBytes(if ev.atA then s else Flip(s), ev.act);
    }
  }
}
