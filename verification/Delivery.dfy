/** What the methods of `AX25Stream` do, placed in the system of two endpoints: when `send` returns, the peer has it. */
module Delivery {
  import opened Prelude
  import opened Ax25Link
  import opened Blocks
  import opened Arq
  import opened ArqSteps
  import opened ArqRuns
  import opened Ax25Stream

  /** What side `a` itself does in a run, as acts of its endpoint. */
  function ActsOf(states: seq<State>, events: seq<Event>): seq<Act>
    requires |states| == |events| + 1
  {
    if |events| == 0 then [] else
      var n := |events| - 1;
      ActsOf(states[..n + 1], events[..n]) + if events[n].atA then ActOf(states[n], events[n].act) else []
  }

  function ActOf(s: State, act: Action): seq<Act>
  {
    match act
    case Queue(chunk) => [Queueing(chunk)]
    case Deliver => if s.ba == [] then [] else [Receiving(s.ba[0].frame)]
    case Resend => [Resending]
    case Take(_) => []
    case Lose(_) => []
  }

  /** Side `a` does not call `recv`. */
  predicate NoTake(events: seq<Event>) {
    forall i: nat | i < |events| :: !(events[i].atA && events[i].act.Take?)
  }

  ghost predicate Plays(states: seq<State>, events: seq<Event>, acts: seq<Act>)
    requires |states| == |events| + 1
  {
    && WellFormed(states[0].a.e)
    && Legal(states[0].a.e, acts)
    && states[|events|].a.e == Play(states[0].a.e, acts).0
    && ChunksOf(acts) == QueuedBy(events)
  }

  /** What the peer and the channels do leaves the endpoint alone; each event of its own is one act. */
  lemma OneEvent(s: State, ev: Event, t: State)
    requires Next(s, ev, t) && !(ev.atA && ev.act.Take?)
    ensures WellFormed(s.a.e)
    ensures var acts := if ev.atA then ActOf(s, ev.act) else [];
      && (acts == [] ==> t.a.e == s.a.e)
      && (acts != [] ==> acts == [acts[0]] && t.a.e == Acted(s.a.e, acts[0]).0)
      && (acts != [] && acts[0].Queueing? ==> Outstanding(s.a.e) < WINDOW)
  {
    hide Received, Resent, Outstanding;
  }

  /** The endpoint in a run is the endpoint that the methods compute. */
  lemma {:induction false} RunIsPlay(states: seq<State>, events: seq<Event>)
    requires Run(states, events) && NoTake(events) && WellFormed(states[0].a.e)
    ensures Plays(states, events, ActsOf(states, events))
  {
    hide Next, Acted, Outstanding;
    if |events| > 0 {
      var n := |events| - 1;
      var e := states[0].a.e;
      assert Run(states[..n + 1], events[..n]);
      RunIsPlay(states[..n + 1], events[..n]);
      var acts := ActsOf(states[..n + 1], events[..n]);
      assert Next(states[n], events[n], states[n + 1]);
      OneEvent(states[n], events[n], states[n + 1]);
      var more := if events[n].atA then ActOf(states[n], events[n].act) else [];
      assert ActsOf(states, events) == acts + more;
      if more == [] {
        assert acts + more == acts;
      } else {
        ReachedOne(e, [], acts, Play(e, acts).0, Play(e, acts).1, more[0]);
      }
    }
  }

  /** `send(data)` has returned: during the run the endpoint did just the acts the method reports, and ends as it says.
      Then the peer has taken in everything queued before and after it exactly `data`; and if nothing was outstanding at
      the call, what it took in since is exactly `data`. */
  lemma SendReturned(before: seq<State>, first: seq<Event>, during: seq<State>, second: seq<Event>, kindB: Kind,
                     data: bytes, k: nat, acts: seq<Act>)
    requires Run(before, first) && before[0] == Initial(Stream, kindB)
    requires Run(during, second) && NoTake(second) && during[0] == before[|first|]
    requires ActsOf(during, second) == acts
    requires k > 0 && ChunksOf(acts) == BlocksOf(data, k)
    requires WellFormed(during[0].a.e) && Play(during[0].a.e, acts).0.va == Play(during[0].a.e, acts).0.vs
    ensures var s, t := during[0], during[|second|];
      && t.b.taken + t.b.e.rx == Flatten(s.a.sent) + data
      && (Drained(s.a) ==> t.b.taken + t.b.e.rx == s.b.taken + s.b.e.rx + data)
  {
    hide Inv, Next, Flatten, QueuedBy, BlocksOf, Play, Legal, ChunksOf, ActsOf;
    InvInitial(Stream, kindB);
    RunKeeps(before, first, |first|);
    RunKeeps(during, second, |second|);
    RunIsPlay(during, second);
    DrainedIsDelivered(during[|second|]);
    SentIsQueued(during, second);
    FlattenConcat(during[0].a.sent, QueuedBy(second));
    FlattenBlocks(data, k);
    if Drained(during[0].a) {
      DrainedIsDelivered(during[0]);
    }
  }
}
