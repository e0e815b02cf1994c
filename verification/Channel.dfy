/** Two stations joined by byte streams, with KISS, AX.25 frames and reads of any size (Wire), are the two-endpoint
    system (Arq): what the air and the reads leave out are losses. */
module Channel {
  import opened Prelude
  import opened Ax25Link
  import opened Ax25Frame
  import opened Strings
  import opened Blocks
  import opened Arq
  import opened ArqSteps
  import opened ArqRuns
  import opened Progress
  import Kiss
  import Wire

  function FramesOf(c: seq<Packet>): (r: seq<Frame>)
    ensures |r| == |c|
  {
    seq(|c|, i requires 0 <= i < |c| => c[i].frame)
  }

  /** A run from `s` to `t` in which the channel towards `a` loses frames and nothing else happens. */
  ghost predicate Loses(s: State, t: State, states: seq<State>, events: seq<Event>) {
    && Leads(Freely, s, t, states, events)
    && (forall i: nat | i < |events| :: events[i].atA && events[i].act.Lose?)
    && t == s.(ba := t.ba)
  }

  lemma LosesFirst(s: State, i: nat, u: State, t: State, states: seq<State>, events: seq<Event>)
    requires WellFormed(s.a.e) && WellFormed(s.b.e) && i < |s.ba| && u == s.(ba := s.ba[..i] + s.ba[i + 1..])
    requires Loses(u, t, states, events)
    ensures Loses(s, t, [s] + states, [Event(true, Lose(i))] + events)
  {
    var more, evs := [s] + states, [Event(true, Lose(i))] + events;
    assert Next(s, Event(true, Lose(i)), u);
    forall k: nat | k < |evs|
      ensures Next(more[k], evs[k], more[k + 1])
    {
      hide Next;
      if k > 0 {
        assert Next(states[k - 1], events[k - 1], states[k]);
      }
    }
  }

  lemma LosesNothing(s: State)
    ensures Loses(s, s, [s], [])
  {
  }

  /** Any frames may be lost from a part `c` of a channel, and those before and behind it kept. */
  lemma {:induction false} LosesSome(s: State, pre: seq<Packet>, c: seq<Packet>, tail: seq<Packet>, heard: seq<Frame>)
    returns (t: State, states: seq<State>, events: seq<Event>)
    requires WellFormed(s.a.e) && WellFormed(s.b.e) && s.ba == pre + c + tail
    requires Wire.Subsequence(heard, FramesOf(c))
    ensures Loses(s, t, states, events) && FramesOf(t.ba) == FramesOf(pre) + heard + FramesOf(tail)
    decreases |c|
  {
    hide Loses;
    if c == [] {
      LosesNothing(s);
      return s, [s], [];
    }
    var n := |c| - 1;
    assert FramesOf(c)[..n] == FramesOf(c[..n]);
    if heard != [] && heard[|heard| - 1] == c[n].frame && Wire.Subsequence(heard[..|heard| - 1], FramesOf(c[..n])) {
      assert pre + c[..n] + ([c[n]] + tail) == pre + c + tail;
      t, states, events := LosesSome(s, pre, c[..n], [c[n]] + tail, heard[..|heard| - 1]);
      assert FramesOf([c[n]] + tail) == [c[n].frame] + FramesOf(tail);
      assert heard == heard[..|heard| - 1] + [c[n].frame];
      assert FramesOf(t.ba) == FramesOf(pre) + heard + FramesOf(tail);
    } else {
      var u, i := s.(ba := pre + c[..n] + tail), |pre| + n;
      assert s.ba[..i] + s.ba[i + 1..] == u.ba;
      t, states, events := LosesSome(u, pre, c[..n], tail, heard);
      LosesFirst(s, i, u, t, states, events);
      states, events := [s] + states, [Event(true, Lose(i))] + events;
    }
  }

  /** What is on the channel goes out as bytes and arrives in any reads: then losses alone lead to the state in which
      exactly the frames that `_read_frame` returns are on the channel. */
  lemma ReadsAreLosses(s: State, dest: Call, src: Call, digis: seq<Call>, remote: string, inputs: seq<bytes>)
    returns (t: State, states: seq<State>, events: seq<Event>)
    requires Inv(s) && Canonical(dest) && Canonical(src) && AllCanonical(digis) && |digis| <= 9
    requires Upper(remote) == Upper(Text(src))
    requires Flatten(inputs) == Wire.Transmission(FramesOf(s.ba), dest, src, digis)
    ensures Loses(s, t, states, events) && FramesOf(t.ba) == Wire.Returned(Kiss.IDLE, inputs, remote)
  {
    hide Loses, Inv, Canonical, Text, Upper, Flatten, Wire.Transmission, Wire.Returned, Wire.Subsequence;
    OnlyIAndS(s);
    Wire.WireIsChannel(FramesOf(s.ba), dest, src, digis, remote, inputs);
    var heard := Wire.Returned(Kiss.IDLE, inputs, remote);
    assert [] + s.ba + [] == s.ba;
    t, states, events := LosesSome(s, [], s.ba, [], heard);
    assert FramesOf([]) + heard + FramesOf([]) == heard;
  }

  lemma OnlyIAndS(s: State)
    requires Inv(s)
    ensures WellFormed(s.a.e) && WellFormed(s.b.e)
    ensures forall i | 0 <= i < |s.ba| :: IsI(FramesOf(s.ba)[i].ctrl) || IsS(FramesOf(s.ba)[i].ctrl)
  {
    hide InOrder, Kept, IsI, IsS;
    forall i | 0 <= i < |s.ba|
      ensures IsI(FramesOf(s.ba)[i].ctrl) || IsS(FramesOf(s.ba)[i].ctrl)
    {
      assert PacketOk(s.ba[i], s.b, s.a);
    }
  }

  // ---------------------------------------------------------------- stations on the air

  /** A station: its endpoint with its history, its KISS decoder, and the bytes on their way to it that it has not
      read. */
  datatype Station = Station(e: Endpoint, sent: seq<bytes>, taken: bytes, decoder: Kiss.Decoder, pending: bytes)

  datatype Air = Air(a: Station, b: Station)

  /** A station's callsign, the digipeaters it goes through, and the callsign it listens to, in whatever case. */
  datatype Setup = Setup(call: Call, digis: seq<Call>, remote: string)

  predicate SetUp(x: Setup, y: Setup) {
    Canonical(x.call) && AllCanonical(x.digis) && |x.digis| <= 9 && Upper(x.remote) == Upper(Text(y.call))
  }

  /** What a station can do: queue a chunk, read some of the bytes that have come, send its outstanding chunks again, or
      hand on bytes. */
  datatype Deed = Queues(chunk: bytes) | Reads(n: nat) | Resends | Takes(n: nat)

  predicate Able(x: Station, deed: Deed) {
    WellFormed(x.e) &&
    match deed
    case Queues(_) => Outstanding(x.e) < WINDOW
    case Reads(n) => n <= |x.pending|
    case Resends => x.e.kind.Stream?
    case Takes(n) => n <= |x.e.rx|
  }

  /** The station afterwards, and the frames it writes. Of the frames that one read completes only the first from the
      other station is received. */
  function Done(x: Station, deed: Deed, remote: string): (Station, seq<Frame>)
    requires Able(x, deed)
  {
    match deed
    case Queues(chunk) => (x.(e := Queued(x.e, chunk).0, sent := x.sent + [chunk]), Queued(x.e, chunk).1)
    case Reads(n) =>
      var fed := Kiss.Fed(x.decoder, x.pending[..n]);
      var heard := Wire.AllHeard(fed.1, remote);
      var y := x.(decoder := fed.0, pending := x.pending[n..]);
      if heard == [] then (y, []) else (y.(e := Received(x.e, heard[0]).0), Received(x.e, heard[0]).1)
    case Resends => (x, Resent(x.e))
    case Takes(n) => (x.(e := x.e.(rx := x.e.rx[n..]), taken := x.taken + x.e.rx[..n]), [])
  }

  /** Station `a` does something; of the frames it writes, those in `kept` get through the air. */
  predicate Acts(w: Air, deed: Deed, kept: seq<Frame>, v: Air, x: Setup, y: Setup) {
    && Able(w.a, deed)
    && Wire.Subsequence(kept, Done(w.a, deed, x.remote).1)
    && v.a == Done(w.a, deed, x.remote).0
    && v.b == w.b.(pending := w.b.pending + Wire.Transmission(kept, y.call, x.call, x.digis))
  }

  function Turned(w: Air): Air {
    Air(w.b, w.a)
  }

  predicate AirNext(w: Air, v: Air, atA: bool, deed: Deed, kept: seq<Frame>, x: Setup, y: Setup) {
    if atA then Acts(w, deed, kept, v, x, y) else Acts(Turned(w), deed, kept, Turned(v), y, x)
  }

  function AirFresh(kind: Kind): Station {
    Station(Endpoint(kind, 0, 0, 0, map[], []), [], [], Kiss.IDLE, [])
  }

  // ---------------------------------------------------------------- they are the system of two endpoints

  /** The bytes not yet read will be decoded to the frames on the channel. */
  ghost predicate Coupled(x: Station, c: seq<Packet>, remote: string) {
    && Kiss.Fed(x.decoder, x.pending).0 == Kiss.IDLE
    && Wire.AllHeard(Kiss.Fed(x.decoder, x.pending).1, remote) == FramesOf(c)
  }

  predicate SameSide(x: Station, y: Side) {
    x.e == y.e && x.sent == y.sent && x.taken == y.taken
  }

  ghost predicate Stands(w: Air, s: State, x: Setup, y: Setup) {
    && Inv(s) && SameSide(w.a, s.a) && SameSide(w.b, s.b)
    && Coupled(w.a, s.ba, x.remote) && Coupled(w.b, s.ab, y.remote)
  }

  lemma FlipRun(s: State, t: State)
    requires Can(Freely, Flip(s), Flip(t))
    ensures Can(Freely, s, t)
  {
    hide StepA, Enabled;
    var states: seq<State>, events: seq<Event> :| Leads(Freely, Flip(s), Flip(t), states, events);
    var flipped := seq(|states|, i requires 0 <= i < |states| => Flip(states[i]));
    var others := seq(|events|, i requires 0 <= i < |events| => Event(!events[i].atA, events[i].act));
    forall i: nat | i < |others|
      ensures Next(flipped[i], others[i], flipped[i + 1])
    {
      assert Next(states[i], events[i], states[i + 1]);
    }
    assert Leads(Freely, s, t, flipped, others);
  }

  /** Whatever is written goes on the channel, and what does not get through the air is lost from it. */
  lemma WriteStands(x: Station, c: seq<Packet>, s: State, out: seq<Frame>, kept: seq<Frame>, me: Setup, you: Setup)
    returns (t: State)
    requires Inv(s) && SetUp(you, me) && SetUp(me, you) && Coupled(x, c, me.remote)
    requires c <= s.ba && FramesOf(s.ba[|c|..]) == out && Wire.Subsequence(kept, out)
    ensures Can(Freely, s, t) && Inv(t) && t == s.(ba := t.ba)
    ensures Coupled(x.(pending := x.pending + Wire.Transmission(kept, me.call, you.call, you.digis)), t.ba, me.remote)
  {
    hide Inv, Next, Wire.Subsequence, Wire.Transmission, Kiss.Fed, Wire.AllHeard, Canonical, AllCanonical, Text, Upper;
    OnlyIAndS(s);
    var d := s.ba[|c|..];
    assert s.ba == c + d + [];
    var states, events;
    t, states, events := LosesSome(s, c, d, [], kept);
    LosesCan(s, t, states, events);
    assert FramesOf(t.ba) == FramesOf(c) + kept + FramesOf([]) == FramesOf(c) + kept;
    OnlyIAndS(t);
    forall i | 0 <= i < |kept|
      ensures IsI(kept[i].ctrl) || IsS(kept[i].ctrl)
    {
      assert FramesOf(t.ba)[|c| + i] == kept[i];
    }
    var sent := Wire.Transmission(kept, me.call, you.call, you.digis);
    Wire.Transmitted(kept, me.call, you.call, you.digis, me.remote);
    Kiss.FedConcat(x.decoder, x.pending, sent);
    Wire.HeardConcat(Kiss.Fed(x.decoder, x.pending).1, Kiss.Fed(Kiss.IDLE, sent).1, me.remote);
  }

  lemma LosesCan(s: State, t: State, states: seq<State>, events: seq<Event>)
    requires Inv(s) && Loses(s, t, states, events)
    ensures Can(Freely, s, t) && Inv(t) && t == s.(ba := t.ba)
  {
    hide Inv, Next;
    RunKeeps(states, events, |events|);
  }

  /** What station `a` writes is put on the channel, when all else is done. */
  lemma Written(w: Air, deed: Deed, kept: seq<Frame>, v: Air, x: Setup, y: Setup, s: State, u: State) returns (t: State)
    requires SetUp(x, y) && SetUp(y, x) && Acts(w, deed, kept, v, x, y) && Coupled(w.b, s.ab, y.remote)
    requires Inv(u) && u.b == s.b && SameSide(w.b, s.b) && SameSide(v.a, u.a) && Coupled(v.a, u.ba, x.remote)
    requires s.ab <= u.ab && FramesOf(u.ab[|s.ab|..]) == Done(w.a, deed, x.remote).1
    ensures Can(Freely, u, t) && Stands(v, t, x, y)
  {
    hide Inv, Can, SetUp, Coupled, Done, Able, Wire.Subsequence, Wire.Transmission;
    InvFlip(u);
    var r := WriteStands(w.b, s.ab, Flip(u), Done(w.a, deed, x.remote).1, kept, y, x);
    t := Flip(r);
    InvFlip(r);
    FlipRun(u, t);
  }

  lemma NothingKept(kept: seq<Frame>)
    requires Wire.Subsequence(kept, [])
    ensures kept == []
  {
  }

  /** A read completes no frame. */
  lemma ReadsNothing(x: Station, n: nat, c: seq<Packet>, remote: string)
    requires Able(x, Reads(n)) && Coupled(x, c, remote)
    requires Wire.AllHeard(Kiss.Fed(x.decoder, x.pending[..n]).1, remote) == []
    ensures Coupled(Done(x, Reads(n), remote).0, c, remote) && Done(x, Reads(n), remote).1 == []
  {
    hide Kiss.Fed, Wire.AllHeard, Received;
    ReadSplits(x, n, c, remote);
  }

  /** What a read completes comes first, and the bytes left couple with the rest. */
  lemma ReadSplits(x: Station, n: nat, c: seq<Packet>, remote: string)
    requires n <= |x.pending| && Coupled(x, c, remote)
    ensures var fed := Kiss.Fed(x.decoder, x.pending[..n]);
      var heard, rest := Wire.AllHeard(fed.1, remote), Kiss.Fed(fed.0, x.pending[n..]);
      && rest.0 == Kiss.IDLE && FramesOf(c) == heard + Wire.AllHeard(rest.1, remote)
      && |heard| <= |c| && FramesOf(c[|heard|..]) == Wire.AllHeard(rest.1, remote)
  {
    hide Kiss.Fed, Wire.AllHeard;
    assert x.pending[..n] + x.pending[n..] == x.pending;
    Kiss.FedConcat(x.decoder, x.pending[..n], x.pending[n..]);
    var fed := Kiss.Fed(x.decoder, x.pending[..n]);
    Wire.HeardConcat(fed.1, Kiss.Fed(fed.0, x.pending[n..]).1, remote);
    var heard := Wire.AllHeard(fed.1, remote);
    assert FramesOf(c)[|heard|..] == FramesOf(c[|heard|..]);
  }

  /** A read that completes frames: all but the first are lost, and that one is received. */
  lemma ReadsSome(w: Air, n: nat, s: State, remote: string) returns (u: State)
    requires Inv(s) && SameSide(w.a, s.a) && Coupled(w.a, s.ba, remote) && Able(w.a, Reads(n))
    requires Wire.AllHeard(Kiss.Fed(w.a.decoder, w.a.pending[..n]).1, remote) != []
    ensures Can(Freely, s, u) && Inv(u) && u.b == s.b && SameSide(Done(w.a, Reads(n), remote).0, u.a)
    ensures Coupled(Done(w.a, Reads(n), remote).0, u.ba, remote)
    ensures s.ab <= u.ab && FramesOf(u.ab[|s.ab|..]) == Done(w.a, Reads(n), remote).1
  {
    hide Inv, Next, Can, Kiss.Fed, Wire.AllHeard, Received, IsI, Ns;
    OnlyIAndS(s);
    ReadSplits(w.a, n, s.ba, remote);
    var heard := Wire.AllHeard(Kiss.Fed(w.a.decoder, w.a.pending[..n]).1, remote);
    var k := |heard|;
    assert s.ba == s.ba[..1] + s.ba[1..k] + s.ba[k..];
    assert Wire.Subsequence([], FramesOf(s.ba[1..k]));
    var r, states, events := LosesSome(s, s.ba[..1], s.ba[1..k], s.ba[k..], []);
    LosesCan(s, r, states, events);
    assert FramesOf(s.ba)[0] == heard[0];
    assert FramesOf(s.ba[..1]) == [heard[0]];
    assert FramesOf(r.ba) == [heard[0]] + FramesOf(s.ba[k..]);
    u := Receives(r, heard[0], FramesOf(s.ba[k..]));
    Then(Freely, s, r, u);
  }

  lemma Receives(r: State, f: Frame, rest: seq<Frame>) returns (u: State)
    requires Inv(r) && FramesOf(r.ba) == [f] + rest
    ensures Can(Freely, r, u) && Inv(u) && u.b == r.b && FramesOf(u.ba) == rest && WellFormed(r.a.e)
    ensures u.a.e == Received(r.a.e, f).0 && u.a.sent == r.a.sent && u.a.taken == r.a.taken
    ensures r.ab <= u.ab && FramesOf(u.ab[|r.ab|..]) == Received(r.a.e, f).1
  {
    hide Inv, Can, Received, IsI, Ns;
    OnlyIAndS(r);
    assert FramesOf(r.ba)[0] == f;
    u := StepA(r, Deliver);
    assert Next(r, Event(true, Deliver), u);
    NextKeeps(r, Event(true, Deliver), u);
    Stay(Freely, u);
    StepThen(Freely, r, Event(true, Deliver), u, u);
    assert FramesOf(r.ba)[1..] == FramesOf(u.ba);
    var out := Received(r.a.e, f).1;
    assert u.ab[|r.ab|..] == Stamped(out, u.a, 0);
  }

  /** The other deeds are steps of the system. */
  lemma Steps(s: State, act: Action, out: seq<Frame>, num: nat) returns (u: State)
    requires Inv(s) && WellFormed(s.a.e) && Enabled(s, act) && !act.Deliver?
    requires act.Lose? || StepA(s, act).ab == s.ab + Stamped(out, StepA(s, act).a, num)
    ensures u == StepA(s, act) && Can(Freely, s, u) && Inv(u)
    ensures !act.Lose? ==> s.ab <= u.ab && FramesOf(u.ab[|s.ab|..]) == out
  {
    hide Inv, Can, StepA, Enabled;
    SideSmall(s);
    u := StepA(s, act);
    assert Next(s, Event(true, act), u);
    NextKeeps(s, Event(true, act), u);
    Stay(Freely, u);
    StepThen(Freely, s, Event(true, act), u, u);
    if !act.Lose? {
      assert u.ab[|s.ab|..] == Stamped(out, u.a, num);
    }
  }

  /** Whatever a station does on the air, the system of two endpoints can do. */
  lemma ActStands(w: Air, deed: Deed, kept: seq<Frame>, v: Air, x: Setup, y: Setup, s: State) returns (t: State)
    requires SetUp(x, y) && SetUp(y, x) && Acts(w, deed, kept, v, x, y) && Stands(w, s, x, y)
    ensures Can(Freely, s, t) && Stands(v, t, x, y)
  {
    hide Inv, Can, SetUp, Coupled, Kiss.Fed, Wire.AllHeard, Wire.Subsequence, Wire.Transmission, Received,
      ResentFrom, IFrame;
    var u: State;
    match deed
    case Queues(chunk) =>
      u := Steps(s, Queue(chunk), Queued(s.a.e, chunk).1, |s.a.sent|);
      SameCoupling(w.a, v.a, s.ba, x.remote);
      t := Written(w, deed, kept, v, x, y, s, u);
      Then(Freely, s, u, t);
    case Resends =>
      u := Steps(s, Resend, Resent(s.a.e), s.a.base);
      t := Written(w, deed, kept, v, x, y, s, u);
      Then(Freely, s, u, t);
    case Takes(n) =>
      assert s.ab + Stamped([], s.a, 0) == s.ab;
      u := Steps(s, Take(n), [], 0);
      SameCoupling(w.a, v.a, s.ba, x.remote);
      t := Written(w, deed, kept, v, x, y, s, u);
      Then(Freely, s, u, t);
    case Reads(n) =>
      if Wire.AllHeard(Kiss.Fed(w.a.decoder, w.a.pending[..n]).1, x.remote) == [] {
        ReadsNothing(w.a, n, s.ba, x.remote);
        assert FramesOf(s.ab[|s.ab|..]) == [];
        t := Written(w, deed, kept, v, x, y, s, s);
      } else {
        u := ReadsSome(w, n, s, x.remote);
        t := Written(w, deed, kept, v, x, y, s, u);
        Then(Freely, s, u, t);
      }
  }

  lemma SameCoupling(x: Station, y: Station, c: seq<Packet>, remote: string)
    requires Coupled(x, c, remote) && y.decoder == x.decoder && y.pending == x.pending
    ensures Coupled(y, c, remote)
  {
  }

  lemma NextStands(w: Air, v: Air, atA: bool, deed: Deed, kept: seq<Frame>, x: Setup, y: Setup, s: State)
    returns (t: State)
    requires SetUp(x, y) && SetUp(y, x) && AirNext(w, v, atA, deed, kept, x, y) && Stands(w, s, x, y)
    ensures Can(Freely, s, t) && Stands(v, t, x, y)
  {
    hide Inv, Can, SetUp, Coupled, Acts;
    if atA {
      t := ActStands(w, deed, kept, v, x, y, s);
    } else {
      InvFlip(s);
      var r := ActStands(Turned(w), deed, kept, Turned(v), y, x, Flip(s));
      t := Flip(r);
      InvFlip(r);
      FlipRun(s, t);
    }
  }

  // ---------------------------------------------------------------- runs on the air

  datatype AirEvent = AirEvent(atA: bool, deed: Deed, kept: seq<Frame>)

  predicate AirRun(air: seq<Air>, events: seq<AirEvent>, x: Setup, y: Setup) {
    && |air| == |events| + 1
    && forall i: nat | i < |events| :: AirNext(air[i], air[i + 1], events[i].atA, events[i].deed, events[i].kept, x, y)
  }

  /** Every run of two stations, byte by byte on the air, is one of the system of two endpoints. */
  lemma {:induction false} AirIsArq(air: seq<Air>, events: seq<AirEvent>, x: Setup, y: Setup, kindA: Kind, kindB: Kind,
                                    i: nat)
    returns (s: State)
    requires SetUp(x, y) && SetUp(y, x) && AirRun(air, events, x, y) && i < |air|
    requires air[0] == Air(AirFresh(kindA), AirFresh(kindB))
    ensures Can(Freely, Initial(kindA, kindB), s) && Stands(air[i], s, x, y)
  {
    hide Inv, Can, SetUp, Coupled, AirNext;
    if i == 0 {
      s := Initial(kindA, kindB);
      InvInitial(kindA, kindB);
      Stay(Freely, s);
      FreshCoupled(kindA, x.remote);
      FreshCoupled(kindB, y.remote);
    } else {
      var r := AirIsArq(air, events, x, y, kindA, kindB, i - 1);
      var ev := events[i - 1];
      s := NextStands(air[i - 1], air[i], ev.atA, ev.deed, ev.kept, x, y, r);
      Then(Freely, Initial(kindA, kindB), r, s);
    }
  }

  lemma FreshCoupled(kind: Kind, remote: string)
    ensures Coupled(AirFresh(kind), [], remote)
  {
    Kiss.FedNothing(Kiss.IDLE);
    Wire.NoneHeard(remote);
  }

  /** Prefix safety on the air: whatever is lost and however the bytes are read, what each station has taken in is a
      prefix of what the other has queued. */
  lemma AirPrefixSafety(air: seq<Air>, events: seq<AirEvent>, x: Setup, y: Setup, kindA: Kind, kindB: Kind, i: nat)
    requires SetUp(x, y) && SetUp(y, x) && AirRun(air, events, x, y) && i < |air|
    requires air[0] == Air(AirFresh(kindA), AirFresh(kindB))
    ensures air[i].b.taken + air[i].b.e.rx <= Flatten(air[i].a.sent)
    ensures air[i].a.taken + air[i].a.e.rx <= Flatten(air[i].b.sent)
  {
    hide Inv, Next, SetUp, Coupled, AirNext, Flatten;
    var s := AirIsArq(air, events, x, y, kindA, kindB, i);
    var states: seq<State>, steps: seq<Event> :| Leads(Freely, Initial(kindA, kindB), s, states, steps);
    PrefixSafety(states, steps, kindA, kindB, |steps|);
  }

  /** Delivery on the air: when a station has nothing outstanding, the other has taken in exactly what it has queued. */
  lemma AirDelivers(air: seq<Air>, events: seq<AirEvent>, x: Setup, y: Setup, kindA: Kind, kindB: Kind, i: nat)
    requires SetUp(x, y) && SetUp(y, x) && AirRun(air, events, x, y) && i < |air|
    requires air[0] == Air(AirFresh(kindA), AirFresh(kindB)) && air[i].a.e.va == air[i].a.e.vs
    ensures air[i].b.taken + air[i].b.e.rx == Flatten(air[i].a.sent)
  {
    hide Inv, SetUp, Coupled, AirNext, Flatten;
    var s := AirIsArq(air, events, x, y, kindA, kindB, i);
    DrainedIsDelivered(s);
  }
}
