/** The page of the web application that shows a chat (templates/aprs.html): it polls, it sends, and it moves its
    `HEAD` on by both. Answers of the server reach it later, in any order. */
module ChatPage {
  import opened Prelude
  import opened Aprs
  import opened AprsChat

  // ---------------------------------------------------------------- what the page shows

  /** `HEAD`, and the messages shown, by number. */
  datatype View = View(head: nat, shown: map<nat, Entry>)

  function Ingested(v: View, m: Entry): View {
    View(if m.id > v.head then m.id else v.head, v.shown[m.id := m])
  }

  function IngestedAll(v: View, ms: seq<Entry>): View {
    if |ms| == 0 then v else Ingested(IngestedAll(v, ms[..|ms| - 1]), ms[|ms| - 1])
  }

  /** One thread holds messages of its peer, each once, as they are shown. */
  predicate ThreadShows(t: seq<Entry>, peer: string, shown: map<nat, Entry>) {
    && (forall i: nat | i < |t| :: t[i].peer == peer && t[i].id in shown && shown[t[i].id] == t[i])
    && (forall i: nat, j: nat | i < j < |t| :: t[i].id != t[j].id)
  }

  /** A message never changes its peer. */
  predicate PeerStays(shown: map<nat, Entry>, m: Entry) {
    m.id in shown ==> shown[m.id].peer == m.peer
  }

  class Page {
    var head: nat
    var threads: map<string, seq<Entry>>
    ghost var shown: map<nat, Entry>

    ghost predicate Valid()
      reads this
    {
      && (forall p | p in threads :: ThreadShows(threads[p], p, shown))
      && (forall q | q in shown :: shown[q].id == q && shown[q].peer in threads && shown[q] in threads[shown[q].peer])
    }

    ghost function Model(): View
      reads this
    {
      View(head, shown)
    }

    constructor ()
      ensures Valid() && Model() == View(0, map[])
    {
      head, threads, shown := 0, map[], map[];
    }

    /** The index of the message with this number in a thread. */
    method FindIndex(t: seq<Entry>, id: nat) returns (i: nat)
      ensures i <= |t| && (i < |t| ==> t[i].id == id)
      ensures forall j: nat | j < i :: t[j].id != id
    {
      i := 0;
      while i < |t| && t[i].id != id
        invariant i <= |t| && forall j: nat | j < i :: t[j].id != id
      {
        i := i + 1;
      }
    }

    method IngestOne(m: Entry)
      requires Valid() && PeerStays(shown, m)
      modifies this
      ensures Valid() && Model() == Ingested(old(Model()), m)
    {
      hide ThreadShows;
      var t := if m.peer in threads then threads[m.peer] else [];
      var i := FindIndex(t, m.id);
      ghost var before, threads0 := shown, threads;
      var t1 := if i < |t| then t[i := m] else t + [m];
      threads := threads[m.peer := t1];
      if m.id > head {
        head := m.id;
      }
      shown := shown[m.id := m];
      ThreadsIngest(threads0, t, m, i, before);
    }

    /** `ingest` */
    method Ingest(msgs: seq<Entry>)
      requires Valid() && forall i: nat | i < |msgs| :: PeerStays(shown, msgs[i])
      requires forall i: nat, j: nat | i < j < |msgs| && msgs[i].id == msgs[j].id :: msgs[i].peer == msgs[j].peer
      modifies this
      ensures Valid() && Model() == IngestedAll(old(Model()), msgs)
    {
      hide Page.Valid;
      assert msgs[..0] == [];
      for k := 0 to |msgs|
        invariant Valid() && Model() == IngestedAll(old(Model()), msgs[..k])
        invariant forall i: nat | k <= i < |msgs| :: PeerStays(shown, msgs[i])
      {
        assert msgs[..k + 1][..k] == msgs[..k];
        IngestOne(msgs[k]);
      }
      assert msgs[..|msgs|] == msgs;
    }
  }

  lemma ThreadIngests(t: seq<Entry>, m: Entry, i: nat, shown: map<nat, Entry>)
    requires ThreadShows(t, m.peer, shown) && i <= |t|
    requires (i < |t| ==> t[i].id == m.id) && forall j: nat | j < i :: t[j].id != m.id
    ensures ThreadShows(if i < |t| then t[i := m] else t + [m], m.peer, shown[m.id := m])
  {
  }

  lemma EmptyThread(peer: string, shown: map<nat, Entry>)
    ensures ThreadShows([], peer, shown)
  {
  }

  lemma ThreadsIngest(threads: map<string, seq<Entry>>, t: seq<Entry>, m: Entry, i: nat, shown: map<nat, Entry>)
    requires forall p | p in threads :: ThreadShows(threads[p], p, shown)
    requires forall q | q in shown :: shown[q].id == q && shown[q].peer in threads && shown[q] in threads[shown[q].peer]
    requires t == (if m.peer in threads then threads[m.peer] else []) && PeerStays(shown, m)
    requires i <= |t| && (i < |t| ==> t[i].id == m.id) && forall j: nat | j < i :: t[j].id != m.id
    ensures var t1 := if i < |t| then t[i := m] else t + [m];
      var threads1, shown1 := threads[m.peer := t1], shown[m.id := m];
      && (forall p | p in threads1 :: ThreadShows(threads1[p], p, shown1))
      && forall q | q in shown1 ::
           shown1[q].id == q && shown1[q].peer in threads1 && shown1[q] in threads1[shown1[q].peer]
  {
    hide ThreadShows;
    var t1 := if i < |t| then t[i := m] else t + [m];
    var threads1, shown1 := threads[m.peer := t1], shown[m.id := m];
    EmptyThread(m.peer, shown);
    ThreadIngests(t, m, i, shown);
    forall p | p in threads1
      ensures ThreadShows(threads1[p], p, shown1)
    {
      if p != m.peer {
        OtherThread(threads[p], p, m, shown);
      }
    }
    forall q | q in shown1
      ensures shown1[q].id == q && shown1[q].peer in threads1 && shown1[q] in threads1[shown1[q].peer]
    {
      if q != m.id {
        StillThere(t, m, i, shown[q]);
      } else {
        assert t1[i] == m;
      }
    }
  }

  lemma OtherThread(t: seq<Entry>, peer: string, m: Entry, shown: map<nat, Entry>)
    requires ThreadShows(t, peer, shown) && peer != m.peer && PeerStays(shown, m)
    ensures ThreadShows(t, peer, shown[m.id := m])
  {
  }

  lemma StillThere(t: seq<Entry>, m: Entry, i: nat, e: Entry)
    requires i <= |t| && (i < |t| ==> t[i].id == m.id) && e.id != m.id
    ensures e in t ==> e in (if i < |t| then t[i := m] else t + [m])
  {
    var t1 := if i < |t| then t[i := m] else t + [m];
    if e in t {
      var j: nat :| j < |t| && t[j] == e;
      assert t1[j] == e;
    }
  }

  // ---------------------------------------------------------------- the system

  /** The messages of the server, what the page shows, the answers to its polls and to its sends that are under way, and
      its sends that have not been answered yet, by number. */
  datatype System = System(ms: seq<Entry>, view: View, polls: seq<seq<Entry>>, own: seq<Entry>, owed: set<nat>)

  /** The server goes on; it stores a message that the page sends, answers that request, and answers a poll; an answer
      to a poll or to a send reaches the page. */
  datatype Event = Goes(ms1: seq<Entry>) | Sends(m: Entry) | AnswersSend(q: nat) | AnswersPoll
                 | PollArrives(k: nat) | SendArrives(k: nat)

  predicate InOrder(ms: seq<Entry>) {
    forall i: nat | i < |ms| :: ms[i].id == i + 1
  }

  function Without<T>(s: seq<T>, k: nat): seq<T>
    requires k < |s|
  {
    s[..k] + s[k + 1..]
  }

  predicate Possible(s: System, ev: Event) {
    match ev
    case Goes(ms1) => Later(s.ms, ms1) && InOrder(ms1)
    case Sends(m) => m.id == |s.ms| + 1
    case AnswersSend(q) => q in s.owed && 1 <= q <= |s.ms|
    case AnswersPoll => s.view.head <= |s.ms|
    case PollArrives(k) => k < |s.polls|
    case SendArrives(k) => k < |s.own|
  }

  function Step(s: System, ev: Event): System
    requires Possible(s, ev)
  {
    match ev
    case Goes(ms1) => s.(ms := ms1)
    case Sends(m) => s.(ms := s.ms + [m], owed := s.owed + {m.id})
    case AnswersSend(q) => s.(owed := s.owed - {q}, own := s.own + [s.ms[q - 1]])
    case AnswersPoll => s.(polls := s.polls + [s.ms[s.view.head..]])
    case PollArrives(k) => s.(polls := Without(s.polls, k), view := IngestedAll(s.view, s.polls[k]))
    case SendArrives(k) => s.(own := Without(s.own, k), view := Ingested(s.view, s.own[k]))
  }

  /** A page just opened. */
  function Opened(ms: seq<Entry>): System {
    System(ms, View(0, map[]), [], [], {})
  }

  ghost predicate Run(states: seq<System>, events: seq<Event>) {
    && |states| == |events| + 1
    && forall i: nat | i < |events| :: Possible(states[i], events[i]) && states[i + 1] == Step(states[i], events[i])
  }

  // ---------------------------------------------------------------- the invariant

  /** The answer to a poll holds all messages from some number to another, and its first one is not ahead of the
      page. */
  predicate PollOk(r: seq<Entry>, head: nat, n: nat) {
    r != [] ==> 1 <= r[0].id <= head + 1 && r[0].id + |r| <= n + 1 && Consecutive(r)
  }

  ghost predicate Inv(s: System) {
    && InOrder(s.ms) && s.view.head <= |s.ms|
    && (forall q | q in s.view.shown :: 1 <= q <= s.view.head && s.view.shown[q].id == q)
    && (forall k: nat | k < |s.polls| :: PollOk(s.polls[k], s.view.head, |s.ms|))
    && (forall k: nat | k < |s.own| :: 1 <= s.own[k].id <= |s.ms|)
    && (forall q | q in s.owed :: 1 <= q <= |s.ms|)
  }

  /** `r` holds the messages with these numbers. */
  predicate Consecutive(r: seq<Entry>) {
    forall i: nat | i < |r| :: r[i].id == r[0].id + i
  }

  predicate Within(r: seq<Entry>, q: nat) {
    r != [] && r[0].id <= q < r[0].id + |r|
  }

  lemma {:induction false} IngestedSlice(v: View, r: seq<Entry>)
    requires Consecutive(r)
    ensures var w := IngestedAll(v, r);
      && w.head == (if r != [] && r[0].id + |r| - 1 > v.head then r[0].id + |r| - 1 else v.head)
      && (forall q :: q in w.shown <==> q in v.shown || Within(r, q))
      && (forall q | q in w.shown :: w.shown[q] == if Within(r, q) then r[q - r[0].id] else v.shown[q])
  {
    if r != [] {
      var n := |r| - 1;
      assert Consecutive(r[..n]);
      IngestedSlice(v, r[..n]);
      SliceOne(v, r, IngestedAll(v, r[..n]));
    }
  }

  lemma SliceOne(v: View, r: seq<Entry>, u: View)
    requires Consecutive(r) && r != [] && IngestedAll(v, r) == Ingested(u, r[|r| - 1])
    requires var p := r[..|r| - 1];
      && u.head == (if p != [] && p[0].id + |p| - 1 > v.head then p[0].id + |p| - 1 else v.head)
      && (forall q :: q in u.shown <==> q in v.shown || Within(p, q))
      && (forall q | q in u.shown :: u.shown[q] == if Within(p, q) then p[q - p[0].id] else v.shown[q])
    ensures var w := IngestedAll(v, r);
      && w.head == (if r[0].id + |r| - 1 > v.head then r[0].id + |r| - 1 else v.head)
      && (forall q :: q in w.shown <==> q in v.shown || Within(r, q))
      && (forall q | q in w.shown :: w.shown[q] == if Within(r, q) then r[q - r[0].id] else v.shown[q])
  {
    hide IngestedAll;
    assert r[|r| - 1].id == r[0].id + |r| - 1;
  }

  lemma StepKeeps(s: System, ev: Event)
    requires Inv(s) && Possible(s, ev)
    ensures Inv(Step(s, ev)) && s.view.head <= Step(s, ev).view.head && |s.ms| <= |Step(s, ev).ms|
  {
    hide IngestedAll, PollOk, Consecutive;
    var t := Step(s, ev);
    if ev.PollArrives? {
      PollBounds(s.polls[ev.k], s.view.head, |s.ms|);
      IngestedSlice(s.view, s.polls[ev.k]);
    } else if ev.AnswersPoll? {
      NewPoll(s);
    }
    forall k: nat | k < |t.polls|
      ensures PollOk(t.polls[k], t.view.head, |t.ms|)
    {
      var i := k;
      if ev.PollArrives? {
        i := WithoutOnly(s.polls, ev.k, k);
      }
      if i < |s.polls| {
        PollLater(s.polls[i], s.view.head, t.view.head, |s.ms|, |t.ms|);
      }
    }
  }

  lemma PollBounds(r: seq<Entry>, head: nat, n: nat)
    requires PollOk(r, head, n) && head <= n
    ensures Consecutive(r) && (r != [] ==> 1 <= r[0].id <= head + 1 && r[0].id + |r| <= n + 1)
  {
  }

  lemma PollLater(r: seq<Entry>, head: nat, head1: nat, n: nat, n1: nat)
    requires PollOk(r, head, n) && head <= head1 && n <= n1
    ensures PollOk(r, head1, n1)
  {
  }

  lemma NewPoll(s: System)
    requires InOrder(s.ms) && s.view.head <= |s.ms|
    ensures PollOk(s.ms[s.view.head..], s.view.head, |s.ms|)
  {
  }

  // ---------------------------------------------------------------- which messages are missed

  predicate InAnswer(r: seq<Entry>, q: nat) {
    exists i: nat :: i < |r| && r[i].id == q
  }

  /** Message `q` has reached the page, or is on its way. */
  ghost predicate UnderWay(s: System, q: nat) {
    || q in s.owed
    || (exists k: nat :: k < |s.own| && s.own[k].id == q)
    || (exists k: nat :: k < |s.polls| && InAnswer(s.polls[k], q))
  }

  /** Nothing will bring message `q` to the page: the polls to come ask only for later ones. */
  ghost predicate Missed(s: System, q: nat) {
    1 <= q <= s.view.head && q !in s.view.shown && !UnderWay(s, q)
  }

  /** The answer to a send of the page arrives, with a higher number, while message `q` is neither shown nor under
      way. */
  ghost predicate Overtakes(s: System, ev: Event, q: nat) {
    && ev.SendArrives? && ev.k < |s.own|
    && s.view.head < q < s.own[ev.k].id
    && !UnderWay(s, q)
  }

  lemma WithoutHas<T>(s: seq<T>, k: nat, i: nat) returns (j: nat)
    requires k < |s| && i < |s| && i != k
    ensures j < |s| - 1 && Without(s, k)[j] == s[i]
  {
    j := if i < k then i else i - 1;
  }

  lemma WithoutOnly<T>(s: seq<T>, k: nat, j: nat) returns (i: nat)
    requires k < |s| && j < |s| - 1
    ensures i < |s| && i != k && Without(s, k)[j] == s[i]
  {
    i := if j < k then j else j + 1;
  }

  /** What remains under way when an answer to a poll arrives. */
  lemma PollLeaves(s: System, k: nat, q: nat)
    requires k < |s.polls|
    ensures UnderWay(s, q) <==> UnderWay(Step(s, PollArrives(k)), q) || InAnswer(s.polls[k], q)
  {
    hide InAnswer, IngestedAll;
    var t := Step(s, PollArrives(k));
    if i: nat :| i < |s.polls| && InAnswer(s.polls[i], q) && i != k {
      var j := WithoutHas(s.polls, k, i);
      assert InAnswer(t.polls[j], q);
    }
    if j: nat :| j < |t.polls| && InAnswer(t.polls[j], q) {
      var i := WithoutOnly(s.polls, k, j);
      assert InAnswer(s.polls[i], q);
    }
  }

  lemma SendLeaves(s: System, k: nat, q: nat)
    requires k < |s.own|
    ensures UnderWay(s, q) <==> UnderWay(Step(s, SendArrives(k)), q) || s.own[k].id == q
  {
    hide InAnswer;
    var t := Step(s, SendArrives(k));
    if i: nat :| i < |s.own| && s.own[i].id == q && i != k {
      var j := WithoutHas(s.own, k, i);
      assert t.own[j].id == q;
    }
    if j: nat :| j < |t.own| && t.own[j].id == q {
      var i := WithoutOnly(s.own, k, j);
      assert s.own[i].id == q;
    }
  }

  lemma AnswerMoves(s: System, p: nat, q: nat)
    requires Inv(s) && p in s.owed
    ensures UnderWay(Step(s, AnswersSend(p)), q) <==> UnderWay(s, q)
  {
    hide InAnswer;
    var t := Step(s, AnswersSend(p));
    assert t.own[|s.own|].id == p;
    if k: nat :| k < |s.own| && s.own[k].id == q {
      assert t.own[k].id == q;
    }
    if k: nat :| k < |t.own| && t.own[k].id == q && k < |s.own| {
      assert s.own[k].id == q;
    }
  }

  lemma PollAdds(s: System, q: nat)
    requires Inv(s) && q <= s.view.head
    ensures UnderWay(Step(s, AnswersPoll), q) <==> UnderWay(s, q)
  {
    var t := Step(s, AnswersPoll);
    if k: nat :| k < |s.polls| && InAnswer(s.polls[k], q) {
      assert t.polls[k] == s.polls[k];
    }
    if k: nat :| k < |t.polls| && InAnswer(t.polls[k], q) {
      assert k < |s.polls| ==> t.polls[k] == s.polls[k];
    }
  }

  /** One step: a message is missed from then on if and only if it was before, or is overtaken. */
  lemma MissedNext(s: System, ev: Event, q: nat)
    requires Inv(s) && Possible(s, ev) && 1 <= q
    ensures Missed(Step(s, ev), q) <==> Missed(s, q) || Overtakes(s, ev, q)
  {
    hide UnderWay, IngestedAll, InOrder;
    match ev
    case Goes(ms1) => GoesKeeps(s, ms1, q);
    case Sends(m) => SendsKeeps(s, m, q);
    case AnswersSend(p) => AnswerMoves(s, p, q);
    case AnswersPoll => if q <= s.view.head { PollAdds(s, q); }
    case PollArrives(k) =>
      PollLeaves(s, k, q);
      assert PollOk(s.polls[k], s.view.head, |s.ms|);
      IngestedSlice(s.view, s.polls[k]);
      InAnswerIs(s.polls[k], q);
    case SendArrives(k) => SendLeaves(s, k, q);
  }

  lemma InAnswerIs(r: seq<Entry>, q: nat)
    requires Consecutive(r)
    ensures InAnswer(r, q) <==> Within(r, q)
  {
    if Within(r, q) {
      var i: nat := q - r[0].id;
      assert r[i].id == q;
    }
  }

  lemma GoesKeeps(s: System, ms1: seq<Entry>, q: nat)
    ensures UnderWay(s.(ms := ms1), q) <==> UnderWay(s, q)
  {
  }

  lemma SendsKeeps(s: System, m: Entry, q: nat)
    requires Inv(s) && m.id == |s.ms| + 1
    ensures q <= s.view.head ==> (UnderWay(Step(s, Sends(m)), q) <==> UnderWay(s, q))
  {
    hide InAnswer;
  }

  lemma {:induction false} RunKeeps(states: seq<System>, events: seq<Event>, i: nat)
    requires Run(states, events) && Inv(states[0]) && i < |states|
    ensures Inv(states[i])
  {
    hide Inv, Step, Possible;
    if i > 0 {
      RunKeeps(states, events, i - 1);
      assert Possible(states[i - 1], events[i - 1]);
      StepKeeps(states[i - 1], events[i - 1]);
    }
  }

  /** Exactly which messages the page misses: those overtaken by one of its own sends. */
  lemma {:induction false} MissedIff(states: seq<System>, events: seq<Event>, ms: seq<Entry>, n: nat, q: nat)
    requires Run(states, events) && InOrder(ms) && states[0] == Opened(ms) && n <= |events| && 1 <= q
    ensures Inv(states[n])
    ensures Missed(states[n], q) <==> exists i: nat :: i < n && Overtakes(states[i], events[i], q)
  {
    hide Inv, Missed, Overtakes, Step, Possible;
    OpenedOk(ms, q);
    RunKeeps(states, events, n);
    if n > 0 {
      MissedIff(states, events, ms, n - 1, q);
      assert Possible(states[n - 1], events[n - 1]) && states[n] == Step(states[n - 1], events[n - 1]);
      MissedNext(states[n - 1], events[n - 1], q);
      if i: nat :| i < n && Overtakes(states[i], events[i], q) {
        assert i < n - 1 || i == n - 1;
      }
    }
  }

  lemma OpenedOk(ms: seq<Entry>, q: nat)
    requires InOrder(ms)
    ensures Inv(Opened(ms)) && !Missed(Opened(ms), q)
  {
  }

  /** Nothing is under way, and the last poll has caught up with the server. */
  ghost predicate Settled(s: System) {
    s.polls == [] && s.own == [] && s.owed == {} && s.view.head == |s.ms|
  }

  ghost predicate AllShown(s: System) {
    forall q: nat | 1 <= q <= |s.ms| :: q in s.view.shown
  }

  /** In the end the page shows every message if and only if none was overtaken. */
  lemma ShowsAllIff(states: seq<System>, events: seq<Event>, ms: seq<Entry>)
    requires Run(states, events) && InOrder(ms) && states[0] == Opened(ms) && Settled(states[|events|])
    ensures AllShown(states[|events|]) <==>
      forall i: nat, q: nat | i < |events| && 1 <= q :: !Overtakes(states[i], events[i], q)
  {
    hide Overtakes, Step, Possible, Missed, Settled;
    var s := states[|events|];
    if i: nat, q: nat :| i < |events| && 1 <= q && Overtakes(states[i], events[i], q) {
      MissedIff(states, events, ms, |events|, q);
      MissedAtLast(s, q);
    } else if q: nat :| 1 <= q <= |s.ms| && q !in s.view.shown {
      MissedAtLast(s, q);
      MissedIff(states, events, ms, |events|, q);
    }
  }

  lemma MissedAtLast(s: System, q: nat)
    requires Settled(s)
    ensures Missed(s, q) <==> 1 <= q <= |s.ms| && q !in s.view.shown
  {
  }

  // ---------------------------------------------------------------- what is shown of a message

  /** Once a message is shown and no answer with it is under way, the page shows it as it is, whatever becomes of it. */
  lemma ShownStays(s: System, ev: Event, q: nat)
    requires Inv(s) && Possible(s, ev) && q in s.view.shown && !UnderWay(s, q)
    ensures var t := Step(s, ev); q in t.view.shown && t.view.shown[q] == s.view.shown[q] && !UnderWay(t, q)
  {
    hide UnderWay, IngestedAll, InOrder;
    match ev
    case Goes(ms1) => GoesKeeps(s, ms1, q);
    case Sends(m) => SendsKeeps(s, m, q);
    case AnswersSend(p) => AnswerMoves(s, p, q);
    case AnswersPoll => PollAdds(s, q);
    case PollArrives(k) =>
      PollLeaves(s, k, q);
      assert PollOk(s.polls[k], s.view.head, |s.ms|);
      IngestedSlice(s.view, s.polls[k]);
      InAnswerIs(s.polls[k], q);
    case SendArrives(k) => SendLeaves(s, k, q);
  }

  lemma {:induction false} ShownForGood(states: seq<System>, events: seq<Event>, i: nat, j: nat, q: nat)
    requires Run(states, events) && Inv(states[0]) && i <= j < |states|
    requires q in states[i].view.shown && !UnderWay(states[i], q)
    ensures q in states[j].view.shown && states[j].view.shown[q] == states[i].view.shown[q] && !UnderWay(states[j], q)
    decreases j - i
  {
    hide Inv, Step, Possible, UnderWay;
    if i < j {
      ShownForGood(states, events, i, j - 1, q);
      RunKeeps(states, events, j - 1);
      assert Possible(states[j - 1], events[j - 1]);
      ShownStays(states[j - 1], events[j - 1], q);
    }
  }

  /** `e` is a message as it was at the server at some time. */
  predicate Copy(e: Entry, ms: seq<Entry>) {
    1 <= e.id <= |ms| && LaterEntry(e, ms[e.id - 1])
  }

  predicate AllCopies(r: seq<Entry>, ms: seq<Entry>) {
    forall i: nat | i < |r| :: Copy(r[i], ms)
  }

  /** All that is shown and under way are copies of the server's messages. */
  predicate Copies(s: System) {
    && (forall q | q in s.view.shown :: Copy(s.view.shown[q], s.ms))
    && (forall k: nat | k < |s.polls| :: AllCopies(s.polls[k], s.ms))
    && AllCopies(s.own, s.ms)
  }

  lemma CopyLater(e: Entry, a: seq<Entry>, b: seq<Entry>)
    requires Copy(e, a) && Later(a, b)
    ensures Copy(e, b)
  {
    assert LaterEntry(a[e.id - 1], b[e.id - 1]);
  }

  lemma CopiesLater(s: System, ms1: seq<Entry>)
    requires Copies(s) && Later(s.ms, ms1)
    ensures Copies(s.(ms := ms1))
  {
    hide Copy, Later;
    forall q | q in s.view.shown
      ensures Copy(s.view.shown[q], ms1)
    {
      CopyLater(s.view.shown[q], s.ms, ms1);
    }
    forall k: nat, i: nat | k < |s.polls| && i < |s.polls[k]|
      ensures Copy(s.polls[k][i], ms1)
    {
      assert AllCopies(s.polls[k], s.ms);
      CopyLater(s.polls[k][i], s.ms, ms1);
    }
    forall k: nat | k < |s.own|
      ensures Copy(s.own[k], ms1)
    {
      CopyLater(s.own[k], s.ms, ms1);
    }
  }

  lemma {:induction false} IngestedCopies(v: View, r: seq<Entry>, ms: seq<Entry>)
    requires AllCopies(r, ms) && forall q | q in v.shown :: Copy(v.shown[q], ms)
    ensures var w := IngestedAll(v, r); forall q | q in w.shown :: Copy(w.shown[q], ms)
  {
    hide Copy;
    if |r| > 0 {
      var n := |r| - 1;
      assert Copy(r[n], ms);
      IngestedCopies(v, r[..n], ms);
      assert IngestedAll(v, r).shown == IngestedAll(v, r[..n]).shown[r[n].id := r[n]];
    }
  }

  lemma OwnCopy(s: System, q: nat)
    requires InOrder(s.ms) && 1 <= q <= |s.ms|
    ensures Copy(s.ms[q - 1], s.ms)
  {
  }

  lemma NewCopies(s: System)
    requires InOrder(s.ms) && s.view.head <= |s.ms|
    ensures AllCopies(s.ms[s.view.head..], s.ms)
  {
    hide Copy;
    forall i: nat | i < |s.ms| - s.view.head
      ensures Copy(s.ms[s.view.head..][i], s.ms)
    {
      OwnCopy(s, s.view.head + i + 1);
    }
  }

  lemma PollCopies(s: System, k: nat)
    requires Copies(s) && k < |s.polls|
    ensures Copies(Step(s, PollArrives(k)))
  {
    hide IngestedAll, AllCopies, Copy;
    IngestedCopies(s.view, s.polls[k], s.ms);
    var t := Step(s, PollArrives(k));
    forall j: nat | j < |t.polls|
      ensures AllCopies(t.polls[j], s.ms)
    {
      var i := WithoutOnly(s.polls, k, j);
      assert AllCopies(s.polls[i], s.ms);
    }
    forall q | q in t.view.shown
      ensures Copy(t.view.shown[q], t.ms)
    {
      assert q in IngestedAll(s.view, s.polls[k]).shown;
    }
  }

  lemma StepCopies(s: System, ev: Event)
    requires Inv(s) && Copies(s) && Possible(s, ev)
    ensures Copies(Step(s, ev))
  {
    hide IngestedAll, Later, Copy;
    match ev
    case Goes(ms1) => CopiesLater(s, ms1);
    case Sends(m) =>
      LaterGrown(s.ms, m);
      CopiesLater(s, s.ms + [m]);
    case AnswersSend(q) => OwnCopy(s, q);
    case AnswersPoll => NewCopies(s);
    case PollArrives(k) => PollCopies(s, k);
    case SendArrives(k) =>
      assert Copy(s.own[k], s.ms);
      forall j: nat | j < |s.own| - 1
        ensures Copy(Without(s.own, k)[j], s.ms)
      {
        var i := WithoutOnly(s.own, k, j);
      }
  }

  // ---------------------------------------------------------------- two runs

  /** A message is missed: the page sends when another one has come in since its last poll. It is the answer to its own
      send that moves it past that message, and the next poll brings nothing. */
  lemma MissedHappens(m1: Entry, m2: Entry) returns (states: seq<System>, events: seq<Event>)
    requires m1.id == 1 && m2.id == 2
    ensures Run(states, events) && states[0] == Opened([])
    ensures var s := states[|events|]; Settled(s) && s.ms == [m1, m2] && s.view.shown == map[2 := m2] && Missed(s, 1)
  {
    var v0, v := View(0, map[]), View(2, map[2 := m2]);
    var all := [m1, m2];
    assert all[2..] == [];
    states := [Opened([]), System([m1], v0, [], [], {}), System(all, v0, [], [], {2}), System(all, v0, [], [m2], {}),
               System(all, v, [], [], {}), System(all, v, [[]], [], {}), System(all, v, [], [], {})];
    events := [Goes([m1]), Sends(m2), AnswersSend(2), SendArrives(0), AnswersPoll, PollArrives(0)];
    assert IngestedAll(v, []) == v;
    forall i: nat | i < |events|
      ensures Possible(states[i], events[i]) && states[i + 1] == Step(states[i], events[i])
    {
      assert i == 0 || i == 1 || i == 2 || i == 3 || i == 4 || i == 5;
    }
  }

  /** The page goes on showing a message as being sent that has been acknowledged. */
  lemma StaleHappens(m: Entry) returns (states: seq<System>, events: seq<Event>)
    requires m.id == 1 && m.status == Sending
    ensures Run(states, events) && states[0] == Opened([])
    ensures var s := states[|events|]; 
      Settled(s) && s.ms == [m.(status := Acked)] && s.view.shown == map[1 := m]
  {
    var acked := m.(status := Acked);
    var v0, v := View(0, map[]), View(1, map[1 := m]);
    assert [acked][1..] == [];
    states := [Opened([]), System([m], v0, [], [], {1}), System([m], v0, [], [m], {}), System([m], v, [], [], {}),
               System([acked], v, [], [], {}), System([acked], v, [[]], [], {}), System([acked], v, [], [], {})];
    events := [Sends(m), AnswersSend(1), SendArrives(0), Goes([acked]), AnswersPoll, PollArrives(0)];
    assert IngestedAll(v, []) == v;
    forall i: nat | i < |events|
      ensures Possible(states[i], events[i]) && states[i + 1] == Step(states[i], events[i])
    {
      assert i == 0 || i == 1 || i == 2 || i == 3 || i == 4 || i == 5;
    }
  }

  // ---------------------------------------------------------------- the page and the chat

  /** What can happen, in any order: a frame or a send of somebody else, a pass of the retry loop, a send of the page
      and the answer to it, a poll, and the arrival of an answer. */
  datatype Doing = Happens(h: Happening) | Retries(now: real, meanwhile: seq<seq<Happening>>)
                 | PageSends(peer: string, text: string, want_ack: bool, now: real) | ServerAnswers(q: nat) | PagePolls
                 | PollReturns(k: nat) | SendReturns(k: nat)

  /** Event `ev` is what doing `d` is for the page; an answer that is not there does not arrive. */
  ghost predicate IsEvent(d: Doing, s: System, ev: Event, interval: real, max: nat, for_us: string -> bool) {
    match d
    case Happens(h) => ev.Goes? && Stored(h, s.ms, ev.ms1, for_us)
    case Retries(now, _) => ev.Goes? && |s.ms| <= |ev.ms1| &&
      var due := DueAmong(s.ms, now, interval, max, |s.ms|);
      forall j: nat | j < |s.ms| :: ev.ms1[j].retries == s.ms[j].retries + if j in due then 1 else 0
    case PageSends(peer, text, _, _) => ev.Sends? && SentBy(ev.m, peer, text)
    case ServerAnswers(q) => ev == if q in s.owed && 1 <= q <= |s.ms| then AnswersSend(q) else Goes(s.ms)
    case PagePolls => ev == AnswersPoll
    case PollReturns(k) => ev == if k < |s.polls| then PollArrives(k) else Goes(s.ms)
    case SendReturns(k) => ev == if k < |s.own| then SendArrives(k) else Goes(s.ms)
  }

  /** Chat, page and the answers under way are in state `s`. */
  ghost predicate InState(chat: AprsChat, page: Page, polls: seq<seq<Entry>>, own: seq<Entry>, owed: set<nat>,
                          s: System)
    reads chat, chat.store, page
  {
    s == System(chat.store.messages, page.Model(), polls, own, owed)
  }

  ghost predicate Ready(chat: AprsChat, page: Page)
    reads chat, chat.store, page
  {
    chat.Valid() && chat.begun == None && page.Valid()
  }

  method Do(chat: AprsChat, page: Page, d: Doing, polls0: seq<seq<Entry>>, own0: seq<Entry>, owed0: set<nat>,
            ghost s: System)
    returns (polls: seq<seq<Entry>>, own: seq<Entry>, owed: set<nat>, ghost ev: Event)
    requires Ready(chat, page) && InState(chat, page, polls0, own0, owed0, s) && Inv(s) && Copies(s)
    modifies chat, chat.store, page
    ensures Ready(chat, page) && old(chat.sent) <= chat.sent
    ensures IsEvent(d, s, ev, chat.retry_interval, chat.max_retries, chat.ForUs)
    ensures Possible(s, ev) && InState(chat, page, polls, own, owed, Step(s, ev))
  {
    hide AprsChat.Valid, ChatStore.Valid, Page.Valid, Later, Copies, DueAmong, RetriedOnce, Outputs, Output,
      Retransmitted, SameRetries, OnlyNew, Normal, Sanitized, IngestedAll, Inv, NumberAfter, AprsChat.ForUs, LaterEntry,
      Stored;
    polls, own, owed, ev := polls0, own0, owed0, Goes(s.ms);
    LaterSame(s.ms);
    InvMeans(s);
    match d
    case Happens(h) =>
      chat.Happens(h);
      ev := Goes(chat.store.messages);
      ChatNumbers(chat);
    case Retries(now, meanwhile) =>
      ghost var log := chat.log;
      var _ := chat.ResendDue(now, meanwhile);
      ev := Goes(chat.store.messages);
      ChatNumbers(chat);
      RetriesOf(s.ms, chat.store.messages, log, chat.log,
                DueAmong(s.ms, now, chat.retry_interval, chat.max_retries, |s.ms|));
    case PageSends(peer, text, want_ack, now) =>
      var m := chat.SendText(peer, text, want_ack, now);
      owed := owed + {m.id};
      ev := Sends(m);
    case ServerAnswers(q) =>
      if q in owed && 1 <= q <= |chat.store.messages| {
        owed := owed - {q};
        own := own + [chat.store.messages[q - 1]];
        ev := AnswersSend(q);
      }
    case PagePolls =>
      ValidStore(chat);
      var r := chat.store.Since(page.head);
      polls := polls + [r];
      ev := AnswersPoll;
    case PollReturns(k) =>
      if k < |polls| {
        AnswerFits(s, s.polls[k], page) by {
          CopiesMeans(s, k);
        }
        page.Ingest(polls[k]);
        polls := Without(polls, k);
        ev := PollArrives(k);
      }
    case SendReturns(k) =>
      if k < |own| {
        OwnFits(s, k);
        page.IngestOne(own[k]);
        own := Without(own, k);
        ev := SendArrives(k);
      }
  }

  lemma InvMeans(s: System)
    requires Inv(s)
    ensures InOrder(s.ms) && s.view.head <= |s.ms|
  {
  }

  lemma ChatNumbers(chat: AprsChat)
    requires chat.Valid()
    ensures InOrder(chat.store.messages)
  {
    hide LogOk, EntryOk, Numbered;
  }

  lemma RetriesOf(ms: seq<Entry>, ms1: seq<Entry>, log: seq<Option<nat>>, log1: seq<Option<nat>>, due: seq<nat>)
    requires RetriedOnce(ms, ms1, log, log1, due)
    ensures |ms| <= |ms1|
    ensures forall j: nat | j < |ms| :: ms1[j].retries == ms[j].retries + if j in due then 1 else 0
  {
    hide Count;
  }

  lemma CopiesMeans(s: System, k: nat)
    requires Copies(s) && k < |s.polls|
    ensures AllCopies(s.polls[k], s.ms) && forall q | q in s.view.shown :: Copy(s.view.shown[q], s.ms)
  {
    hide AllCopies, Copy;
  }

  lemma AnswerFits(s: System, r: seq<Entry>, page: Page)
    requires Inv(s) && AllCopies(r, s.ms) && forall q | q in s.view.shown :: Copy(s.view.shown[q], s.ms)
    ensures forall i: nat | i < |r| :: PeerStays(s.view.shown, r[i])
    ensures forall i: nat, j: nat | i < j < |r| && r[i].id == r[j].id :: r[i].peer == r[j].peer
  {
    hide InOrder, PollOk;
    forall i: nat | i < |r|
      ensures Copy(r[i], s.ms)
    {
    }
  }

  lemma OwnFits(s: System, k: nat)
    requires Inv(s) && Copies(s) && k < |s.own|
    ensures PeerStays(s.view.shown, s.own[k])
  {
    hide InOrder, PollOk;
    assert Copy(s.own[k], s.ms);
  }

  /** A page is opened on a chat and anything happens, retries included. What it shows in the end is what a run of the
      system says (`MissedIff`, `ShowsAllIff`, `ShownForGood`), and no message was transmitted too often. */
  method Session(chat: AprsChat, page: Page, doings: seq<Doing>)
    returns (polls: seq<seq<Entry>>, own: seq<Entry>, owed: set<nat>, ghost states: seq<System>,
             ghost events: seq<Event>)
    requires Ready(chat, page) && page.Model() == View(0, map[])
    modifies chat, chat.store, page
    ensures Ready(chat, page) && old(chat.sent) <= chat.sent
    ensures Run(states, events) && states[0] == Opened(old(chat.store.messages)) && |events| == |doings|
    ensures forall i: nat | i < |doings| ::
      IsEvent(doings[i], states[i], events[i], chat.retry_interval, chat.max_retries, chat.ForUs)
    ensures InState(chat, page, polls, own, owed, states[|events|])
    ensures forall i: nat | i < |chat.store.messages| && HasNumber(chat.store.messages[i]) && chat.issued <= NUMBERS ::
      Occurs(chat.sent, chat.store.messages[i].info) == 1 + chat.store.messages[i].retries <= 1 + chat.max_retries
  {
    hide AprsChat.Valid, Page.Valid, Step, Possible, Inv, Copies, IsEvent, Occurs, AprsChat.ForUs;
    polls, own, owed := [], [], {};
    states, events := [Opened(chat.store.messages)], [];
    ChatNumbers(chat);
    OpenedOk(chat.store.messages, 1);
    OpenedCopies(chat.store.messages);
    for k := 0 to |doings|
      invariant Ready(chat, page) && old(chat.sent) <= chat.sent
      invariant Run(states, events) && states[0] == Opened(old(chat.store.messages)) && |events| == k
      invariant forall i: nat | i < k ::
        IsEvent(doings[i], states[i], events[i], chat.retry_interval, chat.max_retries, chat.ForUs)
      invariant InState(chat, page, polls, own, owed, states[k]) && Inv(states[k]) && Copies(states[k])
    {
      ghost var ev;
      polls, own, owed, ev := Do(chat, page, doings[k], polls, own, owed, states[k]);
      StepKeeps(states[k], ev);
      StepCopies(states[k], ev);
      states, events := states + [Step(states[k], ev)], events + [ev];
    }
    forall i: nat | i < |chat.store.messages| && HasNumber(chat.store.messages[i]) && chat.issued <= NUMBERS
      ensures Occurs(chat.sent, chat.store.messages[i].info) == 1 + chat.store.messages[i].retries
      ensures chat.store.messages[i].retries <= chat.max_retries
    {
      AtMost(chat, i);
    }
  }

  lemma OpenedCopies(ms: seq<Entry>)
    ensures Copies(Opened(ms))
  {
  }
}
