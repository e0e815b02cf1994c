/** Classes `ChatStore` and `AprsChat` of aprschat.py: the threads of one chat, acknowledgement and retries. */
module AprsChat {
  import opened Prelude
  import opened Strings
  import opened Aprs

  datatype Status = Sending | Acked | Unconfirmed | Failed | Incoming

  datatype Entry = Entry(id: nat, out: bool, peer: string, text: string, msgno: Option<string>, ts: real,
                         status: Status, retries: nat, info: string)

  // ---------------------------------------------------------------- the store

  /** `m` is the outgoing message to `peer` with this number. */
  predicate Matches(m: Entry, peer: string, msgno: string) {
    m.out && m.peer == peer && m.msgno == Some(msgno)
  }

  /** The first match from index `i` on. */
  function FirstMatch(ms: seq<Entry>, peer: string, msgno: string, i: nat): (r: Option<nat>)
    requires i <= |ms|
    ensures r.Some? ==> i <= r.value < |ms| && Matches(ms[r.value], peer, msgno)
    ensures forall k: nat | i <= k < (if r.Some? then r.value else |ms|) :: !Matches(ms[k], peer, msgno)
    decreases |ms| - i
  {
    if i == |ms| then None
    else if Matches(ms[i], peer, msgno) then Some(i)
    else FirstMatch(ms, peer, msgno, i + 1)
  }

  /** `t` lists the messages of `peer` in order. */
  predicate IsThread(t: seq<nat>, ms: seq<Entry>, peer: string) {
    && (forall a: nat, b: nat | a < b < |t| :: t[a] < t[b])
    && (forall a: nat | a < |t| :: t[a] < |ms| && ms[t[a]].peer == peer)
    && (forall i: nat | i < |ms| && ms[i].peer == peer :: i in t)
  }

  /** The first match in a thread from its position `a` on is the first in the whole list. */
  lemma ThreadMatch(t: seq<nat>, ms: seq<Entry>, peer: string, msgno: string, a: nat)
    requires IsThread(t, ms, peer) && a <= |t|
    requires forall b: nat | b < a :: !Matches(ms[t[b]], peer, msgno)
    ensures a < |t| && Matches(ms[t[a]], peer, msgno) ==> FirstMatch(ms, peer, msgno, 0) == Some(t[a])
    ensures a == |t| ==> FirstMatch(ms, peer, msgno, 0) == None
  {
    var r := FirstMatch(ms, peer, msgno, 0);
    if r.Some? {
      assert r.value in t;
      var b: nat :| b < |t| && t[b] == r.value;
      assert b >= a;
    }
  }

  class ChatStore {
    var seqno: nat
    var messages: seq<Entry>
    /** Positions in `messages`, thread by thread. */
    var threads: map<string, seq<nat>>

    ghost predicate Valid()
      reads this
    {
      && seqno == |messages|
      && (forall i: nat | i < |messages| :: messages[i].id == i + 1)
      && (forall p | p in threads :: IsThread(threads[p], messages, p))
      && (forall i: nat | i < |messages| :: messages[i].peer in threads)
    }

    constructor ()
      ensures Valid() && messages == []
    {
      seqno, messages, threads := 0, [], map[];
    }

    method Add(out: bool, peer: string, text: string, msgno: Option<string>, status: Status, info: string, now: real)
      returns (m: Entry)
      requires Valid()
      modifies this
      ensures Valid() && m == Entry(old(seqno) + 1, out, Normal(peer), text, msgno, now, status, 0, info)
      ensures messages == old(messages) + [m]
    {
      hide IsThread;
      var p := Normal(peer);
      seqno := seqno + 1;
      m := Entry(seqno, out, p, text, msgno, now, status, 0, info);
      ThreadsGrow(threads, messages, m);
      messages := messages + [m];
      threads := threads[p := (if p in threads then threads[p] else []) + [|messages| - 1]];
    }

    method FindOutgoing(peer: string, msgno: string) returns (r: Option<nat>)
      requires Valid()
      ensures r == FirstMatch(messages, Normal(peer), msgno, 0)
    {
      hide FirstMatch;
      var p := Normal(peer);
      if p !in threads {
        NoThread(threads, messages, p, msgno);
        return None;
      }
      var t := threads[p];
      for a := 0 to |t|
        invariant forall b: nat | b < a :: !Matches(messages[t[b]], p, msgno)
      {
        ThreadMatch(t, messages, p, msgno, a);
        var m := messages[t[a]];
        if m.out && m.msgno == Some(msgno) {
          return Some(t[a]);
        }
      }
      ThreadMatch(t, messages, p, msgno, |t|);
      r := None;
    }

    /** `since`: everything numbered above `q`. */
    method Since(q: nat) returns (r: seq<Entry>)
      requires Valid()
      ensures r == if q <= |messages| then messages[q..] else []
    {
      r := [];
      for i := 0 to |messages|
        invariant r == if q <= i then messages[q..i] else []
      {
        if messages[i].id > q {
          r := r + [messages[i]];
        }
      }
    }
  }

  lemma NoThread(threads: map<string, seq<nat>>, ms: seq<Entry>, p: string, msgno: string)
    requires forall i: nat | i < |ms| :: ms[i].peer in threads
    requires p !in threads
    ensures FirstMatch(ms, p, msgno, 0) == None
  {
  }

  lemma ThreadsGrow(threads: map<string, seq<nat>>, ms: seq<Entry>, m: Entry)
    requires forall p | p in threads :: IsThread(threads[p], ms, p)
    requires forall i: nat | i < |ms| :: ms[i].peer in threads
    ensures var ms1 := ms + [m];
      && IsThread((if m.peer in threads then threads[m.peer] else []) + [|ms|], ms1, m.peer)
      && forall p | p in threads && p != m.peer :: IsThread(threads[p], ms1, p)
  {
    hide IsThread;
    var t := if m.peer in threads then threads[m.peer] else [];
    if m.peer !in threads {
      EmptyThread(ms, m.peer);
    }
    ThreadExtends(t, ms, m);
    forall p | p in threads && p != m.peer
      ensures IsThread(threads[p], ms + [m], p)
    {
      ThreadSkips(threads[p], ms, m, p);
    }
  }

  lemma EmptyThread(ms: seq<Entry>, peer: string)
    requires forall i: nat | i < |ms| :: ms[i].peer != peer
    ensures IsThread([], ms, peer)
  {
  }

  lemma ThreadSkips(t: seq<nat>, ms: seq<Entry>, m: Entry, peer: string)
    requires IsThread(t, ms, peer) && m.peer != peer
    ensures IsThread(t, ms + [m], peer)
  {
  }

  lemma ThreadExtends(t: seq<nat>, ms: seq<Entry>, m: Entry)
    requires IsThread(t, ms, m.peer)
    ensures IsThread(t + [|ms|], ms + [m], m.peer)
  {
    var t1, ms1 := t + [|ms|], ms + [m];
    forall i: nat | i < |ms1| && ms1[i].peer == m.peer
      ensures i in t1
    {
      if i < |ms| {
        assert i in t;
      } else {
        assert t1[|t|] == i;
      }
    }
  }

  // ---------------------------------------------------------------- time

  /** What time can do to messages: their contents stay, retries only grow, and none returns to being sent. */
  predicate LaterEntry(a: Entry, b: Entry) {
    && b == a.(status := b.status, retries := b.retries)
    && a.retries <= b.retries
    && (a.status != Sending ==> b.status != Sending)
  }

  predicate Later(a: seq<Entry>, b: seq<Entry>) {
    |a| <= |b| && forall i: nat | i < |a| :: LaterEntry(a[i], b[i])
  }

  lemma LaterSame(a: seq<Entry>)
    ensures Later(a, a)
  {
  }

  lemma LaterTrans(a: seq<Entry>, b: seq<Entry>, c: seq<Entry>)
    requires Later(a, b) && Later(b, c)
    ensures Later(a, c)
  {
    forall i: nat | i < |a|
      ensures LaterEntry(a[i], c[i])
    {
      assert LaterEntry(a[i], b[i]) && LaterEntry(b[i], c[i]);
    }
  }

  // ---------------------------------------------------------------- the chat

  /** How often message `i` has been transmitted. */
  function Count(log: seq<Option<nat>>, i: nat): nat {
    if |log| == 0 then 0 else Count(log[..|log| - 1], i) + if log[|log| - 1] == Some(i) then 1 else 0
  }

  lemma CountOne(log: seq<Option<nat>>, x: Option<nat>, i: nat)
    ensures Count(log + [x], i) == Count(log, i) + if x == Some(i) then 1 else 0
  {
    assert (log + [x])[..|log|] == log;
  }

  /** The part of a callsign before the dash. */
  function Base(call: string): string {
    call[..Dash(call)]
  }

  /** A frame: the sender, the information field, and the time it arrives. */
  datatype Arrival = Arrival(src: string, info: string, now: real)

  /** The messages after an acknowledgement or a rejection of the message at `r`. */
  function Settled(ms: seq<Entry>, r: Option<nat>, ack: bool): (s: seq<Entry>)
    requires r.Some? ==> r.value < |ms|
    ensures |s| == |ms|
  {
    if r.None? then ms
    else if !ack then ms[r.value := ms[r.value].(status := Failed)]
    else if ms[r.value].status in {Sending, Unconfirmed, Failed} then ms[r.value := ms[r.value].(status := Acked)]
    else ms
  }

  /** Message `m` is outgoing, not acknowledged, and the time for its next transmission has come. */
  predicate Overdue(m: Entry, now: real, interval: real) {
    m.out && m.status == Sending && Elapsed(m, now, interval)
  }

  predicate Elapsed(m: Entry, now: real, interval: real) {
    now - m.ts >= interval * (m.retries + 1) as real
  }

  /** `due_retries` gives up on a message that has been retried often enough. */
  function Reviewed(m: Entry, now: real, interval: real, max: nat): Entry {
    if Overdue(m, now, interval) && m.retries >= max then m.(status := Failed) else m
  }

  /** The positions of the messages to be transmitted again, among the first `n`. */
  function DueAmong(ms: seq<Entry>, now: real, interval: real, max: nat, n: nat): seq<nat>
    requires n <= |ms|
  {
    if n == 0 then [] else
      DueAmong(ms, now, interval, max, n - 1) +
      if Overdue(ms[n - 1], now, interval) && ms[n - 1].retries < max then [n - 1] else []
  }

  lemma NoneDue(ms: seq<Entry>, now: real, interval: real, max: nat)
    ensures DueAmong(ms, now, interval, max, 0) == []
  {
  }

  lemma DueNext(ms: seq<Entry>, now: real, interval: real, max: nat, n: nat)
    requires n < |ms|
    ensures DueAmong(ms, now, interval, max, n + 1) == DueAmong(ms, now, interval, max, n) +
      if Overdue(ms[n], now, interval) && ms[n].retries < max then [n] else []
  {
    hide Overdue;
  }

  /** `due` are positions below `n` of overdue messages with retries left, in order. */
  predicate IsDue(due: seq<nat>, ms: seq<Entry>, now: real, interval: real, max: nat, n: nat)
    requires n <= |ms|
  {
    && (forall a: nat | a < |due| :: due[a] < n && Overdue(ms[due[a]], now, interval) && ms[due[a]].retries < max)
    && (forall a: nat, b: nat | a < b < |due| :: due[a] < due[b])
  }

  lemma {:induction false} DueIs(ms: seq<Entry>, now: real, interval: real, max: nat, n: nat)
    requires n <= |ms|
    ensures IsDue(DueAmong(ms, now, interval, max, n), ms, now, interval, max, n)
  {
    hide Overdue;
    if n > 0 {
      DueIs(ms, now, interval, max, n - 1);
      DueGrows(DueAmong(ms, now, interval, max, n - 1), ms, now, interval, max, n);
    }
  }

  lemma DueGrows(due: seq<nat>, ms: seq<Entry>, now: real, interval: real, max: nat, n: nat)
    requires 0 < n <= |ms| && IsDue(due, ms, now, interval, max, n - 1)
    ensures IsDue(due, ms, now, interval, max, n)
    ensures Overdue(ms[n - 1], now, interval) && ms[n - 1].retries < max ==>
      IsDue(due + [n - 1], ms, now, interval, max, n)
  {
    hide Overdue;
  }

  /** A message that is no longer being sent is never due again, however much later. */
  lemma NeverDueAgain(a: seq<Entry>, b: seq<Entry>, i: nat, now: real, interval: real, max: nat)
    requires Later(a, b) && i < |a| && a[i].status != Sending
    ensures i !in DueAmong(b, now, interval, max, |b|)
  {
    hide DueAmong;
    DueIs(b, now, interval, max, |b|);
    assert LaterEntry(a[i], b[i]);
  }

  // ---------------------------------------------------------------- polling

  /** The store as it is at one poll after the other. */
  ghost predicate Chain(states: seq<seq<Entry>>) {
    && (forall k: nat, i: nat | k < |states| && i < |states[k]| :: states[k][i].id == i + 1)
    && (forall k: nat, j: nat | k < j < |states| :: |states[k]| <= |states[j]|)
  }

  function Ids(ms: seq<Entry>): (r: seq<nat>)
    ensures |r| == |ms|
  {
    seq(|ms|, i requires 0 <= i < |ms| => ms[i].id)
  }

  /** What polling gives, each time asking for what came `since` the head of the poll before. */
  function Polled(states: seq<seq<Entry>>): seq<nat>
    requires Chain(states)
  {
    if |states| == 0 then [] else
      var n := |states| - 1;
      var head := if n == 0 then 0 else |states[n - 1]|;
      Polled(states[..n]) + Ids(states[n][head..])
  }

  /** Every message is delivered by exactly one poll, in order. */
  lemma {:induction false} PollsDeliver(states: seq<seq<Entry>>)
    requires Chain(states) && states != []
    ensures Polled(states) == seq(|states[|states| - 1]|, i => i + 1)
    decreases |states|
  {
    var n := |states| - 1;
    if n == 0 {
      assert Polled(states[..0]) == [];
      assert states[0][0..] == states[0];
    } else {
      PollsDeliver(states[..n]);
    }
  }

  // ---------------------------------------------------------------- transmissions

  /** Message `m` at position `i` has been transmitted once and once for each retry, counting one just begun, and not
      more than `max` times again; incoming ones never. */
  predicate EntryOk(m: Entry, i: nat, log: seq<Option<nat>>, begun: Option<nat>, max: nat) {
    && m.retries <= max
    && Count(log, i) == (if m.out then 1 + m.retries + (if begun == Some(i) then 1 else 0) else 0)
    && (begun == Some(i) ==> m.out && m.retries < max)
    && (m.out <==> m.status != Incoming)
  }

  /** What is sent for a message is made from its number, if it has one. */
  ghost predicate InfoOk(m: Entry) {
    m.out ==> MadeWith(m.info, NumberOf(m))
  }

  ghost predicate MadeWith(info: string, msgno: string) {
    exists peer: string, text: string :: info == Format(peer, text, msgno)
  }

  function NumberOf(m: Entry): string {
    if m.msgno.Some? then m.msgno.value else ""
  }

  /** What is sent without being a message. */
  ghost predicate IsReceipt(info: string) {
    exists src: string, n: string :: IsNumber(n) && info == FormatAck(src, n)
  }

  /** Transmission `info` is that of the message named, or else a receipt. */
  ghost predicate TagOk(ms: seq<Entry>, info: string, tag: Option<nat>) {
    if tag.Some? then tag.value < |ms| && info == ms[tag.value].info else IsReceipt(info)
  }

  /** The transmissions so far are those of the messages, and receipts. */
  ghost predicate LogOk(ms: seq<Entry>, sent: seq<string>, log: seq<Option<nat>>, begun: Option<nat>, max: nat) {
    && |log| == |sent|
    && (forall i: nat | i < |ms| :: EntryOk(ms[i], i, log, begun, max) && InfoOk(ms[i]))
    && (forall k: nat | k < |log| :: TagOk(ms, sent[k], log[k]))
    && (begun.Some? ==> begun.value < |ms|)
  }

  lemma Made(peer: string, text: string, msgno: string)
    ensures MadeWith(Format(peer, text, msgno), msgno)
  {
  }

  lemma {:induction false} NotYetLogged(log: seq<Option<nat>>, n: nat, i: nat)
    requires i >= n && forall k: nat | k < |log| && log[k].Some? :: log[k].value < n
    ensures Count(log, i) == 0
  {
    if |log| > 0 {
      NotYetLogged(log[..|log| - 1], n, i);
    }
  }

  /** A new message, transmitted once if it is outgoing. */
  lemma LogAdds(ms: seq<Entry>, sent: seq<string>, log: seq<Option<nat>>, begun: Option<nat>, max: nat, m: Entry)
    requires LogOk(ms, sent, log, begun, max) && m.retries == 0 && (m.out <==> m.status != Incoming) && InfoOk(m)
    ensures m.out ==> LogOk(ms + [m], sent + [m.info], log + [Some(|ms|)], begun, max)
    ensures !m.out ==> LogOk(ms + [m], sent, log, begun, max)
  {
    hide Count, InfoOk, IsReceipt;
    var log1 := if m.out then log + [Some(|ms|)] else log;
    TagsBelow(ms, sent, log, begun, max);
    NotYetLogged(log, |ms|, |ms|);
    var sent1 := if m.out then sent + [m.info] else sent;
    forall k: nat | k < |log1|
      ensures TagOk(ms + [m], sent1[k], log1[k])
    {
      if k < |log| {
        assert TagOk(ms, sent[k], log[k]);
      }
    }
    forall i: nat | i < |ms + [m]|
      ensures EntryOk((ms + [m])[i], i, log1, begun, max)
    {
      CountOne(log, Some(|ms|), i);
      if i < |ms| {
        assert EntryOk(ms[i], i, log, begun, max);
      }
    }
  }

  lemma TagsBelow(ms: seq<Entry>, sent: seq<string>, log: seq<Option<nat>>, begun: Option<nat>, max: nat)
    requires LogOk(ms, sent, log, begun, max)
    ensures forall k: nat | k < |log| && log[k].Some? :: log[k].value < |ms|
  {
    hide EntryOk, InfoOk, IsReceipt;
    forall k: nat | k < |log| && log[k].Some?
      ensures log[k].value < |ms|
    {
      assert TagOk(ms, sent[k], log[k]);
    }
  }

  /** A transmission that is not one of a message: a receipt. */
  lemma LogSkips(ms: seq<Entry>, sent: seq<string>, log: seq<Option<nat>>, begun: Option<nat>, max: nat, info: string)
    requires LogOk(ms, sent, log, begun, max) && IsReceipt(info)
    ensures LogOk(ms, sent + [info], log + [None], begun, max)
  {
    hide Count, InfoOk, IsReceipt;
    LogTags(ms, sent, log, begun, max, info, None);
    forall i: nat | i < |ms|
      ensures EntryOk(ms[i], i, log + [None], begun, max)
    {
      assert EntryOk(ms[i], i, log, begun, max);
      CountOne(log, None, i);
    }
  }

  lemma LogTags(ms: seq<Entry>, sent: seq<string>, log: seq<Option<nat>>, begun: Option<nat>, max: nat, info: string,
                tag: Option<nat>)
    requires LogOk(ms, sent, log, begun, max) && TagOk(ms, info, tag)
    ensures forall k: nat | k < |log + [tag]| :: TagOk(ms, (sent + [info])[k], (log + [tag])[k])
  {
    hide EntryOk, InfoOk, TagOk;
    forall k: nat | k < |log + [tag]|
      ensures TagOk(ms, (sent + [info])[k], (log + [tag])[k])
    {
      if k < |log| {
        assert TagOk(ms, sent[k], log[k]);
      }
    }
  }

  /** A retry begins, and ends. */
  lemma LogRetries(ms: seq<Entry>, sent: seq<string>, log: seq<Option<nat>>, max: nat, i: nat)
    requires LogOk(ms, sent, log, None, max) && i < |ms| && ms[i].out && ms[i].retries < max
    ensures LogOk(ms, sent + [ms[i].info], log + [Some(i)], Some(i), max)
  {
    hide Count, InfoOk, IsReceipt;
    LogTags(ms, sent, log, None, max, ms[i].info, Some(i));
    forall j: nat | j < |ms|
      ensures EntryOk(ms[j], j, log + [Some(i)], Some(i), max)
    {
      assert EntryOk(ms[j], j, log, None, max);
      CountOne(log, Some(i), j);
    }
  }

  lemma LogRetried(ms: seq<Entry>, sent: seq<string>, log: seq<Option<nat>>, max: nat, i: nat)
    requires LogOk(ms, sent, log, Some(i), max) && i < |ms|
    ensures LogOk(ms[i := ms[i].(retries := ms[i].retries + 1)], sent, log, None, max)
  {
    hide Count, IsReceipt, MadeWith;
    var ms1 := ms[i := ms[i].(retries := ms[i].retries + 1)];
    TagsStay(ms, ms1, sent, log, Some(i), max);
    forall j: nat | j < |ms|
      ensures EntryOk(ms1[j], j, log, None, max) && InfoOk(ms1[j])
    {
      assert EntryOk(ms[j], j, log, Some(i), max) && InfoOk(ms[j]);
    }
  }

  lemma TagsStay(ms: seq<Entry>, ms1: seq<Entry>, sent: seq<string>, log: seq<Option<nat>>, begun: Option<nat>,
                 max: nat)
    requires LogOk(ms, sent, log, begun, max) && |ms1| == |ms| && forall i: nat | i < |ms| :: ms1[i].info == ms[i].info
    ensures forall k: nat | k < |log| :: TagOk(ms1, sent[k], log[k])
  {
    hide EntryOk, InfoOk, IsReceipt;
    forall k: nat | k < |log|
      ensures TagOk(ms1, sent[k], log[k])
    {
      assert TagOk(ms, sent[k], log[k]);
    }
  }

  /** A change of status is no transmission. */
  lemma LogKeeps(ms: seq<Entry>, ms1: seq<Entry>, sent: seq<string>, log: seq<Option<nat>>, begun: Option<nat>,
                 max: nat)
    requires LogOk(ms, sent, log, begun, max) && |ms1| == |ms|
    requires forall i: nat | i < |ms| ::
      ms1[i] == ms[i].(status := ms1[i].status) && (ms1[i].status == Incoming <==> ms[i].status == Incoming)
    ensures LogOk(ms1, sent, log, begun, max)
  {
    hide Count, IsReceipt, MadeWith;
    TagsStay(ms, ms1, sent, log, begun, max);
    forall i: nat | i < |ms1|
      ensures EntryOk(ms1[i], i, log, begun, max) && InfoOk(ms1[i])
    {
      assert EntryOk(ms[i], i, log, begun, max) && InfoOk(ms[i]);
    }
  }

  /** Between two logs there are only transmissions of messages from position `n` on, and receipts. */
  ghost predicate OnlyNew(a: seq<Option<nat>>, b: seq<Option<nat>>, n: nat) {
    a <= b && forall k: nat | |a| <= k < |b| && b[k].Some? :: b[k].value >= n
  }

  lemma OnlyNewTrans(a: seq<Option<nat>>, b: seq<Option<nat>>, c: seq<Option<nat>>, n: nat, m: nat)
    requires OnlyNew(a, b, n) && OnlyNew(b, c, m) && n <= m
    ensures OnlyNew(a, c, n)
  {
  }

  lemma {:induction false} OnlyNewCount(a: seq<Option<nat>>, b: seq<Option<nat>>, n: nat, i: nat)
    requires OnlyNew(a, b, n) && i < n
    ensures Count(b, i) == Count(a, i)
    decreases |b|
  {
    if |b| > |a| {
      OnlyNewCount(a, b[..|b| - 1], n, i);
    } else {
      assert a == b;
    }
  }

  // ---------------------------------------------------------------- numbers

  predicate HasNumber(m: Entry) {
    m.out && m.msgno.Some?
  }

  /** `ks` says for every numbered message how many numbers had been issued before. */
  predicate Numbered(ms: seq<Entry>, ks: seq<nat>, issued: nat) {
    && |ks| == |ms|
    && (forall i: nat | i < |ms| && HasNumber(ms[i]) ::
          ks[i] < issued && ms[i].msgno == Some(Decimal(Issued(1, ks[i]))))
    && (forall i: nat, j: nat | i < j < |ms| && HasNumber(ms[i]) && HasNumber(ms[j]) :: ks[i] < ks[j])
  }

  /** Until the numbers come round again, a receipt for a message finds that message and no other. */
  lemma ReceiptFindsIt(ms: seq<Entry>, ks: seq<nat>, issued: nat, i: nat)
    requires Numbered(ms, ks, issued) && issued <= NUMBERS && i < |ms| && HasNumber(ms[i])
    ensures FirstMatch(ms, ms[i].peer, ms[i].msgno.value, 0) == Some(i)
  {
    hide Decimal, Issued;
    var r := FirstMatch(ms, ms[i].peer, ms[i].msgno.value, 0);
    assert Matches(ms[i], ms[i].peer, ms[i].msgno.value);
    var j := r.value;
    if j < i {
      assert HasNumber(ms[j]);
      NumbersDiffer(1, ks[j], ks[i]);
    }
  }

  lemma NumberedAdds(ms: seq<Entry>, ks: seq<nat>, issued: nat, m: Entry)
    requires Numbered(ms, ks, issued)
    requires m.msgno == Some(Decimal(Issued(1, issued))) || !HasNumber(m)
    ensures Numbered(ms + [m], ks + [issued], if HasNumber(m) then issued + 1 else issued)
  {
    hide Decimal, Issued;
  }

  lemma NumberedKeeps(ms: seq<Entry>, ms1: seq<Entry>, ks: seq<nat>, issued: nat)
    requires Numbered(ms, ks, issued) && |ms1| == |ms|
    requires forall i: nat | i < |ms| :: ms1[i].out == ms[i].out && ms1[i].msgno == ms[i].msgno
    ensures Numbered(ms1, ks, issued)
  {
    hide Decimal, Issued;
    forall i: nat | i < |ms|
      ensures HasNumber(ms1[i]) <==> HasNumber(ms[i])
    {
    }
  }

  lemma ThreadsStay(threads: map<string, seq<nat>>, ms: seq<Entry>, ms1: seq<Entry>)
    requires forall p | p in threads :: IsThread(threads[p], ms, p)
    requires |ms1| == |ms| && forall i: nat | i < |ms| :: ms1[i].peer == ms[i].peer
    ensures forall p | p in threads :: IsThread(threads[p], ms1, p)
  {
    forall p | p in threads
      ensures IsThread(threads[p], ms1, p)
    {
      assert IsThread(threads[p], ms, p);
    }
  }

  /** What can happen while a transmission is awaited. */
  datatype Happening = Frame(src: string, info: string, now: real)
                     | Send(peer: string, text: string, want_ack: bool, now: real)

  /** What a frame does to the messages. */
  function Heard(ms: seq<Entry>, src: string, info: string, now: real, for_us: string -> bool): (r: seq<Entry>)
    ensures |ms| <= |r|
  {
    match Parse(info)
    case NoMessage => ms
    case Ack(to, n) => if for_us(to) then Settled(ms, FirstMatch(ms, Normal(src), n, 0), true) else ms
    case Reject(to, n) => if for_us(to) then Settled(ms, FirstMatch(ms, Normal(src), n, 0), false) else ms
    case Message(to, text, n) =>
      if for_us(to) then ms + [Entry(|ms| + 1, false, Normal(src), text, n, now, Incoming, 0, info)] else ms
  }

  /** What is transmitted in answer to a frame. */
  function Answer(src: string, info: string, for_us: string -> bool): seq<string> {
    match Parse(info)
    case Message(to, _, n) => if for_us(to) && n.Some? && n.value != "" then [FormatAck(src, n.value)] else []
    case _ => []
  }

  class AprsChat {
    const mycall: string
    const store: ChatStore
    const retry_interval: real
    const max_retries: nat
    const match_ssid: bool
    /** `MsgNoGen.value` */
    var number: nat
    /** Everything handed to `transport.send_info`. */
    var sent: seq<string>
    /** Which message each of these was; none for the acknowledgements. */
    ghost var log: seq<Option<nat>>
    /** The message of which a retry is being transmitted. */
    ghost var begun: Option<nat>
    /** How many numbers have been issued, and how many before each message's own. */
    ghost var issued: nat
    ghost var ks: seq<nat>

    ghost predicate Valid()
      reads this, store
    {
      && store.Valid()
      && mycall == Normal(mycall)
      && 1 <= number <= 99999
      && LogOk(store.messages, sent, log, begun, max_retries)
      && number == Issued(1, issued)
      && Numbered(store.messages, ks, issued)
    }

    constructor (mycall: string, retry_interval: real, max_retries: nat, match_ssid: bool)
      ensures Valid() && fresh(store) && store.messages == [] && sent == [] && begun == None
      ensures this.mycall == Normal(mycall)
    {
      NormalTwice(mycall);
      this.mycall := Normal(mycall);
      this.retry_interval, this.max_retries, this.match_ssid := retry_interval, max_retries, match_ssid;
      var s := new ChatStore();
      store := s;
      number, sent, log, begun, issued, ks := 1, [], [], None, 0, [];
    }

    /** `_for_us` */
    predicate ForUs(addressee: string) {
      var a := Normal(addressee);
      if match_ssid then a == mycall else Base(a) == Base(mycall)
    }

    /** `send_text` */
    method SendText(peer0: string, text: string, want_ack: bool, now: real) returns (m: Entry)
      requires Valid()
      modifies this, store
      ensures Valid() && begun == old(begun) && Later(old(store.messages), store.messages)
      ensures store.messages == old(store.messages) + [m] && sent == old(sent) + [m.info]
      ensures var msgno := Decimal(old(number));
        m == Entry(|old(store.messages)| + 1, true, Normal(Normal(peer0)), Sanitized(text),
                   if want_ack then Some(msgno) else None, now, if want_ack then Sending else Unconfirmed, 0,
                   Format(Normal(peer0), text, if want_ack then msgno else ""))
      ensures number == (if want_ack then old(number) % 99999 + 1 else old(number))
      ensures log == old(log) + [Some(|old(store.messages)|)]
    {
      hide ChatStore.Valid, LogOk, Normal, Sanitized, Format, Decimal, Numbered, Later, EntryOk, MadeWith;
      IssuedIs(1, issued + 1);
      ghost var k := issued;
      var peer := Normal(peer0);
      var msgno: Option<string> := None;
      if want_ack {
        msgno := Some(Decimal(number));
        issued := issued + 1;
        number := number % 99999 + 1;
      }
      var info := Format(peer, text, if msgno.Some? then msgno.value else "");
      Made(peer, text, if msgno.Some? then msgno.value else "");
      ghost var ms := store.messages;
      StoreFacts(store);
      m := store.Add(true, peer, Sanitized(text), msgno, if want_ack then Sending else Unconfirmed, info, now);
      LogAdds(ms, sent, log, begun, max_retries, m);
      NumberedAdds(ms, ks, k, m);
      LaterGrown(ms, m);
      ks := ks + [k];
      sent := sent + [info];
      log := log + [Some(|ms|)];
    }

    /** `on_frame` */
    method OnFrame(src: string, info: string, now: real) returns (r: Option<nat>)
      requires Valid()
      modifies this, store
      ensures Valid() && begun == old(begun) && Later(old(store.messages), store.messages)
      ensures store.messages == Heard(old(store.messages), src, info, now, ForUs)
      ensures sent == old(sent) + Answer(src, info, ForUs) && number == old(number)
      ensures log == old(log) + seq(|Answer(src, info, ForUs)|, _ => None) && issued == old(issued)
    {
      hide ChatStore.Valid, LogOk, Normal, Parse, ForUs, Matches, FirstMatch, Numbered, Issued, IsReceipt, FormatAck;
      StoreFacts(store);
      LaterSame(store.messages);
      ParsedNumber(info);
      assert sent == sent + [] && log == log + [];
      r := None;
      match Parse(info)
      case NoMessage =>
      case Ack(to, n) =>
        if ForUs(to) {
          r := store.FindOutgoing(src, n);
          Settle(r, true, Normal(src), n);
        }
      case Reject(to, n) =>
        if ForUs(to) {
          r := store.FindOutgoing(src, n);
          Settle(r, false, Normal(src), n);
        }
      case Message(to, text, n) =>
        if ForUs(to) {
          ghost var ms := store.messages;
          var m := store.Add(false, src, text, n, Incoming, info, now);
          LogAdds(ms, sent, log, begun, max_retries, m);
          NumberedAdds(ms, ks, issued, m);
          LaterGrown(ms, m);
          ks := ks + [issued];
          r := Some(|store.messages| - 1);
          if n.Some? && n.value != "" {
            AckIsReceipt(src, n.value);
            LogSkips(store.messages, sent, log, begun, max_retries, FormatAck(src, n.value));
            sent := sent + [FormatAck(src, n.value)];
            log := log + [None];
          }
        }
    }

    /** What an acknowledgement or a rejection does to the message found. */
    method Settle(r: Option<nat>, ack: bool, ghost peer: string, ghost n: string)
      requires Valid() && r == FirstMatch(store.messages, peer, n, 0)
      modifies store
      ensures Valid() && Later(old(store.messages), store.messages)
      ensures store.messages == Settled(old(store.messages), r, ack)
    {
      hide LogOk, IsThread, Numbered, Issued;
      ghost var ms := store.messages;
      SettledKeeps(ms, sent, log, begun, max_retries, r, ack);
      if r.Some? {
        var m := store.messages[r.value];
        if !ack {
          store.messages := store.messages[r.value := m.(status := Failed)];
        } else if m.status in {Sending, Unconfirmed, Failed} {
          store.messages := store.messages[r.value := m.(status := Acked)];
        }
      }
      ThreadsStay(store.threads, ms, store.messages);
      NumberedKeeps(ms, store.messages, ks, issued);
    }

    /** `due_retries` */
    method DueRetries(now: real) returns (due: seq<nat>)
      requires Valid()
      modifies store
      ensures Valid() && Later(old(store.messages), store.messages)
      ensures due == DueAmong(old(store.messages), now, retry_interval, max_retries, |old(store.messages)|)
      ensures |store.messages| == |old(store.messages)|
      ensures forall i: nat | i < |store.messages| ::
        store.messages[i] == Reviewed(old(store.messages)[i], now, retry_interval, max_retries)
    {
      hide LogOk, IsThread, Numbered, Issued, Later, Elapsed, DueAmong;
      ghost var ms := store.messages;
      due := [];
      NoneDue(ms, now, retry_interval, max_retries);
      for i := 0 to |store.messages|
        invariant |store.messages| == |ms| && store.seqno == old(store.seqno) && store.threads == old(store.threads)
        invariant forall j: nat | j < i :: store.messages[j] == Reviewed(ms[j], now, retry_interval, max_retries)
        invariant forall j: nat | i <= j < |ms| :: store.messages[j] == ms[j]
        invariant due == DueAmong(ms, now, retry_interval, max_retries, i)
      {
        DueNext(ms, now, retry_interval, max_retries, i);
        var m := store.messages[i];
        if !m.out || m.status != Sending {
          continue;
        }
        if !Elapsed(m, now, retry_interval) {
          continue;
        }
        if m.retries >= max_retries {
          store.messages := store.messages[i := m.(status := Failed)];
          continue;
        }
        due := due + [i];
      }
      ThreadsStay(store.threads, ms, store.messages);
      NumberedKeeps(ms, store.messages, ks, issued);
      ReviewedKeeps(ms, store.messages, sent, log, begun, max_retries, now, retry_interval);
    }

    method Happens(h: Happening)
      requires Valid()
      modifies this, store
      ensures Valid() && begun == old(begun) && Later(old(store.messages), store.messages)
      ensures SameRetries(old(store.messages), store.messages)
      ensures OnlyNew(old(log), log, |old(store.messages)|)
      ensures sent == old(sent) + Output(h, old(number), ForUs) && number == NumberAfter(h, old(number))
      ensures Stored(h, old(store.messages), store.messages, ForUs)
    {
      hide ChatStore.Valid, LogOk, Later, Heard, Answer, Format, Normal, Sanitized, Decimal, Numbered, Issued, ForUs;
      match h
      case Frame(src, info, now) =>
        HeardRetries(store.messages, src, info, now, ForUs);
        var _ := OnFrame(src, info, now);
      case Send(peer, text, want_ack, now) =>
        var _ := SendText(peer, text, want_ack, now);
    }

    method AllHappen(hs: seq<Happening>)
      requires Valid()
      modifies this, store
      ensures Valid() && begun == old(begun) && Later(old(store.messages), store.messages)
      ensures SameRetries(old(store.messages), store.messages)
      ensures OnlyNew(old(log), log, |old(store.messages)|)
      ensures sent == old(sent) + Outputs(hs, old(number), ForUs) && number == NumberAfterAll(hs, old(number))
    {
      hide LogOk, ChatStore.Valid, Later, Numbered, Issued, OnlyNew, Output, NumberAfter, ForUs, Outputs, SameRetries;
      ghost var ms, l, s, number0 := store.messages, log, sent, number;
      LaterSame(ms);
      SameRetriesSame(ms);
      OnlyNewSame(l, |ms|);
      NothingYet(s, number0, ForUs);
      assert hs[..0] == [];
      for k := 0 to |hs|
        invariant Valid() && begun == old(begun) && Later(ms, store.messages) && SameRetries(ms, store.messages)
        invariant OnlyNew(l, log, |ms|) && sent == s + Outputs(hs[..k], number0, ForUs)
        invariant number == NumberAfterAll(hs[..k], number0)
      {
        ghost var before, l1 := store.messages, log;
        NoneLost(ms, before);
        Happens(hs[k]);
        assert hs[..k + 1][..k] == hs[..k];
        LaterTrans(ms, before, store.messages);
        SameRetriesTrans(ms, before, store.messages);
        OnlyNewTrans(l, l1, log, |ms|, |before|);
        OutputsOne(s, hs, number0, ForUs, k);
      }
      assert hs[..|hs|] == hs;
    }

    /** One pass of `resend_due`: the retry is counted after the transmission, and other things happen in between.
        Message `i` is transmitted and counted exactly once more, no other old message is, and besides it only what
        the other things send is sent. */
    method Resend(i: nat, meanwhile: seq<Happening>)
      requires Valid() && begun == None
      requires i < |store.messages| && store.messages[i].out && store.messages[i].retries < max_retries
      modifies this, store
      ensures Valid() && begun == None && Later(old(store.messages), store.messages)
      ensures RetriedOnce(old(store.messages), store.messages, old(log), log, [i])
      ensures sent == old(sent) + Round(old(store.messages)[i].info, meanwhile, old(number), ForUs)
      ensures number == NumberAfterAll(meanwhile, old(number))
    {
      hide LogOk, IsThread, Later, Numbered, Issued, OnlyNew, Output, NumberAfter, ForUs, Count, RetriedOnce,
        SameRetries, Outputs;
      ghost var ms, n := store.messages, |store.messages|;
      LogRetries(ms, sent, log, max_retries, i);
      sent := sent + [store.messages[i].info];
      log := log + [Some(i)];
      begun := Some(i);
      ghost var l := log;
      AllHappen(meanwhile);
      NoneLost(ms, store.messages);
      assert sent == old(sent) + Round(ms[i].info, meanwhile, old(number), ForUs);
      ghost var after := store.messages;
      LogRetried(after, sent, log, max_retries, i);
      LaterRetried(after, i);
      LaterTrans(ms, after, after[i := after[i].(retries := after[i].retries + 1)]);
      store.messages := store.messages[i := store.messages[i].(retries := store.messages[i].retries + 1)];
      begun := None;
      ThreadsStay(store.threads, after, store.messages);
      NumberedKeeps(after, store.messages, ks, issued);
      CountsAfter(old(log), l, log, n, i);
      CountedOnce(ms, after, store.messages, old(log), log, i);
    }

    /** `resend_due`. `meanwhile` is what happens during each transmission. Every due message is transmitted and counted
        exactly once more, and no other old message is. */
    method ResendDue(now: real, meanwhile: seq<seq<Happening>>) returns (n: nat)
      requires Valid() && begun == None
      modifies this, store
      ensures Valid() && begun == None && Later(old(store.messages), store.messages)
      ensures var due := DueAmong(old(store.messages), now, retry_interval, max_retries, |old(store.messages)|);
        && n == |due|
        && RetriedOnce(old(store.messages), store.messages, old(log), log, due)
        && sent == old(sent) + Retransmitted(old(store.messages), due, meanwhile, old(number), ForUs)
    {
      hide LogOk, ChatStore.Valid, LaterEntry, DueAmong, Later, Numbered, Issued, Count, ForUs, Overdue, Reviewed,
        Round, NumberAfterAll, RetriedOnce, IsDue, During;
      ghost var ms, l := store.messages, log;
      DueIs(ms, now, retry_interval, max_retries, |ms|);
      var due := DueRetries(now);
      ReviewedRetries(ms, store.messages, l, now, retry_interval, max_retries);
      DueDistinct(due, ms, now, retry_interval, max_retries);
      ghost var s, number0 := sent, number;
      n := |due|;
      assert s + [] == s;
      for k := 0 to |due|
        invariant Valid() && begun == None && Later(ms, store.messages)
        invariant RetriedOnce(ms, store.messages, l, log, due[..k])
        invariant sent == s + Retransmitted(ms, due[..k], meanwhile, number0, ForUs)
        invariant number == NumberAfterRounds(meanwhile, k, number0)
      {
        ghost var before, l1 := store.messages, log;
        NotRetriedYet(ms, before, l, l1, due, max_retries, k);
        LaterInfo(ms, before, due[k]);
        Resend(due[k], During(meanwhile, k));
        LaterTrans(ms, before, store.messages);
        RetriedNext(ms, before, store.messages, l, l1, log, due, k);
        RetransmittedOne(s, ms, due, meanwhile, number0, ForUs, k);
      }
      assert due[..|due|] == due;
    }
  }

  /** Each message at `done`, and no other, was transmitted and counted once more than before. */
  ghost predicate RetriedOnce(ms: seq<Entry>, ms1: seq<Entry>, log: seq<Option<nat>>, log1: seq<Option<nat>>,
                              done: seq<nat>) {
    && |ms| <= |ms1|
    && forall j: nat | j < |ms| ::
      && ms1[j].retries == ms[j].retries + (if j in done then 1 else 0)
      && ms1[j].out == ms[j].out
      && Count(log1, j) == Count(log, j) + (if j in done then 1 else 0)
  }

  lemma CountedOnce(ms: seq<Entry>, after: seq<Entry>, ms1: seq<Entry>, log: seq<Option<nat>>,
                    log1: seq<Option<nat>>, i: nat)
    requires SameRetries(ms, after) && i < |ms| && ms1 == after[i := after[i].(retries := after[i].retries + 1)]
    requires forall j: nat | j < |ms| :: Count(log1, j) == Count(log, j) + if j == i then 1 else 0
    ensures RetriedOnce(ms, ms1, log, log1, [i])
  {
    hide Count;
  }

  lemma NotRetriedYet(ms: seq<Entry>, ms1: seq<Entry>, log: seq<Option<nat>>, log1: seq<Option<nat>>, due: seq<nat>,
                      max: nat, k: nat)
    requires k < |due| && due[k] !in due[..k] && RetriedOnce(ms, ms1, log, log1, due[..k])
    requires due[k] < |ms| && ms[due[k]].out && ms[due[k]].retries < max
    ensures |ms| <= |ms1| && ms1[due[k]].out && ms1[due[k]].retries < max
  {
    hide Count;
  }

  lemma RetriedNext(ms: seq<Entry>, ms1: seq<Entry>, ms2: seq<Entry>, log: seq<Option<nat>>, log1: seq<Option<nat>>,
                    log2: seq<Option<nat>>, due: seq<nat>, k: nat)
    requires k < |due| && due[k] !in due[..k]
    requires RetriedOnce(ms, ms1, log, log1, due[..k]) && RetriedOnce(ms1, ms2, log1, log2, [due[k]])
    ensures RetriedOnce(ms, ms2, log, log2, due[..k + 1])
  {
    hide Count;
    assert due[..k + 1] == due[..k] + [due[k]];
    forall j: nat | j < |ms|
      ensures j in due[..k + 1] <==> j in due[..k] || j == due[k]
    {
    }
  }

  /** What becomes of the messages. */
  predicate Stored(h: Happening, ms: seq<Entry>, ms1: seq<Entry>, for_us: string -> bool) {
    match h
    case Frame(src, info, now) => ms1 == Heard(ms, src, info, now, for_us)
    case Send(peer, text, _, _) => |ms1| == |ms| + 1 && ms1 == ms + [ms1[|ms|]] && SentBy(ms1[|ms|], peer, text)
  }

  predicate SentBy(m: Entry, peer: string, text: string) {
    m.out && m.peer == Normal(Normal(peer)) && m.text == Sanitized(text)
  }

  /** What is sent because of something, when the next number is `number`, and the next number afterwards. */
  function Output(h: Happening, number: nat, for_us: string -> bool): seq<string> {
    match h
    case Frame(src, info, _) => Answer(src, info, for_us)
    case Send(peer, text, want_ack, _) => [Format(Normal(peer), text, if want_ack then Decimal(number) else "")]
  }

  function NumberAfter(h: Happening, number: nat): nat {
    if h.Send? && h.want_ack then number % 99999 + 1 else number
  }

  function NumberAfterAll(hs: seq<Happening>, number: nat): nat {
    if |hs| == 0 then number else NumberAfter(hs[|hs| - 1], NumberAfterAll(hs[..|hs| - 1], number))
  }

  function Outputs(hs: seq<Happening>, number: nat, for_us: string -> bool): seq<string> {
    if |hs| == 0 then [] else
      var before := hs[..|hs| - 1];
      Outputs(before, number, for_us) + Output(hs[|hs| - 1], NumberAfterAll(before, number), for_us)
  }

  lemma OutputsOne(s: seq<string>, hs: seq<Happening>, number: nat, for_us: string -> bool, k: nat)
    requires k < |hs|
    ensures s + Outputs(hs[..k], number, for_us) + Output(hs[k], NumberAfterAll(hs[..k], number), for_us)
      == s + Outputs(hs[..k + 1], number, for_us)
  {
    hide Output, NumberAfterAll;
    assert hs[..k + 1][..k] == hs[..k];
    assert hs[..k + 1][k] == hs[k];
  }

  lemma NothingYet(s: seq<string>, number: nat, for_us: string -> bool)
    ensures s + Outputs([], number, for_us) == s && NumberAfterAll([], number) == number
  {
  }

  /** What happens during the `k`th retransmission. */
  function During(meanwhile: seq<seq<Happening>>, k: nat): seq<Happening> {
    if k < |meanwhile| then meanwhile[k] else []
  }

  function NumberAfterRounds(meanwhile: seq<seq<Happening>>, k: nat, number: nat): nat {
    if k == 0 then number else NumberAfterAll(During(meanwhile, k - 1), NumberAfterRounds(meanwhile, k - 1, number))
  }

  /** What is sent by one retransmission and what happens during it. */
  function Round(info: string, during: seq<Happening>, number: nat, for_us: string -> bool): seq<string> {
    [info] + Outputs(during, number, for_us)
  }

  /** What is sent by retransmitting the messages at `due`, one after the other. */
  function Retransmitted(ms: seq<Entry>, due: seq<nat>, meanwhile: seq<seq<Happening>>, number: nat,
                         for_us: string -> bool)
    : seq<string>
  {
    if |due| == 0 then [] else
      var k := |due| - 1;
      Retransmitted(ms, due[..k], meanwhile, number, for_us)
      + if due[k] >= |ms| then [] else
        Round(ms[due[k]].info, During(meanwhile, k), NumberAfterRounds(meanwhile, k, number), for_us)
  }

  lemma RetransmittedOne(s: seq<string>, ms: seq<Entry>, due: seq<nat>, meanwhile: seq<seq<Happening>>, number: nat,
                         for_us: string -> bool, k: nat)
    requires k < |due| && due[k] < |ms|
    ensures s + Retransmitted(ms, due[..k], meanwhile, number, for_us)
      + Round(ms[due[k]].info, During(meanwhile, k), NumberAfterRounds(meanwhile, k, number), for_us)
      == s + Retransmitted(ms, due[..k + 1], meanwhile, number, for_us)
  {
    hide Round, NumberAfterRounds, During;
    assert due[..k + 1][..k] == due[..k];
    assert due[..k + 1][k] == due[k];
  }

  lemma OnlyNewSame(a: seq<Option<nat>>, n: nat)
    ensures OnlyNew(a, a, n)
  {
  }

  lemma CountsAfter(a: seq<Option<nat>>, b: seq<Option<nat>>, c: seq<Option<nat>>, n: nat, i: nat)
    requires b == a + [Some(i)] && OnlyNew(b, c, n)
    ensures forall j: nat | j < n :: Count(c, j) == Count(a, j) + if j == i then 1 else 0
  {
    hide Count, OnlyNew;
    forall j: nat | j < n
      ensures Count(c, j) == Count(a, j) + if j == i then 1 else 0
    {
      CountOne(a, Some(i), j);
      OnlyNewCount(b, c, n, j);
    }
  }

  lemma ReviewedRetries(ms: seq<Entry>, ms1: seq<Entry>, log: seq<Option<nat>>, now: real, interval: real, max: nat)
    requires |ms1| == |ms| && forall i: nat | i < |ms| :: ms1[i] == Reviewed(ms[i], now, interval, max)
    ensures RetriedOnce(ms, ms1, log, log, [])
  {
    hide Overdue, Count;
  }

  lemma DueDistinct(due: seq<nat>, ms: seq<Entry>, now: real, interval: real, max: nat)
    requires IsDue(due, ms, now, interval, max, |ms|)
    ensures forall a: nat | a < |due| :: due[a] < |ms| && ms[due[a]].out && ms[due[a]].retries < max
    ensures forall a: nat | a < |due| :: due[a] !in due[..a]
  {
    hide Elapsed;
  }

  lemma NoneLost(a: seq<Entry>, b: seq<Entry>)
    requires Later(a, b)
    ensures |a| <= |b|
  {
  }

  lemma LaterInfo(a: seq<Entry>, b: seq<Entry>, i: nat)
    requires Later(a, b) && i < |a|
    ensures b[i].info == a[i].info
  {
    assert LaterEntry(a[i], b[i]);
  }

  /** Neither sending nor receiving counts as a retry. */
  predicate SameRetries(a: seq<Entry>, b: seq<Entry>) {
    |a| <= |b| && forall i: nat | i < |a| :: b[i].retries == a[i].retries && b[i].out == a[i].out
  }

  lemma HeardRetries(ms: seq<Entry>, src: string, info: string, now: real, for_us: string -> bool)
    ensures SameRetries(ms, Heard(ms, src, info, now, for_us))
  {
    hide FirstMatch, Normal, Parse;
  }

  lemma SameRetriesTrans(a: seq<Entry>, b: seq<Entry>, c: seq<Entry>)
    requires SameRetries(a, b) && SameRetries(b, c)
    ensures SameRetries(a, c)
  {
  }

  lemma SameRetriesSame(a: seq<Entry>)
    ensures SameRetries(a, a)
  {
  }

  lemma LaterRetried(ms: seq<Entry>, i: nat)
    requires i < |ms|
    ensures Later(ms, ms[i := ms[i].(retries := ms[i].retries + 1)])
  {
  }

  lemma LaterGrown(ms: seq<Entry>, m: Entry)
    ensures Later(ms, ms + [m])
  {
  }

  lemma AckIsReceipt(src: string, n: string)
    requires IsNumber(n)
    ensures IsReceipt(FormatAck(src, n))
  {
    hide FormatAck, IsNumber;
  }

  lemma ParsedNumber(info: string)
    ensures Parse(info).Message? && Parse(info).number.Some? ==> IsNumber(Parse(info).number.value)
  {
    hide IsNumber, Receipt, Strip, LastBrace;
  }

  lemma SettledKeeps(ms: seq<Entry>, sent: seq<string>, log: seq<Option<nat>>, begun: Option<nat>, max: nat,
                     r: Option<nat>, ack: bool)
    requires LogOk(ms, sent, log, begun, max) && (r.Some? ==> r.value < |ms| && ms[r.value].out)
    ensures LogOk(Settled(ms, r, ack), sent, log, begun, max) && Later(ms, Settled(ms, r, ack))
  {
    hide Count;
    if r.Some? {
      assert EntryOk(ms[r.value], r.value, log, begun, max);
    }
    LogKeeps(ms, Settled(ms, r, ack), sent, log, begun, max);
  }

  lemma ReviewedKeeps(ms: seq<Entry>, ms1: seq<Entry>, sent: seq<string>, log: seq<Option<nat>>, begun: Option<nat>,
                      max: nat, now: real, interval: real)
    requires LogOk(ms, sent, log, begun, max) && |ms1| == |ms|
    requires forall i: nat | i < |ms| :: ms1[i] == Reviewed(ms[i], now, interval, max)
    ensures LogOk(ms1, sent, log, begun, max) && Later(ms, ms1)
  {
    LogKeeps(ms, ms1, sent, log, begun, max);
  }

  lemma StoreFacts(s: ChatStore)
    requires s.Valid()
    ensures s.seqno == |s.messages|
  {
  }

  // ---------------------------------------------------------------- how often a message is transmitted

  /** How often `x` occurs among the transmissions. */
  function Occurs(sent: seq<string>, x: string): nat {
    if |sent| == 0 then 0 else Occurs(sent[..|sent| - 1], x) + if sent[|sent| - 1] == x then 1 else 0
  }

  /** What stands behind the last brace of a transmission's text: the number of a message. */
  function Suffix(info: string): string {
    if |info| < 11 then "" else
      var rest := info[11..];
      var k := LastBrace(rest);
      if k.Some? && k.value < |rest| then rest[k.value + 1..] else ""
  }

  lemma FormatSuffix(peer: string, text: string, msgno: string)
    requires msgno == "" || IsNumber(msgno)
    ensures Suffix(Format(peer, text, msgno)) == msgno
  {
    hide Sanitized, LastBrace, IsNumber, Forbidden;
    var body := Sanitized(text);
    SanitizedClean(text);
    BraceIsForbidden();
    if msgno == "" {
      assert Format(peer, text, "") == ":" + Addressee(peer) + ":" + body;
      FieldParts(peer, body);
      NoBrace(body);
    } else {
      PlainNumber(msgno);
      var rest := body + "{" + msgno;
      assert Format(peer, text, msgno) == ":" + Addressee(peer) + ":" + rest;
      FieldParts(peer, rest);
      LastBraceIs(body, msgno);
      assert rest[|body| + 1..] == msgno;
    }
  }

  lemma AckSuffix(src: string, n: string)
    requires IsNumber(n)
    ensures Suffix(FormatAck(src, n)) == ""
  {
    hide LastBrace, IsNumber;
    PlainNumber(n);
    var rest := "ack" + n;
    assert FormatAck(src, n) == ":" + Addressee(src) + ":" + rest;
    FieldParts(src, rest);
    assert '{' !in "ack";
    NoBrace(rest);
  }

  /** What a message is transmitted with ends in its number. */
  lemma SuffixIsNumber(ms: seq<Entry>, ks: seq<nat>, issued: nat, i: nat)
    requires Numbered(ms, ks, issued) && i < |ms| && ms[i].out && InfoOk(ms[i])
    ensures Suffix(ms[i].info) == NumberOf(ms[i])
    ensures ms[i].msgno.Some? ==> ms[i].msgno.value != ""
  {
    hide Suffix, Format, Issued, Decimal, IsNumber;
    var peer: string, text: string :| ms[i].info == Format(peer, text, NumberOf(ms[i]));
    if ms[i].msgno.Some? {
      assert HasNumber(ms[i]);
      NumbersDiffer(1, ks[i], ks[i] + 1);
      NumberNotEmpty(ms[i].msgno.value);
    }
    FormatSuffix(peer, text, NumberOf(ms[i]));
  }

  lemma {:induction false} TagCounts(log: seq<Option<nat>>, k: nat)
    requires k < |log| && log[k].Some?
    ensures Count(log, log[k].value) >= 1
  {
    if k < |log| - 1 {
      TagCounts(log[..|log| - 1], k);
    }
  }

  /** Until the numbers come round again, what is transmitted for a numbered message is transmitted for no other, and is
      no receipt. */
  lemma OnlyItsOwn(ms: seq<Entry>, sent: seq<string>, log: seq<Option<nat>>, begun: Option<nat>, max: nat, ks: seq<nat>,
                   issued: nat, i: nat, k: nat)
    requires LogOk(ms, sent, log, begun, max) && Numbered(ms, ks, issued) && issued <= NUMBERS
    requires i < |ms| && HasNumber(ms[i]) && k < |log|
    ensures sent[k] == ms[i].info <==> log[k] == Some(i)
  {
    hide Suffix, Format, FormatAck, Issued, Decimal, IsNumber, Count, MadeWith;
    SuffixIsNumber(ms, ks, issued, i);
    assert TagOk(ms, sent[k], log[k]);
    if log[k].None? {
      var src: string, n: string :| IsNumber(n) && sent[k] == FormatAck(src, n);
      AckSuffix(src, n);
    } else if log[k] != Some(i) {
      var j := log[k].value;
      TagCounts(log, k);
      assert EntryOk(ms[j], j, log, begun, max);
      SuffixIsNumber(ms, ks, issued, j);
      if HasNumber(ms[j]) {
        NumbersDiffer(1, if i < j then ks[i] else ks[j], if i < j then ks[j] else ks[i]);
      }
    }
  }

  lemma {:induction false} OccursIsCount(sent: seq<string>, log: seq<Option<nat>>, x: string, i: nat)
    requires |log| == |sent| && forall k: nat | k < |log| :: sent[k] == x <==> log[k] == Some(i)
    ensures Occurs(sent, x) == Count(log, i)
  {
    if |log| > 0 {
      OccursIsCount(sent[..|sent| - 1], log[..|log| - 1], x, i);
    }
  }

  /** After any run of the chat, and in the middle of a retransmission: a message that asks for an acknowledgement has
      been handed to the transport once and once for each retry counted or begun, hence at most `max_retries` times
      more than once. What is counted are equal transmissions, for the first 99999 numbers. */
  lemma AtMost(chat: AprsChat, i: nat)
    requires chat.Valid() && i < |chat.store.messages| && HasNumber(chat.store.messages[i]) && chat.issued <= NUMBERS
    ensures var m := chat.store.messages[i];
      && Occurs(chat.sent, m.info) == 1 + m.retries + (if chat.begun == Some(i) then 1 else 0)
      && Occurs(chat.sent, m.info) <= 1 + chat.max_retries
  {
    hide Count, TagOk, Numbered, InfoOk, ChatStore.Valid, Issued;
    var ms := chat.store.messages;
    forall k: nat | k < |chat.log|
      ensures chat.sent[k] == ms[i].info <==> chat.log[k] == Some(i)
    {
      OnlyItsOwn(ms, chat.sent, chat.log, chat.begun, chat.max_retries, chat.ks, chat.issued, i, k);
    }
    OccursIsCount(chat.sent, chat.log, ms[i].info, i);
    assert EntryOk(ms[i], i, chat.log, chat.begun, chat.max_retries);
  }

  /** How often text `x` is transmitted for the first `n` messages: for each of them that is sent with it, once and once
      for each retry counted or begun. */
  function Transmissions(ms: seq<Entry>, begun: Option<nat>, x: string, n: nat): nat
    requires n <= |ms|
  {
    if n == 0 then 0 else
      Transmissions(ms, begun, x, n - 1) +
      if !ms[n - 1].out || ms[n - 1].info != x then 0
      else 1 + ms[n - 1].retries + if begun == Some(n - 1) then 1 else 0
  }

  /** How many messages are sent with text `x`. */
  function Alike(ms: seq<Entry>, x: string, n: nat): nat
    requires n <= |ms|
  {
    if n == 0 then 0 else Alike(ms, x, n - 1) + if ms[n - 1].out && ms[n - 1].info == x then 1 else 0
  }

  function Counts(ms: seq<Entry>, log: seq<Option<nat>>, x: string, n: nat): nat
    requires n <= |ms|
  {
    if n == 0 then 0 else Counts(ms, log, x, n - 1) + if ms[n - 1].info == x then Count(log, n - 1) else 0
  }

  lemma {:induction false} CountsOne(ms: seq<Entry>, log: seq<Option<nat>>, tag: Option<nat>, x: string, n: nat)
    requires n <= |ms|
    ensures Counts(ms, log + [tag], x, n) ==
      Counts(ms, log, x, n) + if tag.Some? && tag.value < n && ms[tag.value].info == x then 1 else 0
  {
    hide Count;
    if n > 0 {
      CountsOne(ms, log, tag, x, n - 1);
      CountOne(log, tag, n - 1);
    }
  }

  lemma {:induction false} CountsNothing(ms: seq<Entry>, x: string, n: nat)
    requires n <= |ms|
    ensures Counts(ms, [], x, n) == 0
  {
    if n > 0 {
      CountsNothing(ms, x, n - 1);
    }
  }

  lemma {:induction false} OccursIsCounts(ms: seq<Entry>, sent: seq<string>, log: seq<Option<nat>>, x: string)
    requires |log| == |sent| && !IsReceipt(x) && forall k: nat | k < |log| :: TagOk(ms, sent[k], log[k])
    ensures Occurs(sent, x) == Counts(ms, log, x, |ms|)
  {
    hide IsReceipt, Counts, Count;
    if |log| == 0 {
      CountsNothing(ms, x, |ms|);
    } else {
      var n := |log| - 1;
      OccursIsCounts(ms, sent[..n], log[..n], x);
      assert log[..n] + [log[n]] == log;
      CountsOne(ms, log[..n], log[n], x, |ms|);
      assert TagOk(ms, sent[n], log[n]);
    }
  }

  lemma OneMore(a: nat, b: nat, c: nat, max: nat)
    requires a <= (1 + max) * b && c <= 1 + max
    ensures a + c <= (1 + max) * (b + 1)
  {
  }

  lemma {:induction false} CountsAreTransmissions(ms: seq<Entry>, sent: seq<string>, log: seq<Option<nat>>,
                                                  begun: Option<nat>, max: nat, x: string, n: nat)
    requires LogOk(ms, sent, log, begun, max) && n <= |ms|
    ensures Counts(ms, log, x, n) == Transmissions(ms, begun, x, n) <= (1 + max) * Alike(ms, x, n)
  {
    hide Count, TagOk, InfoOk;
    if n > 0 {
      CountsAreTransmissions(ms, sent, log, begun, max, x, n - 1);
      var m := ms[n - 1];
      assert EntryOk(m, n - 1, log, begun, max);
      if m.out && m.info == x {
        OneMore(Transmissions(ms, begun, x, n - 1), Alike(ms, x, n - 1), Count(log, n - 1), max);
      }
    }
  }

  /** After any run: whatever is transmitted and is no receipt is transmitted for the messages sent with that text, for
      each of them once and once for each retry, and so at most `1 + max_retries` times. */
  lemma TransmittedFor(chat: AprsChat, x: string)
    requires chat.Valid() && !IsReceipt(x)
    ensures var ms := chat.store.messages;
      && Occurs(chat.sent, x) == Transmissions(ms, chat.begun, x, |ms|)
      && Occurs(chat.sent, x) <= (1 + chat.max_retries) * Alike(ms, x, |ms|)
  {
    hide EntryOk, InfoOk, IsReceipt, Numbered, ChatStore.Valid, Issued;
    var ms := chat.store.messages;
    OccursIsCounts(ms, chat.sent, chat.log, x);
    CountsAreTransmissions(ms, chat.sent, chat.log, chat.begun, chat.max_retries, x, |ms|);
  }

  // ---------------------------------------------------------------- rejections

  /** Frame `info` rejects the message at position `i`. */
  predicate Rejects(ms: seq<Entry>, src: string, info: string, for_us: string -> bool, i: nat) {
    match Parse(info)
    case Reject(to, n) => for_us(to) && FirstMatch(ms, Normal(src), n, 0) == Some(i)
    case _ => false
  }

  /** An acknowledged message stays acknowledged unless a frame rejects it: there is no test of its status. */
  lemma AckedStays(ms: seq<Entry>, src: string, info: string, now: real, for_us: string -> bool, i: nat)
    requires i < |ms| && ms[i].status == Acked
    ensures Heard(ms, src, info, now, for_us)[i].status == (if Rejects(ms, src, info, for_us, i) then Failed else Acked)
  {
    hide Parse, Normal, FirstMatch;
  }

  lemma {:induction false} SameMatch(ms: seq<Entry>, ms1: seq<Entry>, peer: string, msgno: string, i: nat)
    requires |ms1| == |ms| && i <= |ms| && forall k: nat | k < |ms| :: ms1[k] == ms[k].(status := ms1[k].status)
    ensures FirstMatch(ms1, peer, msgno, i) == FirstMatch(ms, peer, msgno, i)
    decreases |ms| - i
  {
    if i < |ms| {
      assert Matches(ms1[i], peer, msgno) <==> Matches(ms[i], peer, msgno);
      SameMatch(ms, ms1, peer, msgno, i + 1);
    }
  }

  /** Whenever a message is acknowledged and its peer then rejects the same number, it ends as failed. */
  lemma RejectUndoesAck(ms: seq<Entry>, mycall: string, src: string, n: string, now: real, later: real,
                        for_us: string -> bool, i: nat)
    requires ValidCall(mycall) && for_us(Normal(mycall)) && IsNumber(n) && FirstMatch(ms, Normal(src), n, 0) == Some(i)
    requires ms[i].status != Incoming
    ensures var acked := Heard(ms, src, FormatAck(mycall, n), now, for_us);
      acked[i].status == Acked && Heard(acked, src, FormatReject(mycall, n), later, for_us)[i].status == Failed
  {
    hide Parse, Normal, FirstMatch, ValidCall, FormatAck, FormatReject;
    ReceiptRoundTrip(mycall, n);
    var acked := Heard(ms, src, FormatAck(mycall, n), now, for_us);
    SameMatch(ms, acked, Normal(src), n, 0);
  }

  /** Such a message: number 1 to N0CALL from KP4PRA. */
  lemma AckedThenFailed(text: string, now: real)
    ensures var ms := [Entry(1, true, "N0CALL", text, Some("1"), now, Sending, 0, Format("N0CALL", text, "1"))];
      var for_us: string -> bool := to => to == "KP4PRA";
      var acked := Heard(ms, "N0CALL", FormatAck("KP4PRA", "1"), now, for_us);
      acked[0].status == Acked && Heard(acked, "N0CALL", FormatReject("KP4PRA", "1"), now, for_us)[0].status == Failed
  {
    hide Heard, FormatAck, FormatReject, Format, ValidCall, IsNumber;
    var ms := [Entry(1, true, "N0CALL", text, Some("1"), now, Sending, 0, Format("N0CALL", text, "1"))];
    ExampleCalls();
    assert Matches(ms[0], "N0CALL", "1");
    RejectUndoesAck(ms, "KP4PRA", "N0CALL", "1", now, now, to => to == "KP4PRA", 0);
  }

  lemma ExampleCalls()
    ensures ValidCall("KP4PRA") && Normal("KP4PRA") == "KP4PRA" && Normal("N0CALL") == "N0CALL" && IsNumber("1")
  {
    hide Strip;
    assert Plain("KP4PRA") && Plain("N0CALL");
    PlainUnchanged("KP4PRA");
    PlainUnchanged("N0CALL");
    assert Upper("KP4PRA") == "KP4PRA" && Upper("N0CALL") == "N0CALL";
    assert Dash("KP4PRA") == 6;
  }

  // ---------------------------------------------------------------- time limits

  /** Exactly which messages are due: those being sent for as many intervals as they have been transmitted, and
      transmitted again fewer times than allowed. */
  lemma {:induction false} DueIff(ms: seq<Entry>, now: real, interval: real, max: nat, n: nat, i: nat)
    requires n <= |ms|
    ensures i in DueAmong(ms, now, interval, max, n) <==>
      && i < n && ms[i].out && ms[i].status == Sending
      && now >= ms[i].ts + interval * (1 + ms[i].retries) as real && ms[i].retries < max
  {
    if n > 0 {
      DueIff(ms, now, interval, max, n - 1, i);
    }
  }

  /** Exactly which are given up: those that are as late, and have been transmitted again as often as allowed. */
  lemma GivenUpIff(m: Entry, now: real, interval: real, max: nat)
    ensures Reviewed(m, now, interval, max) ==
      if m.out && m.status == Sending && now >= m.ts + interval * (1 + m.retries) as real && m.retries >= max
      then m.(status := Failed) else m
  {
  }

  /** Without `match_ssid` every SSID of a station is meant. */
  lemma {:induction false} BaseIs(base: string, rest: string)
    requires forall i :: 0 <= i < |base| ==> base[i] != '-'
    ensures Base(base + "-" + rest) == base && Base(base) == base
  {
    DashPlace(base, rest);
    assert (base + "-" + rest)[..|base|] == base && base[..|base|] == base;
  }

  lemma {:induction false} DashPlace(base: string, rest: string)
    requires forall i :: 0 <= i < |base| ==> base[i] != '-'
    ensures Dash(base + "-" + rest) == |base| && Dash(base) == |base|
  {
    if base == "" {
      assert base + "-" + rest == "-" + rest;
    } else {
      DashPlace(base[1..], rest);
      assert (base + "-" + rest)[1..] == base[1..] + "-" + rest;
    }
  }

  /** A frame for the same station under another SSID is for this one exactly when the SSID need not match. */
  lemma OtherSsid(chat: AprsChat, ssid: string)
    requires '-' !in chat.mycall && ssid != "" && Plain(chat.mycall + "-" + ssid)
    ensures chat.ForUs(chat.mycall + "-" + ssid) <==> !chat.match_ssid
  {
    hide Base, Strip, Upper;
    var a := chat.mycall + "-" + ssid;
    PlainUnchanged(a);
    PlainNormal(a);
    BaseIs(chat.mycall, ssid);
    assert |a| > |chat.mycall|;
  }

  lemma PlainNormal(call: string)
    requires Plain(call)
    ensures Normal(call) == call
  {
    hide Strip;
    assert Upper(call) == call;
    PlainUnchanged(call);
  }

  // ---------------------------------------------------------------- two chats

  lemma OursIsOurs(chat: AprsChat)
    requires chat.Valid()
    ensures chat.mycall == Normal(chat.mycall) && chat.ForUs(chat.mycall)
  {
    hide LogOk, Numbered, ChatStore.Valid, Issued, Base;
  }

  /** A message with a number is in the list, and its own receipt is heard: it is acknowledged, whatever it was
      before. */
  lemma OwnReceipt(chat: AprsChat, src: string, i: nat, now: real)
    requires chat.Valid() && chat.issued <= 99999 && ValidCall(chat.mycall)
    requires i < |chat.store.messages| && HasNumber(chat.store.messages[i])
    requires chat.store.messages[i].peer == Normal(src)
    ensures var ms := chat.store.messages;
      Heard(ms, src, FormatAck(chat.mycall, ms[i].msgno.value), now, chat.ForUs) == ms[i := ms[i].(status := Acked)]
  {
    hide LogOk, ChatStore.Valid, Normal, Parse, FormatAck, ValidCall, Issued, Numbered, IsNumber, AprsChat.ForUs,
      FirstMatch;
    var ms := chat.store.messages;
    OursIsOurs(chat);
    NumberValid(ms, chat.ks, chat.issued, i);
    ReceiptRoundTrip(chat.mycall, ms[i].msgno.value);
    ReceiptFindsIt(ms, chat.ks, chat.issued, i);
    OutIsNotIncoming(ms, chat.sent, chat.log, chat.begun, chat.max_retries, i);
  }

  lemma NumberValid(ms: seq<Entry>, ks: seq<nat>, issued: nat, i: nat)
    requires Numbered(ms, ks, issued) && i < |ms| && HasNumber(ms[i])
    ensures IsNumber(ms[i].msgno.value)
  {
    hide Issued, Decimal, IsNumber;
    NumbersDiffer(1, ks[i], ks[i] + 1);
  }

  lemma OutIsNotIncoming(ms: seq<Entry>, sent: seq<string>, log: seq<Option<nat>>, begun: Option<nat>, max: nat, i: nat)
    requires LogOk(ms, sent, log, begun, max) && i < |ms| && ms[i].out
    ensures ms[i].status in {Sending, Acked, Unconfirmed, Failed}
  {
    hide Count, InfoOk, TagOk;
    assert EntryOk(ms[i], i, log, begun, max);
  }

  /** Two stations: `a` sends a text that asks for an acknowledgement, `b` hears it and answers, and `a` hears the
      answer, whatever else happens at `a` in between. Then `b` has the text from `a`, and `a` has its message
      acknowledged. */
  method Exchange(a: AprsChat, b: AprsChat, text: string, t1: real, t2: real, t3: real, meanwhile: seq<Happening>)
    returns (m: Entry, ack: string)
    requires a.Valid() && b.Valid() && a != b && a.store != b.store && ValidCall(a.mycall) && ValidCall(b.mycall)
    modifies a, a.store, b, b.store
    ensures a.Valid() && b.Valid()
    ensures b.store.messages == old(b.store.messages) +
      [Entry(|old(b.store.messages)| + 1, false, a.mycall, Sanitized(text), m.msgno, t2, Incoming, 0, m.info)]
    ensures m.msgno == Some(Decimal(old(a.number)))
    ensures b.sent == old(b.sent) + [ack] && ack == FormatAck(a.mycall, Decimal(old(a.number)))
    ensures |old(a.store.messages)| < |a.store.messages| && a.store.messages[|old(a.store.messages)|].info == m.info
    ensures a.issued <= 99999 ==> a.store.messages[|old(a.store.messages)|].status == Acked
  {
    hide AprsChat.Valid, ChatStore.Valid, Later, LaterEntry, Heard, Answer, Format, FormatAck, Normal, Sanitized,
      Parse, Decimal, ValidCall, AprsChat.ForUs, Outputs, NumberAfterAll, SameRetries, OnlyNew;
    ghost var i := |a.store.messages|;
    OursIsOurs(a);
    OursIsOurs(b);
    m := a.SendText(b.mycall, text, true, t1);
    ghost var ms := a.store.messages;
    NumberOk(a, i);
    MessageRoundTrip(b.mycall, text, m.msgno.value);
    TakesMessage(b.store.messages, a.mycall, m.info, b.mycall, Sanitized(text), m.msgno.value, t2, b.ForUs);
    var _ := b.OnFrame(a.mycall, m.info, t2);
    ack := b.sent[|b.sent| - 1];
    a.AllHappen(meanwhile);
    SameMessage(ms, a.store.messages, i);
    if a.issued <= 99999 {
      OwnReceipt(a, b.mycall, i, t3);
    }
    ghost var now := a.store.messages;
    var _ := a.OnFrame(b.mycall, ack, t3);
    SameMessage(now, a.store.messages, i);
  }

  lemma NumberOk(chat: AprsChat, i: nat)
    requires chat.Valid() && i < |chat.store.messages| && HasNumber(chat.store.messages[i])
    ensures IsNumber(chat.store.messages[i].msgno.value) && chat.store.messages[i].msgno.value != ""
  {
    hide LogOk, Numbered, ChatStore.Valid, Issued, Normal, IsNumber;
    NumberValid(chat.store.messages, chat.ks, chat.issued, i);
    NumberNotEmpty(chat.store.messages[i].msgno.value);
  }

  lemma TakesMessage(ms: seq<Entry>, src: string, info: string, to: string, text: string, n: string, now: real,
                     for_us: string -> bool)
    requires Parse(info) == Message(to, text, Some(n)) && for_us(to) && n != "" && src == Normal(src)
    ensures Answer(src, info, for_us) == [FormatAck(src, n)]
    ensures Heard(ms, src, info, now, for_us) ==
      ms + [Entry(|ms| + 1, false, src, text, Some(n), now, Incoming, 0, info)]
  {
    hide Parse, Normal, FormatAck;
  }

  lemma SameMessage(a: seq<Entry>, b: seq<Entry>, i: nat)
    requires Later(a, b) && i < |a|
    ensures i < |b| && b[i] == a[i].(status := b[i].status, retries := b[i].retries)
  {
    assert LaterEntry(a[i], b[i]);
  }

  /** The number seen last after these polls. */
  function Head(states: seq<seq<Entry>>): nat {
    if states == [] then 0 else |states[|states| - 1]|
  }

  lemma ChainNext(states: seq<seq<Entry>>, ms: seq<Entry>)
    requires Chain(states) && Head(states) <= |ms| && forall i: nat | i < |ms| :: ms[i].id == i + 1
    ensures Chain(states + [ms])
  {
    var all := states + [ms];
    forall k: nat, j: nat | k < j < |all|
      ensures |all[k]| <= |all[j]|
    {
      assert all[k] == states[k];
      assert k < |states| - 1 ==> |states[k]| <= |states[|states| - 1]|;
    }
  }

  lemma PollNext(states: seq<seq<Entry>>, ms: seq<Entry>)
    requires Chain(states) && Chain(states + [ms]) && Head(states) <= |ms|
    ensures Polled(states + [ms]) == Polled(states) + Ids(ms[Head(states)..])
  {
    hide Chain, Ids;
    assert (states + [ms])[..|states|] == states;
  }

  lemma Numbering(s: ChatStore)
    requires s.Valid()
    ensures forall i: nat | i < |s.messages| :: s.messages[i].id == i + 1
  {
  }

  /** One poll of a client that has seen the messages up to `head`, after what happens to the chat before. */
  method Poll(chat: AprsChat, hs: seq<Happening>, head: nat) returns (ids: seq<nat>, head1: nat)
    requires chat.Valid() && head <= |chat.store.messages|
    modifies chat, chat.store
    ensures chat.Valid() && Later(old(chat.store.messages), chat.store.messages)
    ensures chat.sent == old(chat.sent) + Outputs(hs, old(chat.number), chat.ForUs)
    ensures chat.number == NumberAfterAll(hs, old(chat.number))
    ensures head <= head1 == |chat.store.messages| && ids == Ids(chat.store.messages[head..])
    ensures forall i: nat | i < |chat.store.messages| :: chat.store.messages[i].id == i + 1
  {
    hide AprsChat.Valid, ChatStore.Valid, Later, Outputs, NumberAfterAll, AprsChat.ForUs, SameRetries, OnlyNew, Ids;
    ghost var before := chat.store.messages;
    chat.AllHappen(hs);
    NoneLost(before, chat.store.messages);
    ValidStore(chat);
    Numbering(chat.store);
    var news := chat.store.Since(head);
    ids := Ids(news);
    head1 := if news == [] then head else news[|news| - 1].id;
  }

  /** The polls of a client that learns of messages only by polling, from the start: every message comes exactly once,
      in order. (A page that sends as well is `ChatPage`.) */
  method PollRounds(chat: AprsChat, rounds: seq<seq<Happening>>) returns (ids: seq<nat>)
    requires chat.Valid() && rounds != []
    modifies chat, chat.store
    ensures chat.Valid() && Later(old(chat.store.messages), chat.store.messages)
    ensures chat.sent == old(chat.sent) + Outputs(Flatten(rounds), old(chat.number), chat.ForUs)
    ensures ids == seq(|chat.store.messages|, i => i + 1)
  {
    hide AprsChat.Valid, Later, Chain, Polled, Outputs, NumberAfterAll, AprsChat.ForUs, Flatten, Ids;
    ids := [];
    var head := 0;
    ghost var states: seq<seq<Entry>>, ms, s, number0 := [], chat.store.messages, chat.sent, chat.number;
    NothingPolled();
    NothingYet(s, number0, chat.ForUs);
    LaterSame(ms);
    assert rounds[..0] == [];
    for k := 0 to |rounds|
      invariant chat.Valid() && Later(ms, chat.store.messages)
      invariant |states| == k && Chain(states) && ids == Polled(states) && head == Head(states) <= |chat.store.messages|
      invariant k > 0 ==> states[k - 1] == chat.store.messages
      invariant chat.sent == s + Outputs(Flatten(rounds[..k]), number0, chat.ForUs)
      invariant chat.number == NumberAfterAll(Flatten(rounds[..k]), number0)
    {
      ghost var before := chat.store.messages;
      var news: seq<nat>;
      news, head := Poll(chat, rounds[k], head);
      ids := ids + news;
      ChainNext(states, chat.store.messages);
      PollNext(states, chat.store.messages);
      LaterTrans(ms, before, chat.store.messages);
      RoundsNext(s, rounds, number0, chat.ForUs, k);
      states := states + [chat.store.messages];
    }
    PollsDeliver(states);
    assert rounds[..|rounds|] == rounds;
  }

  lemma {:induction false} OutputsJoin(a: seq<Happening>, b: seq<Happening>, number: nat, for_us: string -> bool)
    ensures Outputs(a + b, number, for_us) == Outputs(a, number, for_us) + Outputs(b, NumberAfterAll(a, number), for_us)
    ensures NumberAfterAll(a + b, number) == NumberAfterAll(b, NumberAfterAll(a, number))
    decreases |b|
  {
    hide Output, NumberAfter;
    if b == [] {
      assert a + b == a;
    } else {
      OutputsJoin(a, b[..|b| - 1], number, for_us);
      assert (a + b)[..|a + b| - 1] == a + b[..|b| - 1];
    }
  }

  /** One more round. */
  lemma RoundsNext(s: seq<string>, rounds: seq<seq<Happening>>, number: nat, for_us: string -> bool, k: nat)
    requires k < |rounds|
    ensures var before, after := Flatten(rounds[..k]), Flatten(rounds[..k + 1]);
      && s + Outputs(before, number, for_us) + Outputs(rounds[k], NumberAfterAll(before, number), for_us)
        == s + Outputs(after, number, for_us)
      && NumberAfterAll(after, number) == NumberAfterAll(rounds[k], NumberAfterAll(before, number))
  {
    hide Outputs, NumberAfterAll;
    assert rounds[..k + 1][..k] == rounds[..k];
    OutputsJoin(Flatten(rounds[..k]), rounds[k], number, for_us);
  }

  lemma NothingPolled()
    ensures Chain([]) && Polled([]) == [] && Flatten<Happening>([]) == []
  {
  }

  lemma ValidStore(chat: AprsChat)
    requires chat.Valid()
    ensures chat.store.Valid()
  {
  }
}
