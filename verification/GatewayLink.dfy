/** Class `Gateway` of gateway.py: `handle`, and `cms_to_rf` during one session. */
module GatewayLink {
  import opened Prelude
  import opened Ax25Link
  import opened Strings
  import opened Blocks
  import opened Ax25Stream

  const UA: byte := 0x63
  const DM: byte := 0x0F
  const RELAY: nat := 200

  /** `(c & 0xEF) == 0x2F`: a request to open a link, with or without the poll bit. */
  predicate IsSabm(c: byte) { c == 0x2F || c == 0x3F }

  /** `(c & 0xEF) == 0x43` */
  predicate IsDisc(c: byte) { c == 0x43 || c == 0x53 }

  /** Which bytes these are: SABM and DISC, with or without the poll bit (section 4.3 of AX.25 2.2). */
  lemma OpensAndEnds(c: byte)
    ensures IsSabm(c) <==> c % 16 == 15 && c / 32 == 1
    ensures IsDisc(c) <==> c % 16 == 3 && c / 32 == 2
  {
  }

  /** A frame as `split_frame` gives it, without what `handle` does not look at, and whether a session with the CMS
      can be opened should the frame ask for one. */
  datatype Arrival = Arrival(dest: string, src: string, frame: Frame, connects: bool)

  /** A frame that opens, refuses or ends a link, and the station it is sent to. */
  datatype Reply = Reply(to: string, ctrl: byte)

  /** The final bit answers the poll bit. Both codes have a zero in its place, so `|` is a sum. */
  function Final(code: byte, c: byte): byte
    requires code == UA || code == DM
  {
    code + if PollBit(c) then 0x10 else 0
  }

  /** A frame for this station from the one linked. */
  predicate Concerns(a: Arrival, mycall: string, station: string) {
    Upper(a.dest) == mycall && a.src == station
  }

  /** The destination may be written in any case, the source may not. */
  lemma AnyCase(a: Arrival, call: string, station: string)
    ensures Concerns(a, Upper(call), station) <==> Upper(a.dest) == Upper(call) && a.src == station
    ensures a.dest == "n0call-1" && a.src == "KP4PRA" ==> Concerns(a, "N0CALL-1", "KP4PRA")
    ensures a.src == "kp4pra" ==> !Concerns(a, "N0CALL-1", "KP4PRA")
  {
    assert Upper("n0call-1") == "N0CALL-1";
    assert "kp4pra"[0] != "KP4PRA"[0];
  }

  /** The linked station ends the link, or asks for a new one. */
  predicate Ends(a: Arrival, mycall: string, station: string) {
    Concerns(a, mycall, station) && (IsSabm(a.frame.ctrl) || IsDisc(a.frame.ctrl))
  }

  predicate Ended(arrivals: seq<Arrival>, mycall: string, station: string) {
    exists i: nat | i < |arrivals| :: Ends(arrivals[i], mycall, station)
  }

  /** The linked station's frames among the arrivals, up to the one that closes the link. */
  function Taken(arrivals: seq<Arrival>, mycall: string, station: string): seq<Act> {
    if |arrivals| == 0 then [] else
      var (before, a) := (arrivals[..|arrivals| - 1], arrivals[|arrivals| - 1]);
      Taken(before, mycall, station) +
      if Ended(arrivals, mycall, station) || !Concerns(a, mycall, station) then [] else [Receiving(a.frame)]
  }

  lemma TakenOne(arrivals: seq<Arrival>, a: Arrival, mycall: string, station: string)
    ensures Ended(arrivals + [a], mycall, station) <==> Ended(arrivals, mycall, station) || Ends(a, mycall, station)
    ensures Taken(arrivals + [a], mycall, station) == Taken(arrivals, mycall, station) +
      if Ended(arrivals + [a], mycall, station) || !Concerns(a, mycall, station) then [] else [Receiving(a.frame)]
  {
    hide Ends, Concerns;
    var all := arrivals + [a];
    assert all[..|arrivals|] == arrivals;
    if Ends(a, mycall, station) {
      assert Ends(all[|arrivals|], mycall, station);
    }
    if i: nat :| i < |arrivals| && Ends(arrivals[i], mycall, station) {
      assert Ends(all[i], mycall, station);
    }
  }

  /** After the link is closed nothing more is taken. */
  lemma {:induction false} TakenMore(arrivals: seq<Arrival>, more: seq<Arrival>, mycall: string, station: string)
    requires Ended(arrivals, mycall, station)
    ensures Ended(arrivals + more, mycall, station)
    ensures Taken(arrivals + more, mycall, station) == Taken(arrivals, mycall, station)
    decreases |more|
  {
    hide Ended, Taken, Concerns;
    if more == [] {
      assert arrivals + more == arrivals;
    } else {
      var n := |more| - 1;
      TakenMore(arrivals, more[..n], mycall, station);
      TakenOne(arrivals + more[..n], more[n], mycall, station);
      assert arrivals + more == arrivals + more[..n] + [more[n]];
    }
  }

  lemma NothingTaken(mycall: string, station: string)
    ensures Taken([], mycall, station) == [] && !Ended([], mycall, station) && Flatten<Arrival>([]) == []
  {
  }

  lemma FlattenNext(batches: seq<seq<Arrival>>, k: nat)
    requires k < |batches|
    ensures Flatten(batches[..k + 1]) == Flatten(batches[..k]) + batches[k]
  {
    assert batches[..k + 1][..k] == batches[..k];
  }

  lemma TurnsOne(acts: seq<Act>, act: Act)
    ensures Turns(acts + [act]) == Turns(acts) + if act.Queueing? then [] else [act]
  {
    assert (acts + [act])[..|acts|] == acts;
  }

  /** What ends the relaying of one piece of data. */
  datatype Outcome = Relayed | Disconnected | WindowFull

  class Gateway {
    const mycall: string
    /** `link.remote`; none when there is no link. */
    var remote: Option<string>
    /** There is a session with the CMS. */
    var cms: bool
    /** `cms_task` is at work: it has begun and is not done. */
    var relaying: bool
    var vs: nat
    var vr: nat
    var va: nat
    /** Everything handed to `cms.send` since the link was opened. */
    var forwarded: bytes
    /** Every I and S frame sent to the remote station since the link was opened. */
    var written: seq<Frame>
    var control: seq<Reply>

    function Model(): Endpoint
      reads this
    {
      Endpoint(Kind.Gateway, vs, vr, va, map[], forwarded)
    }

    predicate Valid()
      reads this
    {
      vs < 8 && vr < 8 && va < 8 && mycall == Upper(mycall) && (remote.Some? ==> cms)
    }

    constructor (cms_call: string)
      ensures Valid() && remote == None && !cms && !relaying && mycall == Upper(cms_call) && control == []
    {
      mycall := Upper(cms_call);
      remote, cms, relaying := None, false, false;
      vs, vr, va, forwarded, written, control := 0, 0, 0, [], [], [];
      new;
      UpperTwice(cms_call);
    }

    /** `_busy_with_other` */
    predicate Busy(src: string)
      reads this
    {
      cms && remote != Some(src)
    }

    predicate Linked(a: Arrival)
      reads this
    {
      remote.Some? && Concerns(a, mycall, remote.value)
    }

    /** `handle`. A request to open a link is refused while another station holds the session. Otherwise it is
        granted, but the new link lasts only if the CMS can be reached and no task relays for an earlier link:
        cancelling that task closes the session, new link included. */
    method Handle(a: Arrival)
      requires Valid()
      modifies this
      ensures Valid()
      ensures Upper(a.dest) == mycall && a.frame.ctrl == 0x3F && old(remote == None && !cms) ==>
        old(control) < control && control[|old(control)|] == Reply(a.src, 0x73)
      ensures Upper(a.dest) == mycall && a.frame.ctrl == 0x2F && old(remote == None && !cms) ==>
        old(control) < control && control[|old(control)|] == Reply(a.src, 0x63)
      ensures Upper(a.dest) == mycall && a.frame.ctrl == 0x3F && old(cms && remote != Some(a.src)) ==>
        control == old(control) + [Reply(a.src, 0x1F)] && remote == old(remote)
      ensures Upper(a.dest) == mycall && a.frame.ctrl == 0x2F && old(cms && remote != Some(a.src)) ==>
        control == old(control) + [Reply(a.src, 0x0F)] && remote == old(remote)
      ensures Upper(a.dest) == mycall && a.frame.ctrl == 0x53 && old(remote == Some(a.src)) ==>
        control == old(control) + [Reply(a.src, 0x73)] && remote == None
      ensures Upper(a.dest) == mycall && a.frame.ctrl == 0x43 && old(remote == Some(a.src)) ==>
        control == old(control) + [Reply(a.src, 0x63)] && remote == None
      ensures a.frame.ctrl % 16 != 15 ==>
        old(written) <= written && forall i: nat | |old(written)| <= i < |written| :: written[i].ctrl % 16 == 1
      ensures Upper(a.dest) != mycall || (!IsSabm(a.frame.ctrl) && !old(Linked(a))) ==>
        && remote == old(remote) && cms == old(cms) && relaying == old(relaying)
        && Model() == old(Model()) && written == old(written) && control == old(control)
      ensures Upper(a.dest) == mycall && IsSabm(a.frame.ctrl) && old(Busy(a.src)) ==>
        && remote == old(remote) && cms == old(cms) && relaying == old(relaying)
        && Model() == old(Model()) && written == old(written)
        && control == old(control) + [Reply(a.src, Final(DM, a.frame.ctrl))]
      ensures Upper(a.dest) == mycall && IsSabm(a.frame.ctrl) && !old(Busy(a.src)) ==>
        && cms == a.connects && relaying == a.connects
        && remote == (if a.connects && !old(relaying) then Some(a.src) else None)
        && (remote.Some? ==> Model() == Endpoint(Kind.Gateway, 0, 0, 0, map[], []) && written == [])
        && (remote.None? ==> Model() == old(Model()) && written == old(written))
        && control == old(control) + [Reply(a.src, Final(UA, a.frame.ctrl))] +
             if a.connects then [] else [Reply(a.src, DM)]
      ensures old(Linked(a)) && IsDisc(a.frame.ctrl) ==>
        && remote == None && !cms && relaying == old(relaying) && Model() == old(Model()) && written == old(written)
        && control == old(control) + [Reply(a.src, Final(UA, a.frame.ctrl))]
      ensures old(Linked(a)) && !IsDisc(a.frame.ctrl) && !IsSabm(a.frame.ctrl) ==>
        && remote == old(remote) && cms == old(cms) && relaying == old(relaying) && control == old(control)
        && Model() == Received(old(Model()), a.frame).0
        && written == old(written) + Received(old(Model()), a.frame).1
    {
      hide PollBit, Received, Upper;
      FourBytes();
      OpensAndEnds(a.frame.ctrl);
      if Upper(a.dest) != mycall {
        return;
      }
      var ctrl, payload := a.frame.ctrl, a.frame.payload;
      var pf_in := PollBit(ctrl);
      if IsSabm(ctrl) {
        if Busy(a.src) {
          control := control + [Reply(a.src, Final(DM, ctrl))];
          return;
        }
        control := control + [Reply(a.src, Final(UA, ctrl))];
        StartNewSession(a.src, a.connects);
        return;
      }
      if remote == None || a.src != remote.value {
        return;
      }
      if IsDisc(ctrl) {
        control := control + [Reply(a.src, Final(UA, ctrl))];
        remote, cms := None, false;
        return;
      }
      TakeIn(ctrl, payload, pf_in);
    }

    /** The rest of `handle`: an I or S frame of the linked station. */
    method TakeIn(ctrl: byte, payload: bytes, pf_in: bool)
      requires Valid() && cms && pf_in == PollBit(ctrl)
      modifies this`va, this`vr, this`written, this`forwarded
      ensures Valid() && Model() == Received(old(Model()), Frame(ctrl, payload)).0
      ensures written == old(written) + Received(old(Model()), Frame(ctrl, payload)).1
      ensures old(written) <= written && forall i: nat | |old(written)| <= i < |written| :: written[i].ctrl % 16 == 1
    {
      hide PollBit, Ns, Nr, Rr;
      ReceivedBits(Model(), Frame(ctrl, payload));
      NrSmall(ctrl);
      if IsI(ctrl) || IsS(ctrl) {
        va := Nr(ctrl);
      }
      if IsI(ctrl) {
        if Ns(ctrl) == vr {
          vr := (vr + 1) % 8;
          written := written + [Frame(Rr(vr, pf_in), [])];
          if cms && payload != [] {
            forwarded := forwarded + payload;
          }
        } else {
          written := written + [Frame(Rr(vr, true), [])];
        }
      }
    }

    /** `link=LinkState(src)` and `_start_new_session`, with what follows when it fails. */
    method StartNewSession(src: string, connects: bool)
      requires Valid() && !Busy(src)
      modifies this
      ensures Valid() && cms == connects && relaying == connects
      ensures remote == if connects && !old(relaying) then Some(src) else None
      ensures remote.Some? ==> Model() == Endpoint(Kind.Gateway, 0, 0, 0, map[], []) && written == []
      ensures remote.None? ==> Model() == old(Model()) && written == old(written)
      ensures control == old(control) + if connects then [] else [Reply(src, DM)]
    {
      var link := Some(src);
      if relaying {
        // the cancelled task ends with `close_session`
        link, cms, relaying := None, false, false;
      }
      cms := true;
      if connects {
        relaying := true;
      } else {
        control := control + [Reply(src, DM)];
        link, cms := None, false;
      }
      remote := link;
      if remote.Some? {
        vs, vr, va, forwarded, written := 0, 0, 0, [], [];
      }
    }

    /** The frames that arrive while `cms_to_rf` is suspended at one of its awaits, up to the end of the link. */
    method HandleAll(batch: seq<Arrival>, station: string, ghost past: seq<Arrival>, ghost e0: Endpoint,
                     ghost w0: seq<Frame>, ghost acts0: seq<Act>)
      returns (ghost acts: seq<Act>)
      requires Valid() && relaying && remote == Some(station) && Reached(e0, w0, acts0, Model(), written)
      requires !Ended(past, mycall, station) && Turns(acts0) == Taken(past, mycall, station)
      modifies this
      ensures Valid() && Reached(e0, w0, acts, Model(), written) && ChunksOf(acts) == ChunksOf(acts0)
      ensures Turns(acts) == Taken(past + batch, mycall, station)
      ensures remote == if Ended(past + batch, mycall, station) then None else Some(station)
      ensures remote.Some? ==> relaying
    {
      hide Reached, Received, ChunksOf, Concerns, IsSabm, IsDisc, Ended, Taken, Turns, Final;
      acts := acts0;
      assert past + batch[..0] == past;
      for i := 0 to |batch|
        invariant Valid() && Reached(e0, w0, acts, Model(), written) && ChunksOf(acts) == ChunksOf(acts0)
        invariant relaying && remote == Some(station) && !Ended(past + batch[..i], mycall, station)
        invariant Turns(acts) == Taken(past + batch[..i], mycall, station)
      {
        var a := batch[i];
        TakenOne(past + batch[..i], a, mycall, station);
        assert past + batch[..i + 1] == past + batch[..i] + [a];
        ReachedOne(e0, w0, acts, Model(), written, Receiving(a.frame));
        TurnsOne(acts, Receiving(a.frame));
        ghost var received := Concerns(a, mycall, station) && !Ends(a, mycall, station);
        Apart(a, mycall, station);
        Handle(a);
        if received {
          acts := acts + [Receiving(a.frame)];
        }
        if remote.None? {
          TakenMore(past + batch[..i + 1], batch[i + 1..], mycall, station);
          assert past + batch[..i + 1] + batch[i + 1..] == past + batch;
          return;
        }
      }
      assert past + batch[..|batch|] == past + batch;
    }

    lemma Apart(a: Arrival, mycall: string, station: string)
      ensures !(IsSabm(a.frame.ctrl) && IsDisc(a.frame.ctrl))
      ensures Concerns(a, mycall, station) ==> Upper(a.dest) == mycall && a.src == station
      ensures Upper(a.dest) == mycall && a.src == station ==> Concerns(a, mycall, station)
    {
    }

    /** The body of `cms_to_rf` for the data of one `recv`: 200 bytes at a time, each only while fewer than 7 frames are
        outstanding, waiting for that without a limit. `batches` are the frames handled at its awaits, one after the
        other; while there are any, every chunk queued takes in at least one. It stops at the end of the link, or when
        the data is queued. */
    method CmsToRf(data: bytes, batches: seq<seq<Arrival>>) returns (outcome: Outcome, used: nat, ghost acts: seq<Act>)
      requires Valid() && remote.Some? && relaying
      modifies this
      ensures Valid() && Reached(old(Model()), old(written), acts, Model(), written)
      ensures ChunksOf(acts) <= BlocksOf(data, 200)
      ensures Min(|batches|, |ChunksOf(acts)|) <= used <= |batches|
      ensures Turns(acts) == Taken(Flatten(batches[..used]), mycall, old(remote).value)
      ensures remote == if Ended(Flatten(batches[..used]), mycall, old(remote).value) then None else old(remote)
      ensures outcome.Relayed? ==> ChunksOf(acts) == BlocksOf(data, 200)
      ensures outcome.Disconnected? ==> remote.None? && ChunksOf(acts) < BlocksOf(data, 200)
      ensures outcome.WindowFull? ==>
        used == |batches| && remote.Some? && Outstanding(Model()) >= WINDOW && ChunksOf(acts) < BlocksOf(data, 200)
    {
      hide Reached, ChunksOf, BlocksOf, IsSabm, Queued, Ended, Taken, Turns, Flatten;
      ghost var e0, w0 := Model(), written;
      var station := remote.value;
      acts := [];
      NothingReached(e0, w0);
      NothingTaken(mycall, station);
      assert batches[..0] == [];
      BlocksEnd(data, RELAY);
      var pos := 0;
      used := 0;
      while pos < |data|
        invariant Valid() && Reached(e0, w0, acts, Model(), written) && pos <= |data|
        invariant Min(|batches|, |ChunksOf(acts)|) <= used <= |batches|
        invariant ChunksOf(acts) + BlocksOf(data[pos..], RELAY) == BlocksOf(data, RELAY)
        invariant Turns(acts) == Taken(Flatten(batches[..used]), mycall, station)
        invariant remote == if Ended(Flatten(batches[..used]), mycall, station) then None else Some(station)
        invariant remote.Some? ==> relaying
        decreases |data| - pos
      {
        NextBlock(data, RELAY, pos);
        while remote.Some? && (vs - va) % 8 >= 7
          invariant Valid() && Reached(e0, w0, acts, Model(), written)
          invariant Min(|batches|, |ChunksOf(acts)|) <= used <= |batches|
          invariant ChunksOf(acts) + BlocksOf(data[pos..], RELAY) == BlocksOf(data, RELAY)
          invariant Turns(acts) == Taken(Flatten(batches[..used]), mycall, station)
          invariant remote == if Ended(Flatten(batches[..used]), mycall, station) then None else Some(station)
          invariant remote.Some? ==> relaying
          decreases |batches| - used
        {
          if used == |batches| {
            return WindowFull, used, acts;
          }
          FlattenNext(batches, used);
          acts := HandleAll(batches[used], station, Flatten(batches[..used]), e0, w0, acts);
          used := used + 1;
        }
        if remote.None? {
          return Disconnected, used, acts;
        }
        var chunk := data[pos..Min(pos + RELAY, |data|)];
        ReachedOne(e0, w0, acts, Model(), written, Queueing(chunk));
        TurnsOne(acts, Queueing(chunk));
        QueueChunk(chunk);
        acts := acts + [Queueing(chunk)];
        pos := pos + |chunk|;
        if used < |batches| {
          FlattenNext(batches, used);
          acts := HandleAll(batches[used], station, Flatten(batches[..used]), e0, w0, acts);
          used := used + 1;
        }
      }
      BlocksEnd(data[pos..], RELAY);
      outcome := Relayed;
    }

    /** The relaying is over: the `finally` of `cms_to_rf`, with `close_session`. */
    method RelayEnds()
      requires Valid()
      modifies this`remote, this`cms, this`relaying
      ensures Valid() && remote == None && !cms && !relaying
    {
      remote, cms, relaying := None, false, false;
    }

    method QueueChunk(chunk: bytes)
      requires Valid()
      modifies this`vs, this`written
      ensures Valid() && Model() == Queued(old(Model()), chunk).0
      ensures written == old(written) + Queued(old(Model()), chunk).1
    {
      var c := IFrame(vs, vr, false);
      vs := (vs + 1) % 8;
      written := written + [Frame(c, chunk)];
    }
  }

  lemma FourBytes()
    ensures PollBit(0x3F) && !PollBit(0x2F) && PollBit(0x53) && !PollBit(0x43)
  {
  }

  lemma UpperTwice(s: string)
    ensures Upper(Upper(s)) == Upper(s)
  {
  }
}
