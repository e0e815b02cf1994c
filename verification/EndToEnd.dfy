/** One message from compression to the far side of a lossy link and back. */
module EndToEnd {
  import opened Prelude
  import opened Ax25Link
  import opened Blocks
  import opened Arq
  import opened ArqRuns
  import opened Ax25Stream
  import opened Delivery
  import B2f
  import Lzhuf

  /** The bytes a side has taken in, handed on or not. */
  function TakenIn(x: Side): bytes {
    x.taken + x.e.rx
  }

  /** What the receiver makes of a transfer: `unframe_binary`, then `decompress`. */
  ghost function Opened(transfer: bytes): Option<bytes> {
    match B2f.Unframed(transfer)
    case Err(_) => None
    case Ok(blob) =>
      match Lzhuf.Decompressed(blob)
      case Err(_) => None
      case Ok(text) => Some(text)
  }

  /** The sender's half: the transfer, and what it carries. */
  method Packed(title: string, text: bytes) returns (transfer: Option<bytes>, ghost blob: bytes)
    ensures |text| <= 3867 ==> transfer.Some?
    ensures transfer.Some? ==> transfer.value == B2f.Framed(title, blob) && Lzhuf.Decompressed(blob) == Lzhuf.Ok(text)
  {
    hide Lzhuf.Decompressed, B2f.Framed;
    blob := [];
    var r, _ := Lzhuf.Compress(text);
    if r.Err? {
      return None, blob;
    }
    blob := r.data;
    var framed, _, _, _ := B2f.FrameBinary(title, r.data);
    transfer := Some(framed);
  }

  /** The receiver. */
  method Open(transfer: bytes) returns (text: Option<bytes>)
    ensures text == Opened(transfer)
  {
    hide B2f.Unframed, Lzhuf.Decompressed;
    var blob := B2f.UnframeBinary(transfer);
    if blob.Err? {
      return None;
    }
    var r := Lzhuf.Decompress(blob.data);
    text := if r.Ok? then Some(r.data) else None;
  }

  /** A run in which side `a`, at endpoint `e` after some run from the start, does just `acts`. */
  ghost predicate Performed(e: Endpoint, acts: seq<Act>, before: seq<State>, first: seq<Event>, during: seq<State>,
                            second: seq<Event>, kindB: Kind)
  {
    && Run(before, first) && before[0] == Initial(Stream, kindB)
    && Run(during, second) && NoTake(second) && during[0] == before[|first|]
    && during[0].a.e == e
    && ActsOf(during, second) == acts
  }

  /** Behind all that was queued before, the peer has taken in one transfer, and it opens to the text. When nothing was
      outstanding before, that is everything it has taken in since. */
  ghost predicate Arrived(s: State, t: State, text: bytes) {
    && Flatten(s.a.sent) <= TakenIn(t.b)
    && Opened(TakenIn(t.b)[|Flatten(s.a.sent)|..]) == Some(text)
    && (Drained(s.a) ==> TakenIn(s.b) == Flatten(s.a.sent))
  }

  /** Wherever the acts are performed, the text arrives. */
  ghost predicate AllArrive(e: Endpoint, acts: seq<Act>, text: bytes) {
    forall before, first, during, second, kindB | Performed(e, acts, before, first, during, second, kindB) ::
      Arrived(during[0], during[|second|], text)
  }

  /** A text is compressed, framed under any title and sent. Up to 3867 bytes it is always sent; and once `send` has
      returned, whatever was lost on the way and whatever else went on, the text has arrived. */
  method Transmit(title: string, text: bytes, s: AX25Stream, readings: seq<Reading>)
    returns (outcome: Option<Outcome>, used: nat, ghost acts: seq<Act>)
    requires s.Valid()
    modifies s
    ensures s.Valid() && used <= |readings|
    ensures |text| <= 3867 ==> outcome.Some?
    ensures outcome.None? ==> s.Model() == old(s.Model()) && s.written == old(s.written)
    ensures outcome.Some? ==> Reached(old(s.Model()), old(s.written), acts, s.Model(), s.written)
    ensures outcome.Some? ==> Answer(acts, readings[..used]) && Stopped(outcome.value, readings, used)
    ensures outcome.Some? ==> (outcome.value.Sent? <==> s.va == s.vs)
    ensures outcome == Some(Sent) ==> AllArrive(old(s.Model()), acts, text)
  {
    hide Lzhuf.Decompressed, B2f.Framed, Performed, Arrived, Reached, ChunksOf, BlocksOf, Answer, Stopped, AllArrive;
    used, acts := 0, [];
    ghost var e, w := s.Model(), s.written;
    var transfer, blob := Packed(title, text);
    if transfer.None? {
      return None, used, acts;
    }
    var sent;
    sent, used, acts := s.Send(transfer.value, readings);
    outcome := Some(sent);
    if sent.Sent? {
      ReachedEnds(e, w, acts, s.Model(), s.written);
      AlwaysArrives(e, acts, title, text, blob, s.block_size);
    }
  }

  lemma AlwaysArrives(e: Endpoint, acts: seq<Act>, title: string, text: bytes, blob: bytes, k: nat)
    requires Lzhuf.Decompressed(blob) == Lzhuf.Ok(text)
    requires k > 0 && ChunksOf(acts) == BlocksOf(B2f.Framed(title, blob), k)
    requires WellFormed(e) && Play(e, acts).0.va == Play(e, acts).0.vs
    ensures AllArrive(e, acts, text)
  {
    hide Lzhuf.Decompressed, B2f.Framed, Initial, Next, ActsOf, NoTake, Arrived, Play, ChunksOf, BlocksOf;
    forall before, first, during, second, kindB | Performed(e, acts, before, first, during, second, kindB)
      ensures Arrived(during[0], during[|second|], text)
    {
      Arrives(e, acts, before, first, during, second, kindB, title, text, blob, k);
    }
  }

  lemma ReachedEnds(e0: Endpoint, w0: seq<Frame>, acts: seq<Act>, e: Endpoint, w: seq<Frame>)
    requires Reached(e0, w0, acts, e, w)
    ensures WellFormed(e0) && e == Play(e0, acts).0
  {
    hide Play, Legal;
  }

  lemma Arrives(e: Endpoint, acts: seq<Act>, before: seq<State>, first: seq<Event>, during: seq<State>,
                second: seq<Event>, kindB: Kind, title: string, text: bytes, blob: bytes, k: nat)
    requires Performed(e, acts, before, first, during, second, kindB)
    requires Lzhuf.Decompressed(blob) == Lzhuf.Ok(text)
    requires k > 0 && ChunksOf(acts) == BlocksOf(B2f.Framed(title, blob), k)
    requires WellFormed(e) && Play(e, acts).0.va == Play(e, acts).0.vs
    ensures Arrived(during[0], during[|second|], text)
  {
    hide Lzhuf.Decompressed, B2f.Framed, B2f.Unframed, Initial, Next, ActsOf, ChunksOf, Play, BlocksOf, NoTake, Drained;
    SendReturned(before, first, during, second, kindB, B2f.Framed(title, blob), k, acts);
    B2f.FramingRoundTrip(title, blob);
    var earlier, later := Flatten(during[0].a.sent), TakenIn(during[|second|].b);
    assert later == earlier + B2f.Framed(title, blob);
    assert later[|earlier|..] == B2f.Framed(title, blob);
    if Drained(during[0].a) {
      InvInitial(Stream, kindB);
      RunKeeps(before, first, |first|);
      DrainedIsDelivered(during[0]);
    }
  }
}
