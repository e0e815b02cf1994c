/** `_lzss_encode`: filling the window, choosing tokens, and sliding on. */
module LzssEncoder {
  import opened Prelude
  import opened BitIO
  import opened PositionCode
  import opened SearchTree
  import opened SearchForest
  import opened Matcher
  import opened Window
  import opened Lzss
  import HuffmanTree
  import HuffmanReconst
  import opened HuffmanCode
  import opened Huffman

  /** The state of the search trees between two tokens. */
  ghost predicate Ready(m: Matcher, s: bytes, cur: nat, end: nat)
    reads m, m.text_buf, m.lson, m.rson, m.dad
  {
    m.Valid() && Sliding(m.forest, m.text_buf[..], s, cur, end) && Found(s, cur, end, m.match_length, m.match_position)
  }

  /** One pass of the loop that still has input: the oldest string goes, the new byte is stored over it, the next string
      is entered. */
  method Feed(m: Matcher, s0: nat, r0: nat, c: byte, ghost s: bytes, ghost cur: nat, ghost end: nat)
    returns (s1: nat, r1: nat)
    requires m.Valid() && Sliding(m.forest, m.text_buf[..], s, cur, end)
    requires end == cur + F < |s| && c == s[end] && s0 == Place(end) && r0 == Place(cur)
    modifies m, m.text_buf, m.lson, m.rson, m.dad
    ensures Ready(m, s, cur + 1, end + 1) && s1 == Place(end + 1) && r1 == Place(cur + 1)
  {
    hide ForestOk, Sliding, Found, InForest, Inserted, BestMatch, Place, Distance, Recent, Covered;
    ghost var text, f := m.text_buf[..], m.forest;
    SlidingText(f, text, s, cur, end);
    PlaceAhead(cur, 1);
    PlaceAhead(end, 1);
    m.DeleteNode(s0);
    FeedWaits(f, m.forest, m.Model(), text, s, cur, end);
    ghost var k, f' := m.Model(), m.forest;
    m.text_buf[s0] := c;
    if s0 < F - 1 {
      m.text_buf[s0 + N] := c;
    }
    assert m.text_buf[..] == Window.Written(text, end, c);
    s1 := (s0 + 1) % N;
    r1 := (r0 + 1) % N;
    Enter(m, r1, s, cur + 1, end + 1);
  }

  lemma SlidingText(f: Forest, text: seq<byte>, s: bytes, cur: nat, end: nat)
    requires Sliding(f, text, s, cur, end)
    ensures IsText(text) && N <= cur <= end <= |s|
  {
  }

  /** Enter the string at `cur` and look for its best match. */
  method Enter(m: Matcher, r: nat, ghost s: bytes, ghost cur: nat, ghost end: nat)
    requires m.Valid() && Waiting(m.forest, m.text_buf[..], s, cur, end) && r == Place(cur)
    modifies m, m.lson, m.rson, m.dad
    ensures Ready(m, s, cur, end)
  {
    hide ForestOk, InForest, Inserted, BestMatch, Place, Distance, Recent, Covered, Sliding, Found;
    ghost var f := m.forest;
    NotYetIn(f, m.text_buf[..], cur);
    m.InsertNode(r);
    InsertSlides(f, m.forest, m.text_buf[..], s, cur, end, m.match_length, m.match_position);
  }

  /** The pass of the second loop, after the end of the input: nothing is stored, and the last step enters nothing. */
  method Drain(m: Matcher, s0: nat, r0: nat, length0: nat, ghost s: bytes, ghost cur: nat)
    returns (s1: nat, r1: nat, length: nat)
    requires m.Valid() && Sliding(m.forest, m.text_buf[..], s, cur, |s|) && cur < |s| == cur + length0
    requires s0 == Place(cur + F) && r0 == Place(cur)
    modifies m, m.lson, m.rson, m.dad
    ensures m.Valid() && (cur + 1 < |s| ==> Ready(m, s, cur + 1, |s|))
    ensures s1 == Place(cur + 1 + F) && r1 == Place(cur + 1) && length == length0 - 1
  {
    hide ForestOk, Sliding, Found, InForest, Inserted, BestMatch, Place, Distance, Recent, Covered;
    ghost var text, f := m.text_buf[..], m.forest;
    SlidingText(f, text, s, cur, |s|);
    PlaceAhead(cur, 1);
    PlaceAhead(cur + F, 1);
    m.DeleteNode(s0);
    DrainWaits(f, m.forest, text, s, cur, |s|);
    s1 := (s0 + 1) % N;
    r1 := (r0 + 1) % N;
    length := length0 - 1;
    if length > 0 {
      Enter(m, r1, s, cur + 1, |s|);
    }
  }

  // ---------------------------------------------------------------- tokens

  /** The end of what the encoder sees at `cur`. */
  function Seen(s: bytes, cur: nat): nat {
    if cur + F < |s| then cur + F else |s|
  }

  /** No string of the text in the window would have given a longer copy than token `k`. */
  ghost predicate GreedyAt(s: bytes, cur: nat, k: Token) {
    Longest(s, cur, Seen(s, cur), if k.Copy? then k.len else 0)
  }

  /** The token for a match of length `len` at `pos`, cut to the rest of the text. */
  function Choice(s: bytes, cur: nat, end: nat, len: nat, pos: nat): (k: Token)
    requires MatchOk(s, cur, end, len, pos) && cur < end <= |s| && end <= cur + F
  {
    var n := if len > end - cur then end - cur else len;
    if n <= THRESHOLD then Literal(s[cur]) else Copy(pos, n)
  }

  /** The token reproduces the text, and is as long as any match could make it. */
  lemma ChoiceOk(s: bytes, cur: nat, end: nat, len: nat, pos: nat)
    requires Found(s, cur, end, len, pos) && N <= cur < end == Seen(s, cur)
    ensures var k := Choice(s, cur, end, len, pos);
      var n := |ExpandToken(s[..cur], k)|;
      && cur + n <= end && ExpandToken(s[..cur], k) == s[cur..cur + n] && GreedyAt(s, cur, k)
      && n == (if k.Copy? then k.len else 1)
  {
    var k := Choice(s, cur, end, len, pos);
    var n := |ExpandToken(s[..cur], k)|;
    if k.Copy? {
      RepeatReproduces(s, cur, pos + 1, k.len);
    }
    forall d: nat, m: nat | 1 <= d && InReach(s, cur, d) && cur + m <= end && Repeats(s, cur, d, m)
      ensures m <= Bound(if k.Copy? then k.len else 0)
    {
      assert m <= Bound(len);
    }
  }

  /** The buffers of the two objects are different. */
  ghost predicate Apart(m: Matcher, huff: Huff) {
    {m.text_buf as object, m.lson, m.rson, m.dad} !! {huff.freq as object, huff.prnt, huff.son}
  }

  /** Write one token; the code of its symbol may be too long. */
  method PutToken(huff: Huff, bw: BitWriter, k: Token) returns (ok: bool)
    requires huff.Valid() && bw.Valid()
    modifies huff.freq, huff.prnt, huff.son, bw
    ensures huff.Valid() && bw.Valid()
    ensures ok <==> |CodeFor(old(huff.Model()), Symbol(k))| <= 16
    ensures ok ==> bw.Written() == old(bw.Written()) + TokenBits(old(huff.Model()), k)
    ensures ok ==> huff.Model() == Next(old(huff.Model()), Symbol(k))
  {
    hide Huff.Valid, Huff.Model, HuffmanTree.Valid, BitWriter.Valid, BitWriter.Written, Code, Update, CodeFor, Next;
    hide PositionBits, HuffmanTree.Linked;
    TreeIsValid(huff);
    TotalForms(huff.Model(), Symbol(k));
    match k
    case Literal(c) =>
      ok := huff.EncodeChar(c, bw);
    case Copy(pos, len) =>
      ok := huff.EncodeChar(255 - THRESHOLD + len, bw);
      if ok {
        EncodePosition(bw, pos);
      }
  }

  /** The first half of a round of `_lzss_encode`: cut the match to the rest of the text and write its token. */
  method Emit(m: Matcher, huff: Huff, bw: BitWriter, r: nat, length: nat, ghost s: bytes, ghost cur: nat)
    returns (ok: bool, n: nat, k: Token)
    requires Ready(m, s, cur, cur + length) && cur + length == Seen(s, cur) && length > 0 && r == Place(cur)
    requires huff.Valid() && bw.Valid() && Apart(m, huff)
    modifies m`match_length, huff.freq, huff.prnt, huff.son, bw
    ensures m.Valid() && Sliding(m.forest, m.text_buf[..], s, cur, cur + length) && huff.Valid() && bw.Valid()
    ensures N <= cur && n <= length && ExpandToken(s[..cur], k) == s[cur..cur + n] && n >= 1 && GreedyAt(s, cur, k)
    ensures ok <==> |CodeFor(old(huff.Model()), Symbol(k))| <= 16
    ensures ok ==> bw.Written() == old(bw.Written()) + TokenBits(old(huff.Model()), k)
    ensures ok ==> huff.Model() == Next(old(huff.Model()), Symbol(k))
  {
    hide ForestOk, Sliding, Found, Huff.Valid, Huff.Model, BitWriter.Valid, BitWriter.Written, Place, MatchOk, CodeFor;
    hide GreedyAt, ExpandToken, Next, TokenBits;
    SlidingText(m.forest, m.text_buf[..], s, cur, cur + length);
    NextByte(m.forest, m.text_buf[..], s, cur, cur + length);
    FoundIsMatch(s, cur, cur + length, m.match_length, m.match_position);
    ChoiceOk(s, cur, cur + length, m.match_length, m.match_position);
    if m.match_length > length {
      m.match_length := length;
    }
    if m.match_length <= THRESHOLD {
      m.match_length := 1;
      k := Literal(m.text_buf[r]);
    } else {
      k := Copy(m.match_position, m.match_length);
    }
    assert k == old(Choice(s, cur, cur + length, m.match_length, m.match_position));
    n := m.match_length;
    ok := PutToken(huff, bw, k);
  }

  lemma TotalForms(t: HuffmanTree.Tree, c: HuffmanTree.symbol)
    requires HuffmanTree.Valid(t)
    ensures HuffmanTree.Linked(t) && CodeFor(t, c) == Code(t, c) && Next(t, c) == Update(t, c)
  {
    hide HuffmanTree.SonsOk, HuffmanTree.ParentsOfSons, HuffmanTree.SonsOfParents, HuffmanTree.Ordered, Code, Update;
  }

  lemma TreeIsValid(huff: Huff)
    requires huff.Valid()
    ensures HuffmanTree.Valid(huff.Model())
  {
  }

  lemma NextByte(f: Forest, text: seq<byte>, s: bytes, cur: nat, end: nat)
    requires Sliding(f, text, s, cur, end) && cur < end
    ensures text[Place(cur)] == s[cur]
  {
    assert Loaded(text, s, cur);
  }

  lemma FoundIsMatch(s: bytes, cur: nat, end: nat, len: nat, pos: nat)
    requires Found(s, cur, end, len, pos)
    ensures MatchOk(s, cur, end, len, pos)
    ensures len > THRESHOLD ==> len <= F && pos < 4096
  {
  }

  // ---------------------------------------------------------------- the whole encoder

  /** The second half of a round: move on by the length of the token. */
  method Slide(m: Matcher, data: bytes, s0: nat, r0: nat, src0: nat, length0: nat, n: nat, ghost cur: nat)
    returns (s1: nat, r1: nat, src1: nat, length: nat)
    requires m.Valid() && Sliding(m.forest, m.text_buf[..], FirstWindow() + data, cur, cur + length0)
    requires 1 <= n <= length0 && cur + length0 == Seen(FirstWindow() + data, cur) == N + src0
    requires s0 == Place(cur + F) && r0 == Place(cur)
    modifies m, m.text_buf, m.lson, m.rson, m.dad
    ensures m.Valid() && N + src1 == cur + n + length == Seen(FirstWindow() + data, cur + n)
    ensures length > 0 ==> Ready(m, FirstWindow() + data, cur + n, cur + n + length)
    ensures s1 == Place(cur + n + F) && r1 == Place(cur + n)
  {
    hide Sliding, Found, Place, Matcher.Valid;
    ghost var s := FirstWindow() + data;
    s1, r1, src1, length := s0, r0, src0, length0;
    var i := 0;
    while i < n && src1 < |data|
      invariant i <= n && m.Valid() && N + src1 == cur + i + length == Seen(s, cur + i) && length == length0
      invariant Sliding(m.forest, m.text_buf[..], s, cur + i, cur + i + length)
      invariant i == n ==> Ready(m, s, cur + i, cur + i + length)
      invariant s1 == Place(cur + i + F) && r1 == Place(cur + i)
    {
      s1, r1 := Feed(m, s1, r1, data[src1], s, cur + i, cur + i + length);
      src1 := src1 + 1;
      i := i + 1;
    }
    while i < n
      invariant i <= n && m.Valid() && N + src1 == cur + i + length == Seen(s, cur + i) && length >= n - i
      invariant i < n ==> src1 == |data|
      invariant length > 0 ==> Sliding(m.forest, m.text_buf[..], s, cur + i, cur + i + length)
      invariant i == n && length > 0 ==> Ready(m, s, cur + i, cur + i + length)
      invariant s1 == Place(cur + i + F) && r1 == Place(cur + i)
    {
      s1, r1, length := Drain(m, s1, r1, length, s, cur + i);
      i := i + 1;
    }
  }

  /** The buffer before the first token: spaces, then up to F bytes of the input. */
  method Fill(m: Matcher, data: bytes) returns (length: nat)
    requires m.Valid() && m.text_buf.Length == N + F - 1
    requires forall x: nat :: !InForest(m.forest, m.text_buf[..], x)
    requires forall i: nat | i < m.text_buf.Length :: m.text_buf[i] == 0
    modifies m.text_buf
    ensures SpacesThen(m.text_buf[..], Leading(FirstWindow() + data, N))
    ensures m.Valid() && length == Seen(FirstWindow() + data, N) - N
    ensures forall x: nat :: !InForest(m.forest, m.text_buf[..], x)
    ensures WindowOk(m.text_buf[..], FirstWindow() + data, N, N + length)
  {
    hide ForestOk, InForest;
    ghost var text := m.text_buf[..];
    ghost var k := m.Model();
    for i := 0 to N - F
      invariant forall j: nat | j < i :: m.text_buf[j] == 0x20
      invariant forall j: nat | i <= j < m.text_buf.Length :: m.text_buf[j] == 0
    {
      m.text_buf[i] := 0x20;
    }
    length := 0;
    while length < F && length < |data|
      invariant length <= F && length <= |data|
      invariant forall j: nat | j < N - F :: m.text_buf[j] == 0x20
      invariant forall j: nat | j < length :: m.text_buf[N - F + j] == data[j]
      invariant forall j: nat | N - F + length <= j < m.text_buf.Length :: m.text_buf[j] == 0
    {
      m.text_buf[N - F + length] := data[length];
      length := length + 1;
    }
    assert m.Model() == k;
    ForestKept(m.forest, k, text, m.text_buf[..]);
    FirstWindowOk(m.text_buf[..], data, length);
    FirstSpaces(m.text_buf[..], FirstWindow() + data, N + length);
  }

  /** The insertions before the first token. */
  method FirstTrees(m: Matcher, ghost s: bytes, ghost end: nat)
    requires m.Valid() && WindowOk(m.text_buf[..], s, N, end) && SpacesThen(m.text_buf[..], Leading(s, N))
    requires forall x: nat :: !InForest(m.forest, m.text_buf[..], x)
    modifies m, m.lson, m.rson, m.dad
    ensures Ready(m, s, N, end)
  {
    hide ForestOk, InForest, Distance, Place, Inserted, BestMatch, WindowOk, Found, Covered, Matcher.Valid, FirstIn,
      SpacesThen, Leading;
    ghost var text := m.text_buf[..];
    WindowBounds(text, s, N, end);
    NoneIn(m.forest, text, Leading(s, N));
    for i := 1 to F + 1
      invariant m.Valid() && m.text_buf[..] == text && Recent(m.forest, text, N, 1, i - 1)
      invariant FirstIn(m.forest, text, Leading(s, N), i - 1)
    {
      ghost var f := m.forest;
      FirstNotIn(f, text, i);
      m.InsertNode(N - F - i);
      FirstInsert(f, m.forest, text, i);
      FirstGrows(f, m.forest, text, Leading(s, N), i);
    }
    WindowCovered(m, text, s);
    PlaceOfFirst();
    RecentWider(m.forest, text);
    Enter(m, N - F, s, N, end);
  }

  lemma WindowCovered(m: Matcher, text: seq<byte>, s: bytes)
    requires m.Valid() && IsText(text) && text == m.text_buf[..] && SpacesThen(text, Leading(s, N))
    requires FirstIn(m.forest, text, Leading(s, N), F)
    ensures Covered(m.forest, text, s, N, 1, N - F)
  {
    hide ForestOk, CoveredAt, InReach, FirstIn, SpacesThen;
    forall d: nat | 1 <= d <= N - F
      ensures CoveredAt(m.forest, text, N, d) <==> InReach(s, N, d)
    {
      FirstCovered(m.forest, m.Model(), text, s, d);
    }
  }

  lemma PlaceOfFirst()
    ensures Place(N) == N - F && Place(N + F) == 0
  {
  }

  lemma RecentWider(f: Forest, text: seq<byte>)
    requires IsText(text) && Recent(f, text, N, 1, F)
    ensures Recent(f, text, N, 1, N - F)
  {
    hide Distance;
  }

  /** Every token is a longest one where it stands. */
  ghost predicate Greedy(s: bytes, toks: seq<Token>) {
    forall i: nat | i < |toks| :: GreedyAt(s, N + |Expand(FirstWindow(), toks[..i])|, toks[i])
  }

  /** What holds of the tokens written so far, when `cur` is reached. */
  ghost predicate Progress(data: bytes, toks: seq<Token>, cur: nat) {
    && N <= cur <= N + |data|
    && Expand(FirstWindow(), toks) == data[..cur - N]
    && Greedy(FirstWindow() + data, toks)
  }

  lemma Behind(w: bytes, data: bytes, i: nat, j: nat)
    requires i <= j <= |data|
    ensures (w + data)[..|w| + i] == w + data[..i] && (w + data)[|w| + i..|w| + j] == data[i..j]
  {
  }

  lemma ProgressStep(data: bytes, toks: seq<Token>, cur: nat, k: Token, n: nat)
    requires Progress(data, toks, cur) && cur + n <= N + |data|
    requires ExpandToken((FirstWindow() + data)[..cur], k) == (FirstWindow() + data)[cur..cur + n]
    requires GreedyAt(FirstWindow() + data, cur, k)
    ensures Progress(data, toks + [k], cur + n)
  {
    hide FirstWindow, ExpandToken, GreedyAt, Expand;
    var s := FirstWindow() + data;
    ExpandSnoc(FirstWindow(), toks, k);
    Behind(FirstWindow(), data, cur - N, cur - N + n);
    assert data[..cur - N] + data[cur - N..cur - N + n] == data[..cur - N + n];
    forall i: nat | i < |toks + [k]|
      ensures GreedyAt(s, N + |Expand(FirstWindow(), (toks + [k])[..i])|, (toks + [k])[i])
    {
      if i < |toks| {
        assert (toks + [k])[..i] == toks[..i];
      } else {
        assert (toks + [k])[..i] == toks;
      }
    }
  }

  lemma ProgressMeans(data: bytes, toks: seq<Token>, cur: nat)
    requires Progress(data, toks, cur)
    ensures N <= cur <= N + |data| && Expand(FirstWindow(), toks) <= data && Greedy(FirstWindow() + data, toks)
    ensures cur == N + |data| ==> Expand(FirstWindow(), toks) == data
  {
    hide Expand, FirstWindow, Greedy;
  }

  lemma ProgressStart(data: bytes)
    ensures Progress(data, [], N)
  {
  }

  /** The bits written are the code of the tokens so far, and the tree is the one they lead to. */
  ghost predicate Coding(huff: Huff, bw: BitWriter, toks: seq<Token>)
    reads huff.freq, huff.prnt, huff.son, bw
  {
    && huff.Valid() && bw.Valid()
    && Coded(HuffmanReconst.StartTree(), toks) == Some(bw.Written())
    && TreeAfter(HuffmanReconst.StartTree(), toks) == huff.Model()
  }

  /** One token more, or a symbol whose code does not fit. */
  method Turn(m: Matcher, huff: Huff, bw: BitWriter, r: nat, length: nat, ghost data: bytes, ghost cur: nat,
              ghost toks0: seq<Token>)
    returns (ok: bool, n: nat, ghost toks: seq<Token>)
    requires Ready(m, FirstWindow() + data, cur, cur + length) && cur + length == Seen(FirstWindow() + data, cur)
    requires length > 0 && r == Place(cur)
    requires Coding(huff, bw, toks0) && Progress(data, toks0, cur) && Apart(m, huff)
    modifies m`match_length, huff.freq, huff.prnt, huff.son, bw
    ensures m.Valid() && Sliding(m.forest, m.text_buf[..], FirstWindow() + data, cur, cur + length)
    ensures 1 <= n <= length && Progress(data, toks, cur + n)
    ensures if ok then Coding(huff, bw, toks) else Coded(HuffmanReconst.StartTree(), toks).None?
  {
    hide Huff.Valid, Huff.Model, BitWriter.Valid, BitWriter.Written, Coded, TreeAfter, Expand, FirstWindow, Progress;
    hide HuffmanReconst.StartTree, Ready, Sliding, CodeFor, Next, TokenBits, GreedyAt, Place, Matcher.Valid;
    var k;
    SeenIsShort(FirstWindow() + data, cur);
    ok, n, k := Emit(m, huff, bw, r, length, FirstWindow() + data, cur);
    CodedSnoc(HuffmanReconst.StartTree(), toks0, k);
    ProgressMeans(data, toks0, cur);
    ProgressStep(data, toks0, cur, k, n);
    toks := toks0 + [k];
  }

  lemma SeenIsShort(s: bytes, cur: nat)
    ensures Seen(s, cur) <= |s|
  {
  }

  /** `_lzss_encode`. The tokens it writes expand to the input, every one of them as long as the window allows, and the
      output is their code; or it fails because the next symbol's code does not fit into 16 bits. */
  method LzssEncode(data: bytes) returns (body: Option<bytes>, ghost toks: seq<Token>)
    ensures body.Some? ==> BodyOf(body.value, toks) && Expand(FirstWindow(), toks) == data
    ensures body.Some? ==> DecodeBody(body.value, |data|) == data
    ensures body.None? ==> Coded(HuffmanReconst.StartTree(), toks).None? && Expand(FirstWindow(), toks) <= data
    ensures Greedy(FirstWindow() + data, toks)
  {
    hide Huff.Valid, Huff.Model, BitWriter.Valid, BitWriter.Written, Matcher.Valid, Coded, TreeAfter, Expand,
      FirstWindow;
    hide HuffmanReconst.StartTree, InForest, WindowOk, Ready, Sliding, Place, Greedy, Progress, Coding, BodyOf,
      DecodeBody;
    var huff := new Huff();
    var bw := new BitWriter();
    var m := new Matcher();
    toks := [];
    ProgressStart(data);
    NothingCoded(huff, bw);
    var length := Fill(m, data);
    if length > 0 {
      FirstTrees(m, FirstWindow() + data, N + length);
    }
    PlaceOfFirst();
    var s, r, src := 0, N - F, length;
    ghost var cur := N;
    while length > 0
      invariant N + src == cur + length == Seen(FirstWindow() + data, cur)
      invariant cur <= N + |data| && Progress(data, toks, cur)
      invariant length > 0 ==> Ready(m, FirstWindow() + data, cur, cur + length)
      invariant s == Place(cur + F) && r == Place(cur)
      invariant Coding(huff, bw, toks) && Apart(m, huff)
      invariant fresh(huff.freq) && fresh(huff.prnt) && fresh(huff.son) && fresh(bw)
      invariant fresh(m) && fresh(m.text_buf) && fresh(m.lson) && fresh(m.rson) && fresh(m.dad)
      decreases N + |data| - cur
    {
      var ok, n;
      ok, n, toks := Turn(m, huff, bw, r, length, data, cur, toks);
      ProgressMeans(data, toks, cur + n);
      if !ok {
        return None, toks;
      }
      s, r, src, length := Slide(m, data, s, r, src, length, n, cur);
      cur := cur + n;
    }
    ProgressMeans(data, toks, cur);
    var out := Finish(huff, bw, toks);
    BodyDecodes(out, toks);
    body := Some(out);
  }

  lemma NothingCoded(huff: Huff, bw: BitWriter)
    requires huff.Valid() && bw.Valid() && bw.Written() == [] && huff.Model() == HuffmanReconst.StartTree()
    ensures Coding(huff, bw, [])
  {
    hide Huff.Valid, Huff.Model, BitWriter.Valid, BitWriter.Written;
  }

  /** `flush` at the end. */
  method Finish(huff: Huff, bw: BitWriter, ghost toks: seq<Token>) returns (body: bytes)
    requires Coding(huff, bw, toks)
    modifies bw
    ensures BodyOf(body, toks)
  {
    hide Huff.Valid, Huff.Model, BitWriter.Valid, BitWriter.Written, Coded, TreeAfter, HuffmanReconst.StartTree;
    body := bw.Flush();
  }
}
