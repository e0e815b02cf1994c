/** The window of the LZSS encoder sliding over the text: what the ring holds, which strings are in the trees, and
    what a match found in the trees says about the text. */
module Window {
  import opened Prelude
  import opened SearchTree
  import opened SearchForest
  import opened Matcher
  import opened Lzss

  // In what follows `s` is the whole text with the first window before it, and `cur` is the index in `s` of the byte
  // to be coded next. Byte `i` of `s` lies at `Place(i)` on the ring.

  /** Byte `i` is in the ring, and in the mirror behind it where there is one. */
  predicate Loaded(text: seq<byte>, s: bytes, i: nat)
    requires IsText(text) && i < |s|
  {
    text[Place(i)] == s[i] && (i >= N + F && Place(i) < F - 1 ==> text[Place(i) + N] == s[i])
  }

  /** The ring holds the text from the oldest string still in reach up to `end`. */
  ghost predicate WindowOk(text: seq<byte>, s: bytes, cur: nat, end: nat) {
    && IsText(text)
    && N <= cur <= end <= |s|
    && end <= cur + F
    && forall i: nat | cur + F - N <= i < end :: Loaded(text, s, i)
  }

  /** Reading on from a place in the window reads the text, over the wrap-around as well. */
  lemma StringAt(text: seq<byte>, s: bytes, cur: nat, end: nat, x: nat, j: nat)
    requires WindowOk(text, s, cur, end) && cur + F - N <= x <= cur && j < F && x + j < end
    ensures Char(text, Place(x), j) == s[x + j]
  {
    assert Loaded(text, s, x + j);
    ModSub(x - F, j);
    if Place(x) + j >= N {
      assert (Place(x) + j) % N == Place(x) + j - N;
      WrapsLate(x, j);
    }
  }

  lemma WrapsLate(x: nat, j: nat)
    requires x >= F && Place(x) + j >= N
    ensures x + j >= N + F
  {
  }

  // The two remainders below, without division.

  lemma PlaceAhead(cur: nat, d: nat)
    requires d < N
    ensures Place(cur + d) == if Place(cur) + d < N then Place(cur) + d else Place(cur) + d - N
  {
    ModSub(cur - F, d);
    SmallMod(Place(cur) + d);
  }

  lemma DistanceIs(q: nat, r: nat)
    requires q < N && r < N
    ensures Distance(q, r) == if q <= r then r - q else r - q + N
  {
    SmallMod(r - q + N);
  }

  lemma SmallMod(x: nat)
    requires x < 2 * N
    ensures x % N == (if x < N then x else x - N) && (x - N) % N == x % N
  {
  }

  /** A position at most N - F back belongs to exactly one index of the window. */
  lemma OriginOf(cur: nat, q: nat)
    requires q < N && N <= cur
    ensures Distance(q, Place(cur)) <= cur && Place(cur - Distance(q, Place(cur))) == q
  {
    var d := Distance(q, Place(cur));
    DistanceIs(q, Place(cur));
    PlaceAhead(cur - d, d);
    hide Place, Distance;
  }

  lemma DistanceBack(cur: nat, d: nat)
    requires d < N && d <= cur
    ensures Distance(Place(cur - d), Place(cur)) == d
  {
    PlaceAhead(cur - d, d);
    DistanceIs(Place(cur - d), Place(cur));
    hide Place, Distance;
  }

  // ---------------------------------------------------------------- which strings are in the trees

  /** Only positions of the window are in the forest. */
  ghost predicate Recent(f: Forest, text: seq<byte>, cur: nat, near: nat, far: nat)
    requires IsText(text)
  {
    forall x: nat | InForest(f, text, x) :: near <= Distance(x, Place(cur)) <= far
  }

  /** How many spaces there are from index `i` on. */
  function Leading(s: bytes, i: nat): nat
    decreases |s| - i
  {
    if i < |s| && s[i] == 0x20 then 1 + Leading(s, i + 1) else 0
  }

  /** What the trees can tell about the string `d` back: everything, but for a text that begins with spaces. Of the
      strings that then consist of spaces, begin before the text and end in it, the trees keep only the oldest. */
  predicate InReach(s: bytes, cur: nat, d: nat) {
    d <= N - F && (cur >= N + d || cur + F <= N + d || cur + F > N + d + Leading(s, N))
  }

  /** A text that begins with anything else is in reach as far as the window goes. */
  lemma AllInReach(s: bytes, cur: nat, d: nat)
    requires N < |s| && s[N] != 0x20 && d <= N - F
    ensures InReach(s, cur, d)
  {
  }

  /** The string `d` back has an equal string in the forest that is not older. */
  ghost predicate CoveredAt(f: Forest, text: seq<byte>, cur: nat, d: nat)
    requires IsText(text) && d <= cur
  {
    exists q: nat :: InForest(f, text, q) && Distance(q, Place(cur)) <= d && Lcp(text, q, Place(cur - d)) == F
  }

  ghost predicate Covered(f: Forest, text: seq<byte>, s: bytes, cur: nat, near: nat, far: nat)
    requires IsText(text) && far <= cur
  {
    forall d: nat | near <= d <= far && InReach(s, cur, d) :: CoveredAt(f, text, cur, d)
  }

  // ---------------------------------------------------------------- overwriting the oldest byte

  /** Two buffers hold the same string at `x`. */
  predicate SameStrings(text: seq<byte>, text': seq<byte>, x: nat)
    requires IsText(text) && IsText(text') && x < N
  {
    forall j: nat | j < F :: Char(text, x, j) == Char(text', x, j)
  }

  lemma LcpKept(text: seq<byte>, text': seq<byte>, p: nat, q: nat)
    requires IsText(text) && IsText(text') && p < N && q < N
    requires SameStrings(text, text', p) && SameStrings(text, text', q)
    ensures Lcp(text', p, q) == Lcp(text, p, q) && (Less(text', p, q) <==> Less(text, p, q))
  {
    LcpIs(text', p, q, 0, Lcp(text, p, q));
  }

  lemma {:induction false} BstKept(t: BTree, text: seq<byte>, text': seq<byte>)
    requires IsText(text) && IsText(text') && Bst(t, text)
    requires forall x: nat | x in Nodes(t) :: x < N && SameStrings(text, text', x)
    ensures Bst(t, text')
  {
    hide Less, SameStrings;
    if t.Node? {
      BstKept(t.left, text, text');
      BstKept(t.right, text, text');
      forall x: nat | x in Nodes(t.left)
        ensures Less(text', x, t.p)
      {
        LcpKept(text, text', x, t.p);
      }
      forall x: nat | x in Nodes(t.right)
        ensures Less(text', t.p, x)
      {
        LcpKept(text, text', t.p, x);
      }
    }
  }

  /** Changing bytes outside all strings of the forest leaves the forest as it is. */
  lemma ForestKept(f: Forest, k: Links, text: seq<byte>, text': seq<byte>)
    requires ForestOk(f, k, text) && IsText(text')
    requires forall x: nat | InForest(f, text, x) :: SameStrings(text, text', x)
    ensures ForestOk(f, k, text')
    ensures forall x: nat :: InForest(f, text', x) <==> InForest(f, text, x)
  {
    forall c: byte
      ensures TreeOk(f[c], c, k, text')
    {
      assert TreeOk(f[c], c, k, text);
      forall x: nat | x in Nodes(f[c])
        ensures x < N && SameStrings(text, text', x) && text'[x] == c
      {
        NodeOf(f, k, text, c, x);
        assert Char(text, x, 0) == Char(text', x, 0);
      }
      BstKept(f[c], text, text');
    }
    forall x: nat
      ensures InForest(f, text', x) <==> InForest(f, text, x)
    {
      if InForest(f, text', x) {
        NodeOf(f, k, text, text'[x], x);
      }
      if InForest(f, text, x) {
        assert TreeOk(f[text[x]], text[x], k, text');
      }
    }
  }

  /** The buffer after a byte has been written at the place of `end`, and into the mirror. */
  function Written(text: seq<byte>, end: nat, c: byte): (r: seq<byte>)
    requires IsText(text)
    ensures IsText(r)
  {
    var q := Place(end);
    if q < F - 1 then text[q := c][q + N := c] else text[q := c]
  }

  /** A string less than N - F back does not reach the byte that is written `F` ahead. */
  lemma StringKept(text: seq<byte>, cur: nat, c: byte, x: nat)
    requires IsText(text) && x < N && Distance(x, Place(cur)) < N - F
    ensures SameStrings(text, Written(text, cur + F, c), x)
  {
    hide Distance;
    var text' := Written(text, cur + F, c);
    forall j: nat | j < F
      ensures Char(text, x, j) == Char(text', x, j)
    {
      OutOfReach(cur, x, j);
    }
  }

  lemma OutOfReach(cur: nat, x: nat, j: nat)
    requires x < N && j < F && Distance(x, Place(cur)) < N - F
    ensures x + j != Place(cur + F) && x + j != Place(cur + F) + N
  {
    PlaceAhead(cur, F);
    DistanceIs(x, Place(cur));
    hide Place, Distance;
  }

  lemma WindowSlides(text: seq<byte>, s: bytes, cur: nat, end: nat)
    requires WindowOk(text, s, cur, end) && end == cur + F < |s|
    ensures WindowOk(Written(text, end, s[end]), s, cur + 1, end + 1)
  {
    var text' := Written(text, end, s[end]);
    forall i: nat | cur + 1 + F - N <= i < end + 1
      ensures Loaded(text', s, i)
    {
      if i < end {
        assert Loaded(text, s, i);
        ModApart(i - F, end - F);
      }
    }
  }

  // ---------------------------------------------------------------- matches

  /** The text from `cur` on repeats, for `n` bytes, what stands `d` bytes earlier. */
  ghost predicate Repeats(s: bytes, cur: nat, d: nat, n: nat) {
    d <= cur && cur + n <= |s| && forall i: nat | cur <= i < cur + n :: s[i] == s[i - d]
  }

  /** A match of length `len` at position `pos`, cut to what is left of the text, can be copied. */
  ghost predicate MatchOk(s: bytes, cur: nat, end: nat, len: nat, pos: nat) {
    len > THRESHOLD ==>
      && len <= F && pos + 1 <= N - F && cur <= end
      && Repeats(s, cur, pos + 1, if len < end - cur then len else end - cur)
  }

  /** No string of the text in the window matches more than `len` bytes, where lengths up to THRESHOLD are not told
      apart. */
  ghost predicate Longest(s: bytes, cur: nat, end: nat, len: nat) {
    forall d: nat, n: nat | 1 <= d && InReach(s, cur, d) && cur + n <= end && Repeats(s, cur, d, n) :: n <= Bound(len)
  }

  lemma FoundMatch(f: Forest, text: seq<byte>, s: bytes, cur: nat, end: nat, len: nat, pos: nat)
    requires WindowOk(text, s, cur, end) && Recent(f, text, cur, 1, N - F)
    requires BestMatch(f, text, Place(cur), len, pos)
    ensures MatchOk(s, cur, end, len, pos)
  {
    if len > THRESHOLD {
      var q: nat :| InForest(f, text, q) && Lcp(text, q, Place(cur)) == len && Distance(q, Place(cur)) == pos + 1;
      OriginOf(cur, q);
      MatchedBytes(text, s, cur, end, q, len);
    }
  }

  lemma MatchedBytes(text: seq<byte>, s: bytes, cur: nat, end: nat, q: nat, len: nat)
    requires WindowOk(text, s, cur, end) && q < N && Lcp(text, q, Place(cur)) == len
    requires Distance(q, Place(cur)) <= N - F && q == Place(cur - Distance(q, Place(cur)))
    ensures Repeats(s, cur, Distance(q, Place(cur)), if len < end - cur then len else end - cur)
  {
    hide Distance, WindowOk;
    var d := Distance(q, Place(cur));
    var n := if len < end - cur then len else end - cur;
    WindowBounds(text, s, cur, end);
    forall i: nat | cur <= i < cur + n
      ensures s[i] == s[i - d]
    {
      StringAt(text, s, cur, end, cur - d, i - cur);
      StringAt(text, s, cur, end, cur, i - cur);
      assert Char(text, q, i - cur) == Char(text, Place(cur), i - cur);
    }
  }

  lemma WindowBounds(text: seq<byte>, s: bytes, cur: nat, end: nat)
    requires WindowOk(text, s, cur, end)
    ensures N <= cur <= end <= |s| && end <= cur + F && IsText(text)
  {
  }

  /** Where the text repeats, the strings in the ring share as many bytes. */
  lemma RepeatedPrefix(text: seq<byte>, s: bytes, cur: nat, end: nat, d: nat, n: nat)
    requires WindowOk(text, s, cur, end) && d <= N - F && cur + n <= end && Repeats(s, cur, d, n)
    ensures n <= Lcp(text, Place(cur - d), Place(cur))
  {
    var k := Lcp(text, Place(cur - d), Place(cur));
    if k < n {
      StringAt(text, s, cur, end, cur - d, k);
      StringAt(text, s, cur, end, cur, k);
    }
  }

  /** The best match among the strings in the trees is the best in the whole window. */
  lemma FoundLongest(f: Forest, text: seq<byte>, s: bytes, cur: nat, end: nat, len: nat, pos: nat)
    requires WindowOk(text, s, cur, end) && Covered(f, text, s, cur, 1, N - F)
    requires BestMatch(f, text, Place(cur), len, pos)
    ensures Longest(s, cur, end, len)
  {
    forall d: nat, n: nat | 1 <= d && InReach(s, cur, d) && cur + n <= end && Repeats(s, cur, d, n)
      ensures n <= Bound(len)
    {
      assert CoveredAt(f, text, cur, d);
      var q: nat :| InForest(f, text, q) && Distance(q, Place(cur)) <= d && Lcp(text, q, Place(cur - d)) == F;
      RepeatedPrefix(text, s, cur, end, d, n);
      SameString(text, q, Place(cur - d), Place(cur));
    }
  }

  // ---------------------------------------------------------------- one step of the window

  lemma DistanceAhead(cur: nat, q: nat)
    requires q < N && Distance(q, Place(cur)) < N - 1
    ensures Distance(q, Place(cur + 1)) == Distance(q, Place(cur)) + 1
  {
    PlaceAhead(cur, 1);
    DistanceIs(q, Place(cur));
    DistanceIs(q, Place(cur + 1));
    hide Place, Distance;
  }

  /** The oldest position is the one `delete_node` is called for. */
  lemma OldestPlace(cur: nat)
    requires cur >= N
    ensures Distance(Place(cur + F), Place(cur)) == N - F
    ensures forall q: nat :: q < N && Distance(q, Place(cur)) == N - F ==> q == Place(cur + F)
  {
    DistanceBack(cur, N - F);
    assert Place(cur + F) == Place(cur - (N - F)) by {
      ModSub(cur - N, N);
    }
    forall q: nat | q < N && Distance(q, Place(cur)) == N - F
      ensures q == Place(cur + F)
    {
      OriginOf(cur, q);
    }
  }

  /** Taking out the oldest string leaves the younger ones covered. */
  lemma AfterDelete(f: Forest, f': Forest, text: seq<byte>, s: bytes, cur: nat)
    requires IsText(text) && cur >= N
    requires Recent(f, text, cur, 0, N - F) && Covered(f, text, s, cur, 0, N - F)
    requires forall x: nat :: InForest(f', text, x) <==> InForest(f, text, x) && x != Place(cur + F)
    ensures Recent(f', text, cur, 0, N - F - 1) && Covered(f', text, s, cur, 0, N - F - 1)
  {
    hide Distance, Lcp, InReach;
    OldestPlace(cur);
    forall d: nat | d <= N - F - 1 && InReach(s, cur, d)
      ensures CoveredAt(f', text, cur, d)
    {
      assert CoveredAt(f, text, cur, d);
      var q: nat :| InForest(f, text, q) && Distance(q, Place(cur)) <= d && Lcp(text, q, Place(cur - d)) == F;
      assert InForest(f', text, q);
    }
  }

  /** Moving on by one byte makes everything one older; the overwritten byte is in none of the strings. */
  lemma AfterStep(f: Forest, text: seq<byte>, text': seq<byte>, s: bytes, cur: nat)
    requires IsText(text) && IsText(text') && cur >= N
    requires Recent(f, text, cur, 0, N - F - 1) && Covered(f, text, s, cur, 0, N - F - 1)
    requires forall x: nat | x < N && Distance(x, Place(cur)) < N - F :: SameStrings(text, text', x)
    requires forall x: nat :: InForest(f, text', x) <==> InForest(f, text, x)
    ensures Recent(f, text', cur + 1, 1, N - F) && Covered(f, text', s, cur + 1, 1, N - F)
  {
    hide Distance, Lcp, SameStrings, Leading;
    forall x: nat | InForest(f, text', x)
      ensures 1 <= Distance(x, Place(cur + 1)) <= N - F
    {
      DistanceAhead(cur, x);
    }
    var next := cur + 1;
    forall d: nat | 1 <= d && InReach(s, next, d)
      ensures CoveredAt(f, text', next, d)
    {
      assert InReach(s, cur, d - 1);
      assert CoveredAt(f, text, cur, d - 1);
      var q: nat :| InForest(f, text, q) && Distance(q, Place(cur)) <= d - 1 && Lcp(text, q, Place(cur - (d - 1))) == F;
      DistanceAhead(cur, q);
      DistanceBack(cur, d - 1);
      LcpKept(text, text', q, Place(cur - (d - 1)));
      assert InForest(f, text', q);
    }
  }

  lemma NotYetIn(f: Forest, text: seq<byte>, cur: nat)
    requires IsText(text) && Recent(f, text, cur, 1, N - F)
    ensures !InForest(f, text, Place(cur))
  {
    assert Distance(Place(cur), Place(cur)) == 0;
  }

  /** Entering the string at `cur` covers distance 0 and uncovers nothing. */
  lemma AfterInsert(f: Forest, f': Forest, text: seq<byte>, s: bytes, cur: nat)
    requires IsText(text) && cur >= N
    requires Recent(f, text, cur, 1, N - F) && Covered(f, text, s, cur, 1, N - F)
    requires Inserted(f, f', text, Place(cur))
    ensures Recent(f', text, cur, 0, N - F) && Covered(f', text, s, cur, 0, N - F)
  {
    assert Distance(Place(cur), Place(cur)) == 0;
    LessIrreflexive(text, Place(cur));
    forall d: nat | d <= N - F && InReach(s, cur, d)
      ensures CoveredAt(f', text, cur, d)
    {
      if d == 0 {
        assert InForest(f', text, Place(cur));
      } else {
        assert CoveredAt(f, text, cur, d);
        var q: nat :| InForest(f, text, q) && Distance(q, Place(cur)) <= d && Lcp(text, q, Place(cur - d)) == F;
        if InForest(f', text, q) {
        } else {
          SameString(text, q, Place(cur), Place(cur - d));
          assert InForest(f', text, Place(cur));
        }
      }
    }
  }

  // ---------------------------------------------------------------- the first window

  /** The state between two tokens: the trees hold the strings of the window up to and including `cur`. */
  ghost predicate Sliding(f: Forest, text: seq<byte>, s: bytes, cur: nat, end: nat) {
    WindowOk(text, s, cur, end) && Recent(f, text, cur, 0, N - F) && Covered(f, text, s, cur, 0, N - F)
  }

  /** The state before the string at `cur` is entered. */
  ghost predicate Waiting(f: Forest, text: seq<byte>, s: bytes, cur: nat, end: nat) {
    WindowOk(text, s, cur, end) && Recent(f, text, cur, 1, N - F) && Covered(f, text, s, cur, 1, N - F)
  }

  /** What the match variables say about the text at `cur`. */
  ghost predicate Found(s: bytes, cur: nat, end: nat, len: nat, pos: nat) {
    MatchOk(s, cur, end, len, pos) && Longest(s, cur, end, len)
  }

  lemma InsertSlides(f: Forest, f': Forest, text: seq<byte>, s: bytes, cur: nat, end: nat, len: nat, pos: nat)
    requires Waiting(f, text, s, cur, end) && BestMatch(f, text, Place(cur), len, pos)
    requires Inserted(f, f', text, Place(cur))
    ensures Sliding(f', text, s, cur, end) && Found(s, cur, end, len, pos)
  {
    hide WindowOk, Recent, Covered, BestMatch, Inserted, MatchOk, Longest, Place;
    WindowBounds(text, s, cur, end);
    FoundMatch(f, text, s, cur, end, len, pos);
    FoundLongest(f, text, s, cur, end, len, pos);
    AfterInsert(f, f', text, s, cur);
  }

  /** Feeding one byte: the oldest string is taken out and its first byte overwritten. */
  lemma FeedWaits(f: Forest, f': Forest, k: Links, text: seq<byte>, s: bytes, cur: nat, end: nat)
    requires Sliding(f, text, s, cur, end) && end == cur + F < |s| && ForestOk(f', k, text)
    requires forall x: nat :: InForest(f', text, x) <==> InForest(f, text, x) && x != Place(cur + F)
    ensures ForestOk(f', k, Written(text, end, s[end]))
    ensures Waiting(f', Written(text, end, s[end]), s, cur + 1, end + 1)
  {
    hide Loaded, Recent, Covered, Place, Distance, SameStrings, ForestOk, InForest, Written;
    AfterDelete(f, f', text, s, cur);
    WindowSlides(text, s, cur, end);
    var text' := Written(text, end, s[end]);
    forall x: nat | x < N && Distance(x, Place(cur)) < N - F
      ensures SameStrings(text, text', x)
    {
      StringKept(text, cur, s[end], x);
    }
    YoungKept(f', text, text', cur);
    ForestKept(f', k, text, text');
    AfterStep(f', text, text', s, cur);
  }

  lemma YoungKept(f: Forest, text: seq<byte>, text': seq<byte>, cur: nat)
    requires IsText(text) && IsText(text') && Recent(f, text, cur, 0, N - F - 1)
    requires forall x: nat | x < N && Distance(x, Place(cur)) < N - F :: SameStrings(text, text', x)
    ensures forall x: nat | InForest(f, text, x) :: SameStrings(text, text', x)
  {
  }

  /** After the end of the input the window slides without being written. */
  lemma DrainWaits(f: Forest, f': Forest, text: seq<byte>, s: bytes, cur: nat, end: nat)
    requires Sliding(f, text, s, cur, end) && end == |s| && cur + 1 <= end
    requires forall x: nat :: InForest(f', text, x) <==> InForest(f, text, x) && x != Place(cur + F)
    ensures Waiting(f', text, s, cur + 1, end)
  {
    hide Loaded, Place, Distance, InForest, Recent, Covered;
    AfterDelete(f, f', text, s, cur);
    AfterStep(f', text, text, s, cur);
  }

  /** The buffer is filled: spaces, then the first bytes of the text. */
  lemma FirstWindowOk(text: seq<byte>, data: bytes, n: nat)
    requires IsText(text) && n <= F && n <= |data|
    requires forall i: nat | i < N - F :: text[i] == 0x20
    requires forall i: nat | i < n :: text[N - F + i] == data[i]
    ensures WindowOk(text, FirstWindow() + data, N, N + n)
  {
    var s := FirstWindow() + data;
    forall i: nat | F <= i < N + n
      ensures Loaded(text, s, i)
    {
      assert Place(i) == i - F;
      if i < N {
        assert s[i] == 0x20;
      } else {
        assert text[N - F + (i - N)] == data[i - N];
      }
    }
  }

  /** One of the F insertions before the text: positions ever further back. */
  lemma FirstInsert(f: Forest, f': Forest, text: seq<byte>, i: nat)
    requires IsText(text) && 1 <= i <= F && Recent(f, text, N, 1, i - 1)
    requires Inserted(f, f', text, Place(N - i))
    ensures Recent(f', text, N, 1, i)
  {
    DistanceBack(N, i);
  }

  lemma FirstNotIn(f: Forest, text: seq<byte>, i: nat)
    requires IsText(text) && 1 <= i <= F && Recent(f, text, N, 1, i - 1)
    ensures !InForest(f, text, N - F - i) && Place(N - i) == N - F - i
  {
    DistanceBack(N, i);
  }

  /** The buffer before the first token, for a text that begins with `m` spaces: what follows them, or the zero behind a
      shorter text, is none. */
  ghost predicate SpacesThen(text: seq<byte>, m: nat) {
    && IsText(text)
    && (forall i: nat | i < N && i < N - F + m :: text[i] == 0x20)
    && (m < F ==> text[N - F + m] != 0x20)
  }

  lemma {:induction false} LeadingIs(s: bytes, i: nat)
    requires i <= |s|
    ensures i + Leading(s, i) <= |s| && forall j: nat | i <= j < i + Leading(s, i) :: s[j] == 0x20
    ensures i + Leading(s, i) < |s| ==> s[i + Leading(s, i)] != 0x20
    decreases |s| - i
  {
    if i < |s| && s[i] == 0x20 {
      LeadingIs(s, i + 1);
    }
  }

  lemma FirstSpaces(text: seq<byte>, s: bytes, end: nat)
    requires WindowOk(text, s, N, end) && (end == N + F || end == |s|)
    requires forall i: nat | i < N - F :: text[i] == 0x20
    requires forall i: nat | end - F <= i < N :: text[i] == 0
    ensures SpacesThen(text, Leading(s, N))
  {
    hide Leading;
    LeadingIs(s, N);
    var m := Leading(s, N);
    forall i: nat | N <= i < end
      ensures text[i - F] == s[i]
    {
      assert Loaded(text, s, i);
    }
    forall i: nat | i < N && i < N - F + m
      ensures text[i] == 0x20
    {
      if i >= N - F {
        assert text[i + F - F] == s[i + F];
      }
    }
  }

  /** The strings `d` back that consist of spaces are equal, and the others differ from all that are older. */
  lemma FirstStrings(text: seq<byte>, m: nat, d: nat, i: nat)
    requires SpacesThen(text, m) && 1 <= d < i <= N - F
    ensures d + m >= F ==> Lcp(text, N - F - d, N - F - i) == F
    ensures d + m < F ==> Lcp(text, N - F - d, N - F - i) < F
  {
    var x, y := N - F - d, N - F - i;
    if d + m >= F {
      forall j: nat | j < F
        ensures Char(text, x, j) == Char(text, y, j)
      {
      }
      LcpIs(text, x, y, 0, F);
    } else {
      assert Char(text, x, d + m) != Char(text, y, d + m);
    }
  }

  /** After `i` of the insertions before the text: the last string is there, and every one that does not consist of
      spaces. */
  ghost predicate FirstIn(f: Forest, text: seq<byte>, m: nat, i: nat)
    requires IsText(text) && i <= F
  {
    && (i > 0 ==> InForest(f, text, N - F - i))
    && forall x: nat | N - F - i <= x < N - F && N - 2 * F + m < x :: InForest(f, text, x)
  }

  lemma NoneIn(f: Forest, text: seq<byte>, m: nat)
    requires IsText(text)
    ensures FirstIn(f, text, m, 0)
  {
  }

  lemma FirstGrows(f: Forest, f': Forest, text: seq<byte>, m: nat, i: nat)
    requires SpacesThen(text, m) && 1 <= i <= F && FirstIn(f, text, m, i - 1)
    requires Inserted(f, f', text, N - F - i)
    ensures FirstIn(f', text, m, i)
  {
    hide InForest, Lcp, Char;
    forall x: nat | N - F - i < x < N - F && N - 2 * F + m < x
      ensures InForest(f', text, x)
    {
      FirstStrings(text, m, N - F - x, i);
    }
  }

  /** Exactly what the trees know before the first string of the text is entered: there is a string not older and
      equal to the one `d` back, unless that one consists of spaces, begins before the text and ends in it. */
  lemma FirstCovered(f: Forest, k: Links, text: seq<byte>, s: bytes, d: nat)
    requires IsText(text) && ForestOk(f, k, text)
    requires SpacesThen(text, Leading(s, N)) && FirstIn(f, text, Leading(s, N), F)
    requires 1 <= d <= N - F
    ensures CoveredAt(f, text, N, d) <==> InReach(s, N, d)
  {
    hide ForestOk, SpacesThen, InForest, Leading, Distance, Place, FirstIn, Recent, Lcp, CoveredAt;
    var m := Leading(s, N);
    if d >= F {
      OldSpaces(f, text, m, d);
    } else if d + m < F {
      NoSpaces(f, text, m, d);
    } else {
      YoungSpaces(f, k, text, m, d);
    }
  }

  lemma OldSpaces(f: Forest, text: seq<byte>, m: nat, d: nat)
    requires SpacesThen(text, m) && FirstIn(f, text, m, F) && F <= d <= N - F
    ensures CoveredAt(f, text, N, d)
  {
    hide InForest, Distance, Place, Lcp;
    FirstPlace(d);
    FirstPlace(F);
    if d > F {
      FirstStrings(text, m, F, d);
    } else {
      LessIrreflexive(text, N - F - F);
    }
  }

  lemma NoSpaces(f: Forest, text: seq<byte>, m: nat, d: nat)
    requires IsText(text) && FirstIn(f, text, m, F) && 1 <= d && d + m < F
    ensures CoveredAt(f, text, N, d)
  {
    hide InForest, Distance, Place, Lcp;
    FirstPlace(d);
    LessIrreflexive(text, N - F - d);
    var x: nat := N - F - d;
    assert InForest(f, text, x);
  }

  lemma YoungSpaces(f: Forest, k: Links, text: seq<byte>, m: nat, d: nat)
    requires ForestOk(f, k, text) && SpacesThen(text, m) && FirstIn(f, text, m, F) && 1 <= d < F <= d + m
    ensures !CoveredAt(f, text, N, d)
  {
    hide ForestOk, Distance, Place, Lcp, Nodes;
    FirstPlace(d);
    FirstPlace(F);
    FirstStrings(text, m, d, F);
    if q: nat :| InForest(f, text, q) && Distance(q, Place(N)) <= d && Lcp(text, q, Place(N - d)) == F {
      SameString(text, q, N - F - d, N - F - F);
      OnlyOnce(f, k, text, q, N - F - F);
    }
  }

  lemma FirstPlace(d: nat)
    requires 1 <= d <= N - F
    ensures Place(N - d) == N - F - d && Distance(N - F - d, Place(N)) == d
  {
    DistanceBack(N, d);
  }

  lemma TreeIsBst(f: Forest, k: Links, text: seq<byte>, c: byte)
    requires ForestOk(f, k, text)
    ensures Bst(f[c], text)
  {
    assert TreeOk(f[c], c, k, text);
  }

  lemma {:induction false} InTreeOnce(t: BTree, text: seq<byte>, p: nat, q: nat)
    requires IsText(text) && Bst(t, text) && p in Nodes(t) && q in Nodes(t) && p < N && q < N && Lcp(text, p, q) == F
    ensures p == q
  {
    hide Lcp;
    LcpSymmetric(text, p, q);
    if t.Node? && p != t.p && q != t.p {
      if p in Nodes(t.left) && q in Nodes(t.right) {
        LessBetween(text, p, t.p, q);
      } else if p in Nodes(t.right) && q in Nodes(t.left) {
        LessBetween(text, q, t.p, p);
      } else {
        InTreeOnce(if p in Nodes(t.left) then t.left else t.right, text, p, q);
      }
    }
  }

  /** No two strings of the forest are equal. */
  lemma OnlyOnce(f: Forest, k: Links, text: seq<byte>, p: nat, q: nat)
    requires IsText(text) && ForestOk(f, k, text) && InForest(f, text, p) && InForest(f, text, q)
    requires p < N && q < N && Lcp(text, p, q) == F
    ensures p == q
  {
    hide ForestOk, Bst;
    assert Char(text, p, 0) == Char(text, q, 0);
    TreeIsBst(f, k, text, text[p]);
    InTreeOnce(f[text[p]], text, p, q);
  }
}
