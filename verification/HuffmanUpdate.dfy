/** One increment of `update`: the walk from a leaf to the root that restores the order by exchanging sons. */
module HuffmanUpdate {
  import opened Prelude
  import opened HuffmanTree

  /** The last node from `l` on whose frequency is below `k`; the sentinel stops the search. */
  function LastBelow(freq: seq<nat>, k: nat, l: nat): (r: nat)
    requires |freq| == T + 1 && l < T && k <= freq[T]
    ensures l <= r < T
    ensures forall x: nat | l < x <= r :: freq[x] < k
    ensures k <= freq[r + 1]
    decreases T - l
  {
    if k > freq[l + 1] then LastBelow(freq, k, l + 1) else l
  }

  /** `prnt` after the sons of `c` are told that `l` is their parent, and the sons of `l` that `c` is. */
  function SwapParents(prnt: seq<nat>, son: seq<nat>, c: nat, l: nat): (r: seq<nat>)
    requires |prnt| == T + N_CHAR && SonsOk(son) && c < T && l < T
    ensures |r| == |prnt|
  {
    var i, j := son[c], son[l];
    var p1 := prnt[i := l];
    var p2 := if i < T then p1[i + 1 := l] else p1;
    var p3 := p2[j := c];
    if j < T then p3[j + 1 := c] else p3
  }

  /** Hang the sons of `c` below `l` and the sons of `l` below `c`. */
  function SwapSons(t: Tree, c: nat, l: nat): (t': Tree)
    requires Shaped(t) && SonsOk(t.son) && c < T && l < T
    ensures Shaped(t')
  {
    Tree(t.freq, SwapParents(t.prnt, t.son, c, l), t.son[l := t.son[c]][c := t.son[l]])
  }

  /** One pass of the loop in `update`: add one at `c` and restore the order. The node the new weight ends up at is
      the last one that had the weight of `c`. */
  function Place(t: Tree, c: nat): (r: (Tree, nat))
    requires Shaped(t) && SonsOk(t.son) && c < T && t.freq[c] + 1 <= t.freq[T]
    ensures Shaped(r.0) && c <= r.1 < T
  {
    var l := LastBelow(t.freq, t.freq[c] + 1, c);
    var s := if l == c then t else SwapSons(t, c, l);
    (s.(freq := t.freq[c := t.freq[l]][l := t.freq[c] + 1]), l)
  }

  /** Exchange the names `c` and `l`. */
  function Swapped(c: nat, l: nat, x: nat): nat {
    if x == c then l else if x == l then c else x
  }

  /** `y` is a son of the node whose `son` entry is `i`. */
  predicate Under(i: nat, y: nat) {
    y == i || (i < T && y == i + 1)
  }

  lemma UnderIffParent(t: Tree, x: nat, y: nat)
    requires Linked(t) && x < T && y != R && y < T + N_CHAR
    ensures Under(t.son[x], y) <==> t.prnt[y] == x
  {
    if Under(t.son[x], y) {
      assert t.prnt[t.son[x]] == x;
    }
  }

  lemma SwapWrites(t: Tree, c: nat, l: nat, y: nat)
    requires Shaped(t) && SonsOk(t.son) && c < T && l < T && y < T + N_CHAR
    ensures SwapSons(t, c, l).prnt[y] == if Under(t.son[l], y) then c else if Under(t.son[c], y) then l else t.prnt[y]
  {
  }

  /** Where `y` hangs after the swap. */
  lemma SwapParent(t: Tree, c: nat, l: nat, y: nat)
    requires Linked(t) && c < l < T && y != R && y < T + N_CHAR
    ensures SwapSons(t, c, l).prnt[y] == Swapped(c, l, t.prnt[y])
  {
    SwapWrites(t, c, l, y);
    UnderIffParent(t, c, y);
    UnderIffParent(t, l, y);
  }

  lemma SwapRoot(t: Tree, c: nat, l: nat)
    requires Linked(t) && c < l < T
    ensures |SwapSons(t, c, l).prnt| == T + N_CHAR && |SwapSons(t, c, l).son| == T && SwapSons(t, c, l).prnt[R] == 0
    ensures forall x: nat | x < T :: SwapSons(t, c, l).son[x] == t.son[Swapped(c, l, x)]
    ensures forall y: nat | y < T + N_CHAR :: y != R ==> t.prnt[y] < T
  {
  }

  /** `SwapSons` renames `c` and `l` in both tables, and changes nothing else. */
  lemma SwapRenames(t: Tree, c: nat, l: nat)
    requires Linked(t) && c < l < T
    ensures forall x: nat | x < T :: SwapSons(t, c, l).son[x] == t.son[Swapped(c, l, x)]
    ensures forall y: nat | y < R || T <= y < T + N_CHAR :: SwapSons(t, c, l).prnt[y] == Swapped(c, l, t.prnt[y])
    ensures SwapSons(t, c, l).prnt[R] == 0
  {
    SwapRoot(t, c, l);
    hide SwapSons, ParentsOfSons, SonsOfParents, SonsOk;
    forall y: nat | y < R || T <= y < T + N_CHAR
      ensures SwapSons(t, c, l).prnt[y] == Swapped(c, l, t.prnt[y])
    {
      SwapParent(t, c, l, y);
    }
  }

  lemma SwapLinked(t: Tree, c: nat, l: nat)
    requires Linked(t) && c < l < R
    requires t.son[l] < T ==> t.son[l] + 1 < c
    ensures Linked(SwapSons(t, c, l))
  {
    hide SwapSons, SonsOk, ParentsOfSons, SonsOfParents;
    SwapSonsOk(t, c, l);
    SwapParentsOfSons(t, c, l);
    SwapSonsOfParents(t, c, l);
  }

  lemma SwapParentsOfSons(t: Tree, c: nat, l: nat)
    requires Linked(t) && c < l < R && Shaped(SwapSons(t, c, l)) && SonsOk(SwapSons(t, c, l).son)
    ensures ParentsOfSons(SwapSons(t, c, l).prnt, SwapSons(t, c, l).son)
  {
    hide SwapSons, SonsOfParents;
    var t' := SwapSons(t, c, l);
    SwapRenames(t, c, l);
    forall x: nat | x < T
      ensures t'.prnt[t'.son[x]] == x && (t'.son[x] < T ==> t'.prnt[t'.son[x] + 1] == x)
    {
      assert t'.son[x] == t.son[Swapped(c, l, x)];
    }
  }

  lemma SwapSonsOfParents(t: Tree, c: nat, l: nat)
    requires Linked(t) && c < l < R && Shaped(SwapSons(t, c, l)) && SonsOk(SwapSons(t, c, l).son)
    requires t.son[l] < T ==> t.son[l] + 1 < c
    ensures SonsOfParents(SwapSons(t, c, l).prnt, SwapSons(t, c, l).son)
  {
    hide SwapSons, ParentsOfSons, SonsOk;
    var t' := SwapSons(t, c, l);
    SwapRenames(t, c, l);
    forall y: nat | y < R
      ensures y < t'.prnt[y] <= R && t'.son[t'.prnt[y]] == y - y % 2
    {
      HangsBelow(t, y);
      assert t'.prnt[y] == Swapped(c, l, t.prnt[y]);
    }
  }

  lemma HangsBelow(t: Tree, y: nat)
    requires Linked(t) && y < R
    ensures y < t.prnt[y] <= R && t.son[t.prnt[y]] == y - y % 2
  {
    hide ParentsOfSons, SonsOk;
  }

  lemma SwapSonsOk(t: Tree, c: nat, l: nat)
    requires Linked(t) && c < l < R
    requires t.son[l] < T ==> t.son[l] + 1 < c
    ensures Shaped(SwapSons(t, c, l)) && SonsOk(SwapSons(t, c, l).son)
  {
    hide ParentsOfSons, SonsOfParents;
  }

  lemma PlaceFreq(t: Tree, c: nat)
    requires Shaped(t) && SonsOk(t.son) && Ordered(t) && c < T && t.freq[R] < MAX_FREQ
    ensures t.freq[c] + 1 <= t.freq[T]
    ensures var l := Place(t, c).1; t.freq[l] == t.freq[c] && Place(t, c).0.freq == t.freq[l := t.freq[c] + 1]
    ensures Ordered(Place(t, c).0)
  {
    assert t.freq[c] <= t.freq[R];
    var (t', l) := Place(t, c);
    assert t.freq[c] <= t.freq[l];
    assert t'.freq == t.freq[l := t.freq[c] + 1];
    forall x: nat, y: nat | x <= y < T
      ensures t'.freq[x] <= t'.freq[y]
    {
      assert t.freq[x] <= t.freq[y];
      if x == l && y > l {
        assert t.freq[l + 1] <= t.freq[y];
      }
    }
  }

  lemma RootSons(t: Tree)
    requires Linked(t)
    ensures t.son[R] == R - 2
  {
    assert t.prnt[R - 1] == R;
  }

  lemma HeavierIsHigher(t: Tree, x: nat, y: nat)
    requires Shaped(t) && Ordered(t) && x < T && y < T && t.freq[y] < t.freq[x]
    ensures y < x
  {
  }

  /** An ancestor outweighs `c`, and the sons of the node `c` trades places with are lighter than `c`. */
  lemma PlaceTarget(t: Tree, c: nat)
    requires Pending(t, c)
    ensures t.freq[c] + 1 <= t.freq[T]
    ensures var l := Place(t, c).1; l < R || l == c
    ensures var l := Place(t, c).1; l != c && t.son[l] < T ==> t.son[l] + 1 < c
  {
    PlaceFreq(t, c);
    RootSons(t);
    var l := Place(t, c).1;
    if c < R {
      assert t.freq[R] == t.freq[R - 2] + t.freq[R - 1];
      assert t.freq[c] <= t.freq[R - 1];
      assert 1 <= t.freq[R - 2];
    }
    if l != c && t.son[l] < T {
      var j := t.son[l];
      assert t.freq[l] == t.freq[j] + t.freq[j + 1];
      assert 1 <= t.freq[j];
      HeavierIsHigher(t, c, j + 1);
    }
  }

  lemma PlaceLinked(t: Tree, c: nat)
    requires Pending(t, c)
    ensures t.freq[c] + 1 <= t.freq[T]
    ensures Linked(Place(t, c).0)
  {
    PlaceTarget(t, c);
    var (t', l) := Place(t, c);
    if l != c {
      SwapLinked(t, c, l);
    }
  }

  /** The parent of the node that receives the new weight lies above it, so it keeps its sons. */
  lemma PlaceParent(t: Tree, c: nat)
    requires Pending(t, c)
    ensures t.freq[c] + 1 <= t.freq[T]
    ensures var (t', l) := Place(t, c); l < R ==> l < t.prnt[l] <= R && t'.prnt[l] == t.prnt[l]
    ensures Place(t, c).0.prnt[R] == 0
  {
    PlaceTarget(t, c);
    var (t', l) := Place(t, c);
    if l != c {
      SwapRenames(t, c, l);
    }
  }

  lemma SonsWeightAfter(t: Tree, l: nat, k: nat, w: nat)
    requires Linked(t) && l < T && w < T && !IsLeaf(t, w) && k == t.freq[l] + 1
    ensures var i := t.son[w]; var f := t.freq[l := k];
      f[i] + f[i + 1] == SonsWeight(t, w) + if l < R && t.prnt[l] == w then 1 else 0
  {
    if l < R {
      UnderIffParent(t, w, l);
    }
  }

  lemma PlaceRootWeight(t: Tree, c: nat)
    requires Pending(t, c)
    ensures t.freq[c] + 1 <= t.freq[T]
    ensures var (t', l) := Place(t, c);
      && t'.freq[R] == t.freq[R] + (if l == R then 1 else 0)
      && (l < R ==> t'.prnt[l] < T && !IsLeaf(t', t'.prnt[l]))
      && (l == R ==> !IsLeaf(t, c))
  {
    PlaceFreq(t, c);
    PlaceParent(t, c);
    PlaceTarget(t, c);
    PlaceLinked(t, c);
    RootSons(t);
  }

  lemma PlaceSonOf(t: Tree, c: nat, x: nat)
    requires Shaped(t) && SonsOk(t.son) && c < T && t.freq[c] + 1 <= t.freq[T] && x < T
    ensures var (t', l) := Place(t, c); t'.son[x] == t.son[Swapped(c, l, x)]
  {
  }

  /** After a pass only the new parent of the new weight may be one short. */
  lemma PlaceSums(t: Tree, c: nat, x: nat)
    requires Pending(t, c) && x < T
    ensures t.freq[c] + 1 <= t.freq[T] && Linked(Place(t, c).0)
    ensures var (t', l) := Place(t, c);
      !IsLeaf(t', x) ==> SonsWeight(t', x) == t'.freq[x] + if l < R && x == t'.prnt[l] then 1 else 0
  {
    hide SonsOk, ParentsOfSons, SonsOfParents, LeafFlags, LeafWeights, Sum, Ordered;
    PlaceFreq(t, c);
    PlaceParent(t, c);
    PlaceLinked(t, c);
    PlaceSonOf(t, c, x);
    var (t', l) := Place(t, c);
    var w := Swapped(c, l, x);
    if !IsLeaf(t', x) {
      SonsWeightAfter(t, l, t.freq[c] + 1, w);
    }
  }

  lemma FlagsAfter(t: Tree, c: nat)
    requires Shaped(t) && SonsOk(t.son) && c < T && t.freq[c] + 1 <= t.freq[T]
    ensures Sum(LeafFlags(Place(t, c).0.son), T) == Sum(LeafFlags(t.son), T)
  {
    var (t', l) := Place(t, c);
    var w := LeafFlags(t.son);
    if l != c {
      assert LeafFlags(t'.son) == w[l := w[c]][c := w[l]];
      SumUpdate(w, l, w[c], T);
      SumUpdate(w[l := w[c]], c, w[l], T);
    }
  }

  /** The leaves gain one if the pass started at a leaf, and nothing otherwise. */
  lemma WeightsAfter(t: Tree, c: nat)
    requires Shaped(t) && SonsOk(t.son) && Ordered(t) && c < T && t.freq[R] < MAX_FREQ
    ensures t.freq[c] + 1 <= t.freq[T]
    ensures var t' := Place(t, c).0;
      Sum(LeafWeights(t'.freq, t'.son), T) == Sum(LeafWeights(t.freq, t.son), T) + if IsLeaf(t, c) then 1 else 0
  {
    PlaceFreq(t, c);
    var (t', l) := Place(t, c);
    var w := LeafWeights(t.freq, t.son);
    var gain := if IsLeaf(t, c) then w[c] + 1 else 0;
    assert LeafWeights(t'.freq, t'.son) == w[c := w[l]][l := gain] by {
      forall x: nat | x < T
        ensures LeafWeights(t'.freq, t'.son)[x] == w[c := w[l]][l := gain][x]
      {
        PlaceSonOf(t, c, x);
      }
    }
    SumUpdate(w, c, w[l], T);
    SumUpdate(w[c := w[l]], l, gain, T);
  }

  /** One pass either finishes at the root or moves the pending weight strictly closer to it. */
  lemma PlaceKeeps(t: Tree, c: nat)
    requires Pending(t, c)
    ensures t.freq[c] + 1 <= t.freq[T]
    ensures var (t', l) := Place(t, c);
      if t'.prnt[l] == 0 then Valid(t') else l < t'.prnt[l] && Pending(t', t'.prnt[l])
  {
    hide SonsOk, ParentsOfSons, SonsOfParents, Ordered, Place, SwapSons, LastBelow, LeafFlags, LeafWeights, Sum;
    PlaceFreq(t, c);
    PlaceLinked(t, c);
    PlaceParent(t, c);
    FlagsAfter(t, c);
    WeightsAfter(t, c);
    PlaceTarget(t, c);
    var (t', l) := Place(t, c);
    PlaceRootWeight(t, c);
    forall x: nat | x < T && !IsLeaf(t', x)
      ensures SonsWeight(t', x) == t'.freq[x] + if l < R && x == t'.prnt[l] then 1 else 0
    {
      PlaceSums(t, c, x);
    }
  }

  lemma PlaceParentOf(t: Tree, c: nat, y: nat)
    requires Pending(t, c) && y != R && y < T + N_CHAR
    ensures t.freq[c] + 1 <= t.freq[T]
    ensures var (t', l) := Place(t, c); t'.prnt[y] == Swapped(c, l, t.prnt[y]) && t.prnt[y] < T
    ensures y >= T ==> (t.son[c] == y <==> t.prnt[y] == c)
  {
    hide LastBelow, LeafFlags, LeafWeights, Sum, IsLeaf, SonsWeight;
    PlaceTarget(t, c);
    var l := Place(t, c).1;
    if l != c {
      SwapParent(t, c, l, y);
    }
    UnderIffParent(t, c, y);
  }

  /** A pass that starts at a leaf adds one to that leaf's symbol; every other weight moves but stays. */
  lemma PlaceWeight(t: Tree, c: nat, s: symbol)
    requires Pending(t, c)
    ensures t.freq[c] + 1 <= t.freq[T] && Linked(Place(t, c).0)
    ensures Weight(Place(t, c).0, s) == Weight(t, s) + if t.son[c] == s + T then 1 else 0
  {
    hide Ordered, LastBelow, LeafFlags, LeafWeights, Sum, IsLeaf, SonsWeight, SonsOk, ParentsOfSons, SonsOfParents;
    PlaceFreq(t, c);
    PlaceLinked(t, c);
    PlaceParentOf(t, c, s + T);
    hide Place;
  }

  /** The loop of `update` from node `c` on. */
  function Bump(t: Tree, c: nat): (r: Tree)
    requires Pending(t, c)
    ensures Valid(r)
    decreases T - c
  {
    PlaceKeeps(t, c);
    var (t', l) := Place(t, c);
    var p := t'.prnt[l];
    if p == 0 then t' else Bump(t', p)
  }

  lemma {:induction false} BumpWeight(t: Tree, c: nat, s: symbol)
    requires Pending(t, c)
    ensures Weight(Bump(t, c), s) == Weight(t, s) + if t.son[c] == s + T then 1 else 0
    decreases T - c
  {
    PlaceKeeps(t, c);
    PlaceWeight(t, c, s);
    PlaceRootWeight(t, c);
    var (t', l) := Place(t, c);
    if t'.prnt[l] != 0 {
      BumpWeight(t', t'.prnt[l], s);
    }
  }
}
