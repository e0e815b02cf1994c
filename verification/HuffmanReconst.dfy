/** `_start` and `_reconst`: building the tree over a list of leaves by repeatedly joining the two lightest nodes. */
module HuffmanReconst {
  import opened Prelude
  import opened HuffmanTree

  /** The nodes built so far, in increasing order of frequency. */
  datatype Nodes = Nodes(freq: seq<nat>, son: seq<nat>)

  /** The leaves among the first `n` nodes, with their frequencies halved and rounded up. */
  function Collect(t: Tree, n: nat): Nodes
    requires Shaped(t) && n <= T
  {
    if n == 0 then Nodes([], []) else
      var r := Collect(t, n - 1);
      if t.son[n - 1] >= T then Nodes(r.freq + [(t.freq[n - 1] + 1) / 2], r.son + [t.son[n - 1]]) else r
  }

  /** Where a node of weight `f` goes among the first `k`: behind every node that is not heavier. */
  function Slot(freq: seq<nat>, f: nat, k: nat): (r: nat)
    requires 0 < k <= |freq| && freq[0] <= f
    ensures 0 < r <= k
    ensures freq[r - 1] <= f
    ensures forall x: nat | r <= x < k :: f < freq[x]
  {
    if f < freq[k - 1] then Slot(freq, f, k - 1) else k
  }

  predicate NodesOrdered(freq: seq<nat>) {
    && (forall x: nat | x < |freq| :: 1 <= freq[x])
    && (forall x: nat, y: nat | x <= y < |freq| :: freq[x] <= freq[y])
  }

  /** Entry `x` is a leaf or joins a pair `son`, `son + 1` with an even `son` below `i`. */
  predicate JoinedAt(n: Nodes, i: nat, x: nat)
    requires |n.freq| == |n.son| && x < |n.son|
  {
    var s := n.son[x];
    s < T + N_CHAR && (s < T ==> s % 2 == 0 && s < i && s + 1 < x && n.freq[x] == n.freq[s] + n.freq[s + 1])
  }

  predicate NodesJoined(n: Nodes, i: nat)
    requires |n.freq| == |n.son|
  {
    forall x: nat | x < |n.son| :: JoinedAt(n, i, x)
  }

  /** Every symbol and every even index below `i` occurs, and nothing occurs twice. */
  predicate SonsComplete(son: seq<nat>, i: nat) {
    && (forall x: nat, y: nat | x < y < |son| :: son[x] != son[y])
    && (forall v: nat | T <= v < T + N_CHAR :: v in son)
    && (forall v: nat | v < i && v % 2 == 0 :: v in son)
  }

  /** `Growing(n, i, w)`: the pairs below `i` are joined and the nodes from `i` on are roots of total weight `w`. */
  ghost predicate Growing(n: Nodes, i: nat, w: nat) {
    && N_CHAR <= |n.freq| == |n.son| <= T
    && i == 2 * (|n.freq| - N_CHAR) <= |n.freq|
    && NodesOrdered(n.freq)
    && NodesJoined(n, i)
    && SonsComplete(n.son, i)
    && Sum(LeafFlags(n.son), |n.son|) == N_CHAR
    && Sum(LeafWeights(n.freq, n.son), |n.son|) == w
    && Sum(n.freq, |n.freq|) - Sum(n.freq, i) == w
  }

  /** Join the nodes `i` and `i + 1` and put the new node in its place. */
  function Join(n: Nodes, i: nat): Nodes
    requires |n.freq| == |n.son| && i + 1 < |n.freq| && n.freq[0] <= n.freq[i]
  {
    var f := n.freq[i] + n.freq[i + 1];
    var k := Slot(n.freq, f, |n.freq|);
    Nodes(Splice(n.freq, k, f), Splice(n.son, k, i))
  }

  lemma SlotAbove(freq: seq<nat>, i: nat)
    requires NodesOrdered(freq) && i + 1 < |freq|
    ensures freq[0] <= freq[i]
    ensures i + 2 <= Slot(freq, freq[i] + freq[i + 1], |freq|)
  {
    var k := Slot(freq, freq[i] + freq[i + 1], |freq|);
    assert freq[i + 1] <= freq[i] + freq[i + 1];
  }

  lemma JoinOrdered(n: Nodes, i: nat)
    requires |n.freq| == |n.son| && i + 1 < |n.freq| && NodesOrdered(n.freq)
    ensures n.freq[0] <= n.freq[i] && NodesOrdered(Join(n, i).freq)
  {
    SlotAbove(n.freq, i);
  }

  lemma JoinJoinedAt(n: Nodes, i: nat, k: nat, x: nat)
    requires |n.freq| == |n.son| && i + 1 < k <= |n.freq| && i % 2 == 0 && i < T - 1
    requires NodesJoined(n, i) && x <= |n.freq|
    ensures JoinedAt(Nodes(Splice(n.freq, k, n.freq[i] + n.freq[i + 1]), Splice(n.son, k, i)), i + 2, x)
  {
    var x0 := if x <= k then x else x - 1;
    assert x != k ==> JoinedAt(n, i, x0);
  }

  lemma JoinJoined(n: Nodes, i: nat)
    requires |n.freq| == |n.son| && i + 1 < |n.freq| && i % 2 == 0 && i < T - 1
    requires NodesOrdered(n.freq) && NodesJoined(n, i)
    ensures n.freq[0] <= n.freq[i] && |Join(n, i).freq| == |Join(n, i).son| && NodesJoined(Join(n, i), i + 2)
  {
    SlotAbove(n.freq, i);
    var n', i' := Join(n, i), i + 2;
    hide NodesOrdered, Slot, Splice;
    forall x: nat | x < |n'.son|
      ensures JoinedAt(n', i', x)
    {
      JoinJoinedAt(n, i, Slot(n.freq, n.freq[i] + n.freq[i + 1], |n.freq|), x);
    }
  }

  lemma SpliceMembers(s: seq<nat>, k: nat, i: nat, v: nat)
    requires k <= |s| && (v in s || v == i)
    ensures v in Splice(s, k, i)
  {
    var s' := Splice(s, k, i);
    if v == i {
      assert s'[k] == v;
    } else {
      var x: nat :| x < |s| && s[x] == v;
      assert s'[if x < k then x else x + 1] == v;
    }
  }

  lemma SpliceDistinct(s: seq<nat>, k: nat, i: nat)
    requires k <= |s| && i !in s
    requires forall x: nat, y: nat | x < y < |s| :: s[x] != s[y]
    ensures var s' := Splice(s, k, i); forall x: nat, y: nat | x < y < |s'| :: s'[x] != s'[y]
  {
    var s' := Splice(s, k, i);
    hide Splice;
    forall x: nat, y: nat | x < y < |s'|
      ensures s'[x] != s'[y]
    {
      var x0, y0 := if x <= k then x else x - 1, if y <= k then y else y - 1;
      assert x != k ==> s'[x] == s[x0];
      assert y != k ==> s'[y] == s[y0];
    }
  }

  lemma NotYetJoined(n: Nodes, i: nat)
    requires |n.freq| == |n.son| && i < T && NodesJoined(n, i)
    ensures i !in n.son
  {
    assert forall x: nat | x < |n.son| :: JoinedAt(n, i, x) && n.son[x] != i;
  }

  lemma JoinComplete(n: Nodes, i: nat)
    requires |n.freq| == |n.son| && i + 1 < |n.freq| && i % 2 == 0 && i < T - 1
    requires NodesOrdered(n.freq) && NodesJoined(n, i) && SonsComplete(n.son, i)
    ensures n.freq[0] <= n.freq[i] && SonsComplete(Join(n, i).son, i + 2)
  {
    hide NodesOrdered, NodesJoined, Slot, Splice;
    SlotAbove(n.freq, i);
    var k := Slot(n.freq, n.freq[i] + n.freq[i + 1], |n.freq|);
    NotYetJoined(n, i);
    SpliceDistinct(n.son, k, i);
    forall v: nat | v in n.son || v == i
      ensures v in Join(n, i).son
    {
      SpliceMembers(n.son, k, i, v);
    }
    assert forall v: nat :: v < i + 2 && v % 2 == 0 ==> v < i || v == i;
  }

  lemma LeafSplice(freq: seq<nat>, son: seq<nat>, k: nat, f: nat, i: nat)
    requires |freq| == |son| && k <= |son| && i < T
    ensures var freq', son' := Splice(freq, k, f), Splice(son, k, i);
      && Sum(LeafFlags(son'), |son'|) == Sum(LeafFlags(son), |son|)
      && Sum(LeafWeights(freq', son'), |son'|) == Sum(LeafWeights(freq, son), |son|)
  {
    var freq', son' := Splice(freq, k, f), Splice(son, k, i);
    hide Splice, Sum;
    SumSplice(LeafFlags(son), k, 0, |son|);
    SumSplice(LeafWeights(freq, son), k, 0, |son|);
    assert LeafFlags(son') == Splice(LeafFlags(son), k, 0);
    assert LeafWeights(freq', son') == Splice(LeafWeights(freq, son), k, 0);
  }

  lemma JoinLeafSums(n: Nodes, i: nat)
    requires |n.freq| == |n.son| && i + 1 < |n.freq| && i < T && NodesOrdered(n.freq)
    ensures n.freq[0] <= n.freq[i]
    ensures var n' := Join(n, i);
      && |n'.freq| == |n'.son|
      && Sum(LeafFlags(n'.son), |n'.son|) == Sum(LeafFlags(n.son), |n.son|)
      && Sum(LeafWeights(n'.freq, n'.son), |n'.son|) == Sum(LeafWeights(n.freq, n.son), |n.son|)
  {
    SlotAbove(n.freq, i);
    var k := Slot(n.freq, n.freq[i] + n.freq[i + 1], |n.freq|);
    var n' := Join(n, i);
    LeafSplice(n.freq, n.son, k, n.freq[i] + n.freq[i + 1], i);
  }

  /** The total weight of the roots: two leave, their sum arrives. */
  lemma JoinRootSum(freq: seq<nat>, i: nat, k: nat)
    requires i + 1 < k <= |freq|
    ensures var freq' := Splice(freq, k, freq[i] + freq[i + 1]);
      Sum(freq', |freq'|) - Sum(freq', i + 2) == Sum(freq, |freq|) - Sum(freq, i)
  {
    var f := freq[i] + freq[i + 1];
    SumSplice(freq, k, f, |freq|);
    SumSame(Splice(freq, k, f), freq, i + 2);
    assert Sum(freq, i + 2) == Sum(freq, i + 1) + freq[i + 1];
  }

  /** Join until a single root is left. */
  function Grow(n: Nodes, i: nat, ghost w: nat): (r: Nodes)
    requires Growing(n, i, w)
    ensures Growing(r, R, w)
    decreases T - |n.freq|
  {
    if |n.freq| == T then n else
      JoinKeeps(n, i, w);
      Grow(Join(n, i), i + 2, w)
  }

  lemma JoinKeeps(n: Nodes, i: nat, w: nat)
    requires Growing(n, i, w) && |n.freq| < T
    ensures i + 1 < |n.freq| && n.freq[0] <= n.freq[i]
    ensures Growing(Join(n, i), i + 2, w)
  {
    hide NodesOrdered, NodesJoined, SonsComplete, LeafFlags, LeafWeights, Sum, Splice;
    SlotAbove(n.freq, i);
    JoinOrdered(n, i);
    JoinJoined(n, i);
    JoinComplete(n, i);
    JoinLeafSums(n, i);
    JoinRootSum(n.freq, i, Slot(n.freq, n.freq[i] + n.freq[i + 1], |n.freq|));
    hide NodesOrdered, NodesJoined, SonsComplete, LeafFlags, LeafWeights, Sum;
  }

  /** The leaves among the nodes carry the weights `w` of their symbols. */
  predicate Carries(n: Nodes, w: seq<nat>)
    requires |n.freq| == |n.son| && |w| == N_CHAR
  {
    forall x: nat | x < |n.son| && T <= n.son[x] < T + N_CHAR :: n.freq[x] == w[n.son[x] - T]
  }

  lemma {:induction false} GrowCarries(n: Nodes, i: nat, w: nat, weights: seq<nat>)
    requires Growing(n, i, w) && |weights| == N_CHAR && Carries(n, weights)
    ensures Carries(Grow(n, i, w), weights)
    decreases T - |n.freq|
  {
    hide NodesOrdered, NodesJoined, SonsComplete, LeafFlags, LeafWeights, Sum, Join, Carries;
    if |n.freq| < T {
      JoinKeeps(n, i, w);
      JoinCarries(n, i, weights);
      GrowCarries(Join(n, i), i + 2, w, weights);
    }
  }

  lemma JoinCarries(n: Nodes, i: nat, w: seq<nat>)
    requires |n.freq| == |n.son| && |w| == N_CHAR && Carries(n, w)
    requires i + 1 < |n.freq| && n.freq[0] <= n.freq[i] && i < T
    ensures |Join(n, i).freq| == |Join(n, i).son| && Carries(Join(n, i), w)
  {
    hide Slot, Splice;
    var k := Slot(n.freq, n.freq[i] + n.freq[i + 1], |n.freq|);
    var n' := Join(n, i);
    forall x: nat | x < |n'.son| && T <= n'.son[x] < T + N_CHAR
      ensures n'.freq[x] == w[n'.son[x] - T]
    {
      var x0 := if x <= k then x else x - 1;
      assert n'.son[x] == n.son[x0];
    }
  }

  // ---------------------------------------------------------------- parents

  /** Point every son of the first `n` nodes back at its parent. */
  function Relink(prnt: seq<nat>, son: seq<nat>, n: nat): (r: seq<nat>)
    requires SonsOk(son) && |prnt| == T + N_CHAR && n <= T
    ensures |r| == |prnt|
  {
    if n == 0 then prnt else
      var p := Relink(prnt, son, n - 1);
      var k := son[n - 1];
      if k >= T then p[k := n - 1] else p[k := n - 1][k + 1 := n - 1]
  }

  lemma {:induction false} RelinkAt(prnt: seq<nat>, son: seq<nat>, n: nat, x: nat, y: nat)
    requires SonsOk(son) && |prnt| == T + N_CHAR && x < n <= T
    requires forall a: nat, b: nat | a < b < T :: son[a] != son[b]
    requires y == son[x] || (son[x] < T && y == son[x] + 1)
    ensures y < T + N_CHAR && Relink(prnt, son, n)[y] == x
  {
    if x < n - 1 {
      assert son[x] != son[n - 1];
      RelinkAt(prnt, son, n - 1, x, y);
    }
  }

  lemma {:induction false} RelinkRoot(prnt: seq<nat>, son: seq<nat>, n: nat)
    requires SonsOk(son) && |prnt| == T + N_CHAR && n <= T
    ensures Relink(prnt, son, n)[R] == prnt[R]
  {
    if n > 0 {
      RelinkRoot(prnt, son, n - 1);
      assert son[n - 1] < T ==> son[n - 1] + 1 < n - 1;
    }
  }

  /** The finished tables. */
  function Finish(n: Nodes, prnt: seq<nat>): Tree
    requires SonsOk(n.son) && |prnt| == T + N_CHAR
  {
    Tree(n.freq + [SENTINEL], Relink(prnt, n.son, T), n.son)
  }

  lemma GrownSons(n: Nodes, w: nat)
    requires Growing(n, R, w)
    ensures SonsOk(n.son)
  {
    hide NodesOrdered, SonsComplete, LeafFlags, LeafWeights, Sum;
    forall x: nat | x < T
      ensures n.son[x] < T + N_CHAR && (n.son[x] < T ==> n.son[x] % 2 == 0 && n.son[x] + 1 < x)
    {
      assert JoinedAt(n, R, x);
    }
  }

  lemma RelinkUndoesSon(prnt: seq<nat>, son: seq<nat>)
    requires SonsOk(son) && SonsComplete(son, R) && |son| == T && |prnt| == T + N_CHAR
    ensures ParentsOfSons(Relink(prnt, son, T), son)
  {
    var p := Relink(prnt, son, T);
    hide Relink;
    forall x: nat | x < T
      ensures p[son[x]] == x && (son[x] < T ==> p[son[x] + 1] == x)
    {
      RelinkAt(prnt, son, T, x, son[x]);
      if son[x] < T {
        RelinkAt(prnt, son, T, x, son[x] + 1);
      }
    }
  }

  lemma SonUndoesRelink(prnt: seq<nat>, son: seq<nat>)
    requires SonsOk(son) && SonsComplete(son, R) && |son| == T && |prnt| == T + N_CHAR && prnt[R] == 0
    ensures SonsOfParents(Relink(prnt, son, T), son)
  {
    RelinkRoot(prnt, son, T);
    var p := Relink(prnt, son, T);
    hide Relink;
    forall y: nat | y < R
      ensures y < p[y] <= R && son[p[y]] == y - y % 2
    {
      FindParent(prnt, son, y, y - y % 2);
    }
    forall y: nat | T <= y < T + N_CHAR
      ensures p[y] <= R && son[p[y]] == y
    {
      FindParent(prnt, son, y, y);
    }
  }

  lemma FinishLinked(n: Nodes, prnt: seq<nat>, w: nat)
    requires Growing(n, R, w) && |prnt| == T + N_CHAR && prnt[R] == 0
    ensures SonsOk(n.son) && Linked(Finish(n, prnt))
  {
    hide NodesOrdered, NodesJoined, SonsComplete, LeafFlags, LeafWeights, Sum, Relink, SonsOk, ParentsOfSons,
      SonsOfParents;
    GrownSons(n, w);
    RelinkUndoesSon(prnt, n.son);
    SonUndoesRelink(prnt, n.son);
  }

  lemma FindParent(prnt: seq<nat>, son: seq<nat>, y: nat, i: nat)
    requires SonsOk(son) && |prnt| == T + N_CHAR
    requires forall a: nat, b: nat | a < b < T :: son[a] != son[b]
    requires i in son && y < T + N_CHAR && (y == i || (i < T && y == i + 1))
    ensures var p := Relink(prnt, son, T)[y]; p < T && son[p] == i
  {
    var x: nat :| x < T && son[x] == i;
    RelinkAt(prnt, son, T, x, y);
  }

  /** Grown nodes become a tree with the full invariant. */
  lemma FinishValid(n: Nodes, prnt: seq<nat>, w: nat)
    requires Growing(n, R, w) && |prnt| == T + N_CHAR && prnt[R] == 0 && w <= MAX_FREQ
    ensures SonsOk(n.son) && Valid(Finish(n, prnt)) && Finish(n, prnt).freq[R] == w
  {
    hide SonsOk, ParentsOfSons, SonsOfParents, SonsComplete, LeafFlags, LeafWeights, NodesJoined, Sum, Relink;
    FinishLinked(n, prnt, w);
    var t := Finish(n, prnt);
    FinishSums(n, t.freq);
    forall x: nat | x < T && !IsLeaf(t, x)
      ensures t.freq[x] == SonsWeight(t, x)
    {
      GrownJoin(n, w, x);
    }
  }

  lemma FinishSums(n: Nodes, freq: seq<nat>)
    requires |n.freq| == |n.son| == T && freq == n.freq + [SENTINEL]
    ensures Sum(LeafWeights(freq, n.son), T) == Sum(LeafWeights(n.freq, n.son), T)
    ensures Sum(n.freq, T) - Sum(n.freq, R) == freq[R]
  {
    SumSame(LeafWeights(freq, n.son), LeafWeights(n.freq, n.son), T);
  }

  lemma GrownJoin(n: Nodes, w: nat, x: nat)
    requires Growing(n, R, w) && x < T && n.son[x] < T
    ensures n.son[x] + 1 < x && n.freq[x] == n.freq[n.son[x]] + n.freq[n.son[x] + 1]
  {
    hide NodesOrdered, SonsComplete, LeafFlags, LeafWeights, Sum;
    assert JoinedAt(n, R, x);
  }

  lemma FinishWeight(n: Nodes, prnt: seq<nat>, w: nat, weights: seq<nat>, c: symbol)
    requires Growing(n, R, w) && |prnt| == T + N_CHAR && prnt[R] == 0
    requires |weights| == N_CHAR && Carries(n, weights)
    ensures SonsOk(n.son) && Linked(Finish(n, prnt)) && Weight(Finish(n, prnt), c) == weights[c]
  {
    hide Growing, Relink, ParentsOfSons, SonsOk;
    FinishLinked(n, prnt, w);
    var t := Finish(n, prnt);
    assert t.son[t.prnt[c + T]] == c + T;
  }

  // ---------------------------------------------------------------- start

  function FirstLeaves(): Nodes {
    Nodes(seq(N_CHAR, _ => 1), seq(N_CHAR, x requires 0 <= x => x + T))
  }

  lemma {:induction false} SumOnes(s: seq<int>, n: nat)
    requires n <= |s| && forall x: nat | x < n :: s[x] == 1
    ensures Sum(s, n) == n
  {
    if n > 0 {
      SumOnes(s, n - 1);
    }
  }

  lemma LeavesGrow(n: Nodes, w: nat)
    requires |n.freq| == |n.son| == N_CHAR && NodesOrdered(n.freq) && SonsComplete(n.son, 0)
    requires forall x: nat | x < N_CHAR :: T <= n.son[x] < T + N_CHAR
    requires w == Sum(n.freq, N_CHAR)
    ensures Growing(n, 0, w)
  {
    hide NodesOrdered, SonsComplete;
    SumOnes(LeafFlags(n.son), N_CHAR);
    assert LeafWeights(n.freq, n.son) == n.freq;
    assert forall x: nat | x < N_CHAR :: JoinedAt(n, 0, x);
  }

  lemma FirstLeavesGrow()
    ensures Growing(FirstLeaves(), 0, N_CHAR)
  {
    var n := FirstLeaves();
    SumOnes(n.freq, N_CHAR);
    forall v: nat | T <= v < T + N_CHAR
      ensures v in n.son
    {
      assert n.son[v - T] == v;
    }
    LeavesGrow(n, N_CHAR);
  }

  function StartNodes(): Nodes {
    FirstLeavesGrow();
    Grow(FirstLeaves(), 0, N_CHAR)
  }

  /** Fresh tables are filled with zeros. */
  function Zeros(n: nat): (r: seq<nat>)
    ensures |r| == n && forall x: nat | x < n :: r[x] == 0
  {
    seq(n, _ => 0)
  }

  lemma StartFacts()
    ensures Growing(StartNodes(), R, N_CHAR)
    ensures SonsOk(StartNodes().son) && Valid(Finish(StartNodes(), Zeros(T + N_CHAR)))
    ensures Finish(StartNodes(), Zeros(T + N_CHAR)).freq[R] == N_CHAR
    ensures |StartNodes().son| == T
  {
    hide FirstLeaves, Finish, Valid, SonsOk;
    FirstLeavesGrow();
    FinishValid(StartNodes(), Zeros(T + N_CHAR), N_CHAR);
  }

  /** The tree every codec object starts from. */
  function StartTree(): Tree {
    StartFacts();
    Finish(StartNodes(), Zeros(T + N_CHAR))
  }

  /** `_start` establishes the whole invariant, and counts each of the 314 symbols once. */
  lemma StartValid(c: symbol)
    ensures Valid(StartTree()) && StartTree().freq[R] == N_CHAR
    ensures Weight(StartTree(), c) == 1
  {
    hide Growing, Finish, Valid, SonsOk;
    StartFacts();
    FirstLeavesGrow();
    var ones := seq(N_CHAR, _ => 1);
    GrowCarries(FirstLeaves(), 0, N_CHAR, ones);
    FinishWeight(StartNodes(), Zeros(T + N_CHAR), N_CHAR, ones, c);
  }

  // ---------------------------------------------------------------- reconst

  lemma {:induction false} CollectShape(t: Tree, n: nat)
    requires Shaped(t) && n <= T
    ensures |Collect(t, n).freq| == |Collect(t, n).son| == Sum(LeafFlags(t.son), n)
  {
    if n > 0 {
      CollectShape(t, n - 1);
    }
  }

  /** The collected leaves stay in order, each with its own halved weight. */
  lemma {:induction false} CollectLeaves(t: Tree, n: nat)
    requires Linked(t) && Ordered(t) && n <= T
    ensures var r := Collect(t, n);
      && |r.freq| == |r.son|
      && NodesOrdered(r.freq)
      && (n > 0 ==> forall x: nat | x < |r.freq| :: r.freq[x] <= (t.freq[n - 1] + 1) / 2)
  {
    hide SonsOk, ParentsOfSons, SonsOfParents, LeafFlags;
    if n > 0 {
      CollectLeaves(t, n - 1);
      assert n > 1 ==> t.freq[n - 2] <= t.freq[n - 1];
    }
  }

  lemma {:induction false} CollectSons(t: Tree, n: nat)
    requires Linked(t) && n <= T
    ensures var r := Collect(t, n);
      && |r.freq| == |r.son|
      && (forall x: nat | x < |r.son| :: T <= r.son[x] < T + N_CHAR && t.prnt[r.son[x]] < n)
      && (forall x: nat, y: nat | x < y < |r.son| :: r.son[x] != r.son[y])
      && (forall x: nat | x < |r.son| :: r.freq[x] == (t.freq[t.prnt[r.son[x]]] + 1) / 2)
  {
    hide SonsOk, SonsOfParents, Relink;
    if n > 0 {
      CollectSons(t, n - 1);
      SonAt(t, n - 1);
    }
  }

  lemma SonAt(t: Tree, x: nat)
    requires Linked(t) && x < T
    ensures t.son[x] < T + N_CHAR && t.prnt[t.son[x]] == x
  {
    hide SonsOfParents;
  }

  lemma {:induction false} CollectAll(t: Tree, n: nat, v: nat)
    requires Linked(t) && n <= T && T <= v < T + N_CHAR && t.prnt[v] < n
    ensures v in Collect(t, n).son
  {
    if t.prnt[v] < n - 1 {
      CollectAll(t, n - 1, v);
    } else {
      assert t.son[t.prnt[v]] == v;
    }
  }

  lemma {:induction false} CollectSum(t: Tree, n: nat)
    requires Shaped(t) && n <= T
    ensures var f := Collect(t, n).freq; 2 * Sum(f, |f|) <= Sum(LeafWeights(t.freq, t.son), n) + |f|
  {
    if n > 0 {
      CollectSum(t, n - 1);
      var f, f' := Collect(t, n - 1).freq, Collect(t, n).freq;
      SumSame(f, f', |f|);
    }
  }

  lemma {:induction false} SumNat(s: seq<nat>, n: nat)
    requires n <= |s|
    ensures Sum(s, n) >= 0
  {
    if n > 0 {
      SumNat(s, n - 1);
    }
  }

  function LeafTotal(t: Tree): nat
    requires Shaped(t)
  {
    SumNat(Collect(t, T).freq, |Collect(t, T).freq|);
    Sum(Collect(t, T).freq, |Collect(t, T).freq|)
  }

  lemma CollectGrows(t: Tree)
    requires Valid(t)
    ensures Growing(Collect(t, T), 0, LeafTotal(t)) && 2 * LeafTotal(t) <= t.freq[R] + N_CHAR
  {
    var n := Collect(t, T);
    CollectShape(t, T);
    CollectSum(t, T);
    CollectLeaves(t, T);
    CollectSons(t, T);
    forall v: nat | T <= v < T + N_CHAR
      ensures v in n.son
    {
      CollectAll(t, T, v);
    }
    hide Valid, Collect, NodesOrdered;
    LeavesGrow(n, LeafTotal(t));
  }

  function Halved(t: Tree): (w: seq<nat>)
    requires Linked(t)
    ensures |w| == N_CHAR
  {
    seq(N_CHAR, c requires 0 <= c < N_CHAR => (Weight(t, c) + 1) / 2)
  }

  function ReconstNodes(t: Tree): Nodes
    requires Valid(t)
  {
    CollectGrows(t);
    Grow(Collect(t, T), 0, LeafTotal(t))
  }

  lemma ReconstFacts(t: Tree)
    requires Valid(t)
    ensures SonsOk(ReconstNodes(t).son) && Growing(ReconstNodes(t), R, LeafTotal(t))
    ensures Carries(ReconstNodes(t), Halved(t))
  {
    CollectGrows(t);
    CollectSons(t, T);
    assert Carries(Collect(t, T), Halved(t));
    hide Valid, Collect, Growing, Carries, Halved;
    GrowCarries(Collect(t, T), 0, LeafTotal(t), Halved(t));
    GrownSons(ReconstNodes(t), LeafTotal(t));
  }

  /** `_reconst`: halve the leaves and build a new tree over them. */
  function Reconst(t: Tree): Tree
    requires Valid(t)
  {
    ReconstFacts(t);
    Finish(ReconstNodes(t), t.prnt)
  }

  /** Rebuilding keeps the invariant, makes room below MAX_FREQ and halves every symbol's weight, rounding up. */
  lemma ReconstValid(t: Tree, c: symbol)
    requires Valid(t)
    ensures Valid(Reconst(t)) && 2 * Reconst(t).freq[R] <= t.freq[R] + N_CHAR
    ensures Weight(Reconst(t), c) == (Weight(t, c) + 1) / 2
  {
    CollectGrows(t);
    ReconstFacts(t);
    hide Growing, Carries, Halved, Collect;
    FinishValid(ReconstNodes(t), t.prnt, LeafTotal(t));
    FinishWeight(ReconstNodes(t), t.prnt, LeafTotal(t), Halved(t), c);
  }
}
