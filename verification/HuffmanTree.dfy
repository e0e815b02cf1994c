/** The adaptive Huffman tree of lzhuf.py as a value: the three tables, the invariant that makes them a tree with the
    sibling property, and one step of `update`. */
module HuffmanTree {
  import opened Prelude

  const N_CHAR: nat := 314     // 256 - THRESHOLD + F
  const T: nat := 627          // 2 * N_CHAR - 1
  const R: nat := 626          // T - 1
  const MAX_FREQ: nat := 0x8000
  const SENTINEL: nat := 0xFFFF

  type symbol = c: int | 0 <= c < N_CHAR

  datatype Tree = Tree(freq: seq<nat>, prnt: seq<nat>, son: seq<nat>)

  /** The sizes the three tables are allocated with. */
  predicate Shaped(t: Tree) {
    |t.freq| == T + 1 && |t.prnt| == T + N_CHAR && |t.son| == T
  }

  predicate IsLeaf(t: Tree, x: nat)
    requires Shaped(t) && x < T
  {
    t.son[x] >= T
  }

  /** Sons come in adjacent pairs that start at an even index strictly below their parent. */
  predicate SonsOk(son: seq<nat>) {
    && |son| == T
    && forall x: nat | x < T :: son[x] < T + N_CHAR && (son[x] < T ==> son[x] % 2 == 0 && son[x] + 1 < x)
  }

  /** `prnt` undoes `son`. */
  predicate ParentsOfSons(prnt: seq<nat>, son: seq<nat>)
    requires SonsOk(son) && |prnt| == T + N_CHAR
  {
    forall x: nat | x < T :: prnt[son[x]] == x && (son[x] < T ==> prnt[son[x] + 1] == x)
  }

  /** `son` undoes `prnt`: every node but the root, and every symbol, hangs below exactly one node. */
  predicate SonsOfParents(prnt: seq<nat>, son: seq<nat>)
    requires SonsOk(son) && |prnt| == T + N_CHAR
  {
    && prnt[R] == 0
    && (forall y: nat | y < R :: y < prnt[y] <= R && son[prnt[y]] == y - y % 2)
    && (forall y: nat | T <= y < T + N_CHAR :: prnt[y] <= R && son[prnt[y]] == y)
  }

  predicate Linked(t: Tree) {
    Shaped(t) && SonsOk(t.son) && ParentsOfSons(t.prnt, t.son) && SonsOfParents(t.prnt, t.son)
  }

  /** The sibling property's order: positive frequencies that never decrease from node 0 to the root. */
  predicate Ordered(t: Tree)
    requires Shaped(t)
  {
    && t.freq[T] == SENTINEL
    && (forall x: nat | x < T :: 1 <= t.freq[x])
    && (forall x: nat, y: nat | x <= y < T :: t.freq[x] <= t.freq[y])
  }

  /** The weight of the two sons of an internal node. */
  function SonsWeight(t: Tree, x: nat): nat
    requires Shaped(t) && SonsOk(t.son) && x < T && !IsLeaf(t, x)
  {
    t.freq[t.son[x]] + t.freq[t.son[x] + 1]
  }

  function LeafWeights(freq: seq<nat>, son: seq<nat>): (s: seq<int>)
    requires |freq| >= |son|
    ensures |s| == |son|
  {
    seq(|son|, x requires 0 <= x < |son| => if son[x] >= T then freq[x] else 0)
  }

  function LeafFlags(son: seq<nat>): (s: seq<int>)
    ensures |s| == |son|
  {
    seq(|son|, x requires 0 <= x < |son| => if son[x] >= T then 1 else 0)
  }

  /** Everything `update` relies on between two calls. */
  ghost predicate Valid(t: Tree) {
    && Linked(t)
    && Ordered(t)
    && (forall x: nat | x < T && !IsLeaf(t, x) :: t.freq[x] == SonsWeight(t, x))
    && Sum(LeafFlags(t.son), T) == N_CHAR
    && Sum(LeafWeights(t.freq, t.son), T) == t.freq[R]
    && t.freq[R] <= MAX_FREQ
  }

  /** The state at the head of the loop in `update`: node `c` is still one short of what hangs below it. */
  ghost predicate Pending(t: Tree, c: nat) {
    && Linked(t)
    && Ordered(t)
    && c < T
    && (forall x: nat | x < T && !IsLeaf(t, x) :: SonsWeight(t, x) == t.freq[x] + if x == c then 1 else 0)
    && Sum(LeafFlags(t.son), T) == N_CHAR
    && Sum(LeafWeights(t.freq, t.son), T) == t.freq[R] + (if IsLeaf(t, c) then 0 else 1)
    && t.freq[R] < MAX_FREQ
  }

  /** What one symbol has been counted so far: the frequency of the leaf that carries it. */
  function Weight(t: Tree, c: symbol): nat
    requires Linked(t)
  {
    t.freq[t.prnt[c + T]]
  }
}
