/** The starting tree in numbers: which node belongs to which symbol, and the code every symbol has before anything has
    been counted. */
module StartCode {
  import opened Prelude
  import opened BitIO
  import opened HuffmanTree
  import opened HuffmanReconst
  import opened HuffmanCode
  import opened Huffman

  /** Leaves first, symbol by symbol, then the pairs. */
  predicate PairedUp(son: seq<nat>) {
    && (forall x: nat | x < |son| && x < 314 :: son[x] == x + 627)
    && (forall x: nat | 314 <= x < |son| :: son[x] == 2 * (x - 314))
  }

  lemma {:induction false} PairsGrow(n: Nodes, i: nat, w: nat)
    requires Growing(n, i, w) && Appends(n.freq, i) && PairedUp(n.son)
    ensures PairedUp(Grow(n, i, w).son)
    decreases T - |n.freq|
  {
    hide NodesOrdered, NodesJoined, SonsComplete, LeafFlags, LeafWeights, Sum, Join;
    if |n.freq| < T {
      JoinKeeps(n, i, w);
      JoinAtEnd(n, i, w);
      PairsGrow(Join(n, i), i + 2, w);
    }
  }

  /** The table of sons that `_start` leaves. */
  lemma StartSons()
    ensures |StartTree().son| == 627 && PairedUp(StartTree().son)
  {
    hide Growing, FirstLeaves, Grow, PairedUp, Finish;
    FirstLeavesGrow();
    StartFacts();
    LeavesPaired();
    PairsGrow(FirstLeaves(), 0, N_CHAR);
    FinishSons(StartNodes(), Zeros(T + N_CHAR));
  }

  lemma LeavesPaired()
    ensures PairedUp(FirstLeaves().son) && Appends(FirstLeaves().freq, 0)
  {
  }

  lemma FinishSons(n: Nodes, prnt: seq<nat>)
    requires SonsOk(n.son) && |prnt| == T + N_CHAR
    ensures Finish(n, prnt).son == n.son
  {
    hide Relink;
  }

  /** The parents: symbol `c` is at node `c`, and two neighbours share a parent. */
  lemma StartParents(y: nat)
    requires y < 627 + 314
    ensures Linked(StartTree()) && |StartTree().prnt| == 941
    ensures StartTree().prnt[y] == if y < 626 then 314 + y / 2 else if y == 626 then 0 else y - 627
  {
    hide StartTree, Ordered, LeafFlags, LeafWeights, Sum, SonsOk, ParentsOfSons, SonsOfParents, PairedUp;
    StartValid(0);
    StartSons();
    var x := if y < 626 then 314 + y / 2 else if y == 626 then 0 else y - 627;
    if y != 626 {
      SonOf(StartTree().son, x);
      ParentTold(StartTree(), x);
    } else {
      RootTold(StartTree());
    }
  }

  lemma SonOf(son: seq<nat>, x: nat)
    requires PairedUp(son) && |son| == 627 && x < 627
    ensures son[x] == if x < 314 then x + 627 else 2 * (x - 314)
  {
  }

  lemma ParentTold(t: Tree, x: nat)
    requires Linked(t) && x < 627
    ensures t.son[x] < 941 && t.prnt[t.son[x]] == x && (t.son[x] < 627 ==> t.prnt[t.son[x] + 1] == x)
  {
    hide SonsOfParents;
  }

  lemma RootTold(t: Tree)
    requires Linked(t)
    ensures t.prnt[626] == 0
  {
    hide ParentsOfSons;
  }

  /** Bit `i` of the `k` bits behind the leading one of `m`, flipped. */
  predicate FlippedDigits(code: bits, m: nat, k: nat) {
    |code| == k && forall i: nat | i < k :: code[i] == 1 - m / Pow2(k - 1 - i) % 2
  }

  lemma FlippedNext(code: bits, m: nat, k: nat)
    requires FlippedDigits(code, m / 2, k)
    ensures FlippedDigits(code + [1 - m % 2], m, k + 1)
  {
    var code1 := code + [1 - m % 2];
    forall i: nat | i < k + 1
      ensures code1[i] == 1 - m / Pow2(k - i) % 2
    {
      if i < k {
        DivTwice(m, Pow2(k - 1 - i));
      }
    }
  }

  lemma {:induction false} NodeCode(x: nat, k: nat)
    requires x <= 626 && Pow2(k) <= 627 - x < Pow2(k + 1)
    ensures Linked(StartTree()) && FlippedDigits(CodeOf(StartTree(), x), 627 - x, k)
    decreases k
  {
    hide StartTree, Linked;
    StartParents(x);
    if x < 626 {
      assert k > 0;
      var p := 314 + x / 2;
      assert 627 - p == (627 - x) / 2 && 1 - (627 - x) % 2 == x % 2;
      NodeCode(p, k - 1);
      FlippedNext(CodeOf(StartTree(), p), 627 - x, k - 1);
    } else {
      assert k == 0;
    }
  }

  /** The code of every symbol in the starting tree: the binary digits of 627 - c behind the leading one, each
      flipped. */
  lemma FirstCode(c: symbol, k: nat)
    requires Pow2(k) <= 627 - c < Pow2(k + 1)
    ensures Linked(StartTree()) && FlippedDigits(Code(StartTree(), c), 627 - c, k)
  {
    hide StartTree, Linked, CodeOf, FlippedDigits;
    StartParents(c + T);
    NodeCode(c, k);
  }
}
