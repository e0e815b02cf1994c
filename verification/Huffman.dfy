/** Class `_Huff` of lzhuf.py: the tables as arrays updated in place. */
module Huffman {
  import opened Prelude
  import opened BitIO
  import opened HuffmanTree
  import opened HuffmanUpdate
  import opened HuffmanReconst
  import opened HuffmanCode

  class Huff {
    const freq: array<nat>
    const prnt: array<nat>
    const son: array<nat>

    ghost function Model(): Tree
      reads freq, prnt, son
    {
      Tree(freq[..], prnt[..], son[..])
    }

    ghost predicate Separate() {
      freq != prnt && freq != son && prnt != son
    }

    ghost predicate Valid()
      reads freq, prnt, son
    {
      Separate() && HuffmanTree.Valid(Model())
    }

    /** `__init__` */
    constructor ()
      ensures Valid() && Model() == StartTree()
      ensures fresh(freq) && fresh(prnt) && fresh(son)
    {
      freq := new nat[T + 1](_ => 0);
      prnt := new nat[T + N_CHAR](_ => 0);
      son := new nat[T](_ => 0);
      new;
      Start();
      StartValid(0);
    }

    /** The first `j` nodes have told their sons. */
    ghost predicate Told(j: nat)
      requires son.Length == T && prnt.Length == T + N_CHAR && j <= T
      reads prnt, son
    {
      forall x: nat | x < j :: son[x] < T + N_CHAR && prnt[son[x]] == x
        && (son[x] < T ==> son[x] + 1 < T && prnt[son[x] + 1] == x)
    }

    /** First loop of `_start`: one leaf for every symbol. */
    method StartLeaves()
      requires Separate() && freq.Length == T + 1 && son.Length == T && prnt.Length == T + N_CHAR
      modifies freq, prnt, son
      ensures Nodes(freq[..N_CHAR], son[..N_CHAR]) == FirstLeaves() && Told(N_CHAR)
      ensures forall y: nat | y < T :: prnt[y] == old(prnt[y])
    {
      for i := 0 to N_CHAR
        invariant forall x: nat | x < i :: freq[x] == 1 && son[x] == x + T && prnt[x + T] == x
        invariant forall y: nat | y < T :: prnt[y] == old(prnt[y])
      {
        freq[i] := 1;
        son[i] := i + T;
        prnt[i + T] := i;
      }
      assert freq[..N_CHAR] == FirstLeaves().freq;
      assert son[..N_CHAR] == FirstLeaves().son;
    }

    /** One pass of the second loop of `_start`. */
    method StartPair(i: nat, j: nat)
      requires Separate() && freq.Length == T + 1 && son.Length == T && prnt.Length == T + N_CHAR
      requires i + 1 < j < T && Told(j)
      requires forall x: nat | x < j :: son[x] != i && son[x] != i + 1 && son[x] + 1 != i
      modifies freq, prnt, son
      ensures freq[..j + 1] == old(freq[..j] + [freq[i] + freq[i + 1]])
      ensures son[..j + 1] == old(son[..j]) + [i] && Told(j + 1)
    {
      freq[j] := freq[i] + freq[i + 1];
      son[j] := i;
      prnt[i], prnt[i + 1] := j, j;
    }

    /** Second loop of `_start`: here the new node is never lighter than the last one, so it is simply appended. */
    method StartPairs()
      requires Separate() && freq.Length == T + 1 && son.Length == T && prnt.Length == T + N_CHAR
      requires Nodes(freq[..N_CHAR], son[..N_CHAR]) == FirstLeaves() && Told(N_CHAR)
      modifies freq, prnt, son
      ensures Nodes(freq[..T], son[..T]) == StartNodes() && Told(T)
    {
      FirstLeavesGrow();
      hide Growing, Join, FirstLeaves, Told;
      var i, j := 0, N_CHAR;
      while j <= R
        invariant N_CHAR <= j <= T && i == 2 * (j - N_CHAR)
        invariant Growing(Nodes(freq[..j], son[..j]), i, N_CHAR)
        invariant Grow(Nodes(freq[..j], son[..j]), i, N_CHAR) == StartNodes()
        invariant Appends(freq[..j], i)
        invariant Told(j)
      {
        ghost var n := Nodes(freq[..j], son[..j]);
        JoinKeeps(n, i, N_CHAR);
        JoinAtEnd(n, i, N_CHAR);
        StartPair(i, j);
        i := i + 2;
        j := j + 1;
      }
    }

    /** `_start` */
    method Start()
      requires Separate() && freq.Length == T + 1 && son.Length == T && prnt.Length == T + N_CHAR
      modifies freq, prnt, son
      ensures Model() == StartTree()
    {
      hide StartNodes, StartTree, FirstLeaves, HuffmanTree.Valid, Growing, Finish, Relink;
      StartLeaves();
      StartPairs();
      freq[T] := 0xFFFF;
      assert son[..T] == son[..] && freq[..T] == StartNodes().freq;
      StartFacts();
      RootIsNoSon(son[..]);
      prnt[R] := 0;
      assert son[..] == StartNodes().son;
      assert freq[..] == StartNodes().freq + [SENTINEL];
      StartUnique(prnt[..]);
    }

    /** The search in `update`: the last node from `c` on that is lighter than `k`. */
    method FindLast(c: nat, k: nat) returns (l: nat)
      requires freq.Length == T + 1 && c < T && k <= freq[T]
      ensures l == LastBelow(freq[..], k, c)
    {
      l := c + 1;
      if k > freq[l] {
        l := l + 1;
        while k > freq[l]
          invariant c < l <= T
          invariant LastBelow(freq[..], k, c) == LastBelow(freq[..], k, l - 1)
          decreases T - l
        {
          l := l + 1;
        }
      }
      l := l - 1;
    }

    /** The exchange in `update`: `c` and `l` swap their sons, and the sons are told. */
    method Exchange(c: nat, l: nat)
      requires Separate() && Shaped(Model()) && SonsOk(son[..]) && c < T && l < T
      modifies prnt, son
      ensures prnt[..] == SwapParents(old(prnt[..]), old(son[..]), c, l)
      ensures son[..] == old(son[..])[l := old(son[c])][c := old(son[l])]
    {
      var i := son[c];
      prnt[i] := l;
      if i < T {
        prnt[i + 1] := l;
      }
      var j := son[l];
      son[l] := i;
      prnt[j] := c;
      if j < T {
        prnt[j + 1] := c;
      }
      son[c] := j;
    }

    /** One pass of the loop in `update`: the incremented node trades places with the last node of the same weight. */
    method Pass(c: nat) returns (l: nat)
      requires Separate() && Shaped(Model()) && SonsOk(son[..]) && c < T && freq[c] + 1 <= freq[T]
      modifies freq, prnt, son
      ensures (Model(), l) == Place(old(Model()), c)
    {
      ghost var t := Model();
      hide SonsOk, SwapParents;
      freq[c] := freq[c] + 1;
      var k := freq[c];
      assert freq[..] == t.freq[c := k] && prnt[..] == t.prnt && son[..] == t.son;
      l := FindLast(c, k);
      LastBelowElsewhere(t.freq, k, c, k, c);
      if l > c {
        freq[c] := freq[l];
        freq[l] := k;
        assert prnt[..] == t.prnt && son[..] == t.son;
        Exchange(c, l);
      }
      assert freq[..] == t.freq[c := t.freq[l]][l := k];
    }

    /** Move element `j` down to index `k`, shifting what is in between, and put `v` there. */
    method ShiftIn(a: array<nat>, j: nat, k: nat, v: nat)
      requires k <= j < a.Length
      modifies a
      ensures a[..j + 1] == Splice(old(a[..j]), k, v)
      ensures forall x: nat | j < x < a.Length :: a[x] == old(a[x])
    {
      var m := j;
      while m > k
        invariant k <= m <= j
        invariant forall x: nat | x < m || j < x < a.Length :: a[x] == old(a[x])
        invariant forall x: nat | m < x <= j :: a[x] == old(a[x - 1])
      {
        a[m] := a[m - 1];
        m := m - 1;
      }
      a[k] := v;
      assert forall x: nat | x <= j :: a[..j + 1][x] == Splice(old(a[..j]), k, v)[x];
    }

    /** First loop of `_reconst`. */
    method CollectLeaves()
      requires Separate() && Shaped(Model()) && Linked(Model()) && Ordered(Model())
      modifies freq, son
      ensures var n := Collect(old(Model()), T);
        |n.freq| == |n.son| <= T && freq[..|n.freq|] == n.freq && son[..|n.son|] == n.son
      ensures freq[T] == SENTINEL
    {
      ghost var t := Model();
      hide Linked, SonsOk, ParentsOfSons, SonsOfParents;
      var j := 0;
      for i := 0 to T
        invariant j <= i
        invariant Collect(t, i).freq == freq[..j] && Collect(t, i).son == son[..j]
        invariant forall x: nat | i <= x < T :: freq[x] == t.freq[x] && son[x] == t.son[x]
        invariant freq[T] == SENTINEL
      {
        if son[i] >= T {
          freq[j] := (freq[i] + 1) / 2;
          son[j] := son[i];
          j := j + 1;
        }
      }
    }

    /** Where `_reconst` puts a node of weight `f` among the first `j`. */
    method FindSlot(j: nat, f: nat) returns (k: nat)
      requires 0 < j < freq.Length && freq[0] <= f
      ensures k == Slot(freq[..j], f, j)
      ensures 0 < k <= j && freq[k - 1] <= f && forall x: nat | k <= x < j :: f < freq[x]
    {
      k := j - 1;
      ghost var n := freq[..j];
      while f < freq[k]
        invariant 0 <= k < j && Slot(n, f, k + 1) == Slot(n, f, j)
        decreases k
      {
        assert freq[k] == n[k];
        k := k - 1;
      }
      k := k + 1;
    }

    /** One pass of the second loop of `_reconst`: join the nodes `i` and `i + 1`. */
    method JoinNext(i: nat, j: nat)
      requires Separate() && freq.Length == T + 1 && son.Length == T
      requires i + 1 < j < T && freq[0] <= freq[i]
      modifies freq, son
      ensures Nodes(freq[..j + 1], son[..j + 1]) == Join(Nodes(old(freq[..j]), old(son[..j])), i)
      ensures freq[T] == old(freq[T])
    {
      hide Splice, Slot;
      ghost var n := freq[..j];
      var f := freq[i] + freq[i + 1];
      freq[j] := f;
      assert freq[..j] == n;
      var k := FindSlot(j, f);
      ShiftIn(freq, j, k, f);
      ShiftIn(son, j, k, i);
    }

    /** Second loop of `_reconst`. */
    method GrowAll(ghost w: nat)
      requires Separate() && freq.Length == T + 1 && son.Length == T
      requires Growing(Nodes(freq[..N_CHAR], son[..N_CHAR]), 0, w)
      modifies freq, son
      ensures Nodes(freq[..T], son[..T]) == old(Grow(Nodes(freq[..N_CHAR], son[..N_CHAR]), 0, w))
      ensures freq[T] == old(freq[T])
    {
      hide Growing, Join;
      ghost var n0 := Nodes(freq[..N_CHAR], son[..N_CHAR]);
      var i, j := 0, N_CHAR;
      while j < T
        invariant N_CHAR <= j <= T
        invariant Growing(Nodes(freq[..j], son[..j]), i, w)
        invariant Grow(Nodes(freq[..j], son[..j]), i, w) == Grow(n0, 0, w)
        invariant freq[T] == old(freq[T])
      {
        JoinKeeps(Nodes(freq[..j], son[..j]), i, w);
        JoinNext(i, j);
        i := i + 2;
        j := j + 1;
      }
    }

    /** `_reconst`: halve the leaves, join them into a new tree, and rebuild the parents. */
    method Reconst()
      requires Valid()
      modifies freq, prnt, son
      ensures Separate() && Model() == HuffmanReconst.Reconst(old(Model()))
    {
      ghost var t := Model();
      CollectGrows(t);
      CollectLeaves();
      assert |Collect(t, T).freq| == N_CHAR;
      hide HuffmanTree.Valid, Collect, Growing, Grow;
      GrowAll(LeafTotal(t));
      RelinkAll(Nodes(freq[..T], son[..T]), t);
    }

    /** Third loop of `_reconst`. */
    method RelinkAll(ghost n: Nodes, ghost t: Tree)
      requires Separate() && freq.Length == T + 1 && son.Length == T && prnt.Length == T + N_CHAR
      requires HuffmanTree.Valid(t) && n == ReconstNodes(t) == Nodes(freq[..T], son[..T])
      requires freq[T] == SENTINEL && prnt[..] == t.prnt
      modifies prnt
      ensures Model() == HuffmanReconst.Reconst(t)
    {
      hide HuffmanTree.Valid, Growing, Carries, ReconstNodes, SonsOk;
      ReconstFacts(t);
      SonsInRange(n.son);
      assert son[..] == n.son;
      for i := 0 to T
        invariant prnt[..] == Relink(t.prnt, n.son, i)
      {
        var k := son[i];
        if k >= T {
          prnt[k] := i;
        } else {
          prnt[k] := i;
          prnt[k + 1] := i;
        }
      }
      assert freq[..] == n.freq + [SENTINEL];
    }

    /** `update`. */
    method Update(c: symbol)
      requires Valid()
      modifies freq, prnt, son
      ensures Valid() && Model() == HuffmanCode.Update(old(Model()), c)
    {
      ghost var t := Model();
      if freq[R] == MAX_FREQ {
        ReconstValid(t, c);
        Reconst();
      }
      LeafPending(Model(), c);
      hide HuffmanTree.Valid, Pending, Place;
      var x := prnt[c + T];
      while true
        invariant Pending(Model(), x) && Bump(Model(), x) == HuffmanCode.Update(t, c)
        decreases T - x
      {
        PlaceKeeps(Model(), x);
        x := Pass(x);
        x := prnt[x];
        if x == 0 {
          break;
        }
      }
    }

    /** The climb in `encode_char`: the bits from the leaf of `c` up to the root. */
    method Climb(c: symbol) returns (up: bits)
      requires Valid()
      ensures Reversed(up) == Code(Model(), c)
    {
      hide Ordered, LeafFlags, LeafWeights, Sum, SonsOk, ParentsOfSons;
      ghost var t := Model();
      var k := prnt[c + T];
      up := [];
      while k != R
        invariant k <= R && CodeOf(t, k) + Reversed(up) == Code(t, c)
        decreases R - k
      {
        assert k < t.prnt[k];
        ReversedAppend(up, k % 2);
        up := up + [k % 2];
        k := prnt[k];
      }
    }

    /** `encode_char`. A code of more than 16 bits cannot be left-justified: the shift by a negative count raises,
        before anything is written or counted. */
    method EncodeChar(c: symbol, bw: BitWriter) returns (ok: bool)
      requires Valid() && bw.Valid()
      modifies freq, prnt, son, bw
      ensures Valid() && bw.Valid()
      ensures ok <==> |Code(old(Model()), c)| <= 16
      ensures ok ==> bw.Written() == old(bw.Written()) + Code(old(Model()), c)
      ensures ok ==> Model() == HuffmanCode.Update(old(Model()), c)
      ensures !ok ==> Model() == old(Model()) && bw.Written() == old(bw.Written())
    {
      hide HuffmanTree.Valid, BitWriter.Valid, BitWriter.Written, CodeOf, HuffmanCode.Update;
      var up := Climb(c);
      ghost var down := Reversed(up);
      var code, length := 0, 0;
      while length < |up|
        invariant 0 <= length <= |up| && code == Val(down[..length])
      {
        assert down[length] == up[|up| - 1 - length] by { ReversedAt(up, length); }
        assert down[..length + 1][..length] == down[..length];
        code := 2 * code + up[|up| - 1 - length];
        length := length + 1;
      }
      assert down[..length] == down;
      if length > 16 {
        return false;
      }
      TopBitsOfVal(down);
      bw.PutCode(length, code * Pow2(16 - length));
      Update(c);
      ok := true;
    }

    /** The walk in `decode_char`: from the root down to a leaf, one bit a level. */
    method Walk(br: BitReader) returns (c: symbol)
      requires Valid() && br.Valid()
      modifies br
      ensures br.Valid()
      ensures (c, br.taken) == Descend(Model(), Unpack(br.data), R, old(br.taken))
    {
      hide HuffmanTree.Valid, Linked, BitReader.Valid, Unpack, At;
      ghost var t := Model();
      ValidIsLinked(t);
      SonsBelow(t, R);
      var x := son[R];
      ghost var node: nat := R;
      while x < T
        invariant node < T && x == t.son[node]
        invariant br.Valid()
        invariant Descend(t, Unpack(br.data), node, br.taken) == Descend(t, Unpack(br.data), R, old(br.taken))
        decreases node
      {
        SonsBelow(t, node);
        var b := br.GetBit();
        node := x + b;
        x := son[x + b];
      }
      SonsBelow(t, node);
      c := x - T;
    }

    /** `decode_char` */
    method DecodeChar(br: BitReader) returns (c: symbol)
      requires Valid() && br.Valid()
      modifies freq, prnt, son, br
      ensures Valid() && br.Valid()
      ensures (c, br.taken) == Descend(old(Model()), Unpack(br.data), R, old(br.taken))
      ensures Model() == HuffmanCode.Update(old(Model()), c)
    {
      hide HuffmanTree.Valid, BitReader.Valid, Unpack, Descend, HuffmanCode.Update;
      c := Walk(br);
      Update(c);
    }
  }

  lemma SonsInRange(son: seq<nat>)
    requires SonsOk(son)
    ensures |son| == T && forall x: nat | x < T :: son[x] < T + N_CHAR && (son[x] < T ==> son[x] + 1 < T)
  {
  }

  lemma ValidIsLinked(t: Tree)
    requires HuffmanTree.Valid(t)
    ensures Linked(t) && Shaped(t)
  {
  }

  lemma SonsBelow(t: Tree, x: nat)
    requires Linked(t) && x < T
    ensures t.son[x] < T + N_CHAR && (t.son[x] < T ==> t.son[x] + 1 < x)
  {
    hide ParentsOfSons, SonsOfParents;
  }

  function Reversed(b: bits): (r: bits)
    ensures |r| == |b|
  {
    if |b| == 0 then [] else [b[|b| - 1]] + Reversed(b[..|b| - 1])
  }

  lemma ReversedAppend(b: bits, x: bit)
    ensures Reversed(b + [x]) == [x] + Reversed(b)
  {
    assert (b + [x])[..|b|] == b;
  }

  lemma {:induction false} ReversedAt(b: bits, i: nat)
    requires i < |b|
    ensures Reversed(b)[i] == b[|b| - 1 - i]
  {
    if i > 0 {
      ReversedAt(b[..|b| - 1], i - 1);
    }
  }

  /** The search from `l` on does not look at nodes up to `l`. */
  lemma {:induction false} LastBelowElsewhere(freq: seq<nat>, k: nat, l: nat, v: nat, c: nat)
    requires |freq| == T + 1 && c <= l < T && k <= freq[T]
    ensures LastBelow(freq[c := v], k, l) == LastBelow(freq, k, l)
    decreases T - l
  {
    if k > freq[l + 1] {
      LastBelowElsewhere(freq, k, l + 1, v, c);
    }
  }

  /** The pair at `i` is at least as heavy as the last node. */
  predicate Appends(freq: seq<nat>, i: nat) {
    i + 1 < |freq| ==> freq[|freq| - 1] <= freq[i] + freq[i + 1]
  }

  /** A pair that is at least as heavy as the last node goes to the end, and so will the next pair. */
  lemma JoinAtEnd(n: Nodes, i: nat, w: nat)
    requires Growing(n, i, w) && |n.freq| < T && i + 1 < |n.freq| && n.freq[0] <= n.freq[i] && Appends(n.freq, i)
    ensures Join(n, i) == Nodes(n.freq + [n.freq[i] + n.freq[i + 1]], n.son + [i])
    ensures Appends(Join(n, i).freq, i + 2)
    ensures forall x: nat | x < |n.son| :: n.son[x] != i && n.son[x] != i + 1 && n.son[x] + 1 != i
  {
    hide LeafFlags, LeafWeights, Sum;
    NotYetJoined(n, i);
    forall x: nat | x < |n.son|
      ensures n.son[x] != i && n.son[x] != i + 1 && n.son[x] + 1 != i
    {
      assert JoinedAt(n, i, x);
    }
  }

  lemma RootIsNoSon(son: seq<nat>)
    requires SonsOk(son)
    ensures forall x: nat | x < T :: son[x] != R && son[x] + 1 != R
  {
  }

  lemma ParentsUnique(p: seq<nat>, q: seq<nat>, son: seq<nat>)
    requires SonsOk(son) && |p| == |q| == T + N_CHAR && p[R] == 0
    requires ParentsOfSons(p, son) && SonsOfParents(q, son)
    ensures p == q
  {
    forall y: nat | y < T + N_CHAR
      ensures p[y] == q[y]
    {
      if y != R {
        assert son[q[y]] == if y < R then y - y % 2 else y;
      }
    }
  }

  lemma StartUnique(prnt: seq<nat>)
    requires |prnt| == T + N_CHAR && prnt[R] == 0 && |StartNodes().son| == T && SonsOk(StartNodes().son)
    requires ParentsOfSons(prnt, StartNodes().son)
    ensures StartTree() == Tree(StartNodes().freq + [SENTINEL], prnt, StartNodes().son)
  {
    StartFacts();
    hide Ordered, LeafFlags, LeafWeights, Sum, StartNodes;
    ParentsUnique(prnt, StartTree().prnt, StartNodes().son);
  }
}
