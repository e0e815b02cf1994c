/** `update`, and the codes it induces: how long they can get, and that the decoder follows them back to the symbol. */
module HuffmanCode {
  import opened Prelude
  import opened BitIO
  import opened HuffmanTree
  import opened HuffmanUpdate
  import opened HuffmanReconst

  lemma LeafPending(t: Tree, c: symbol)
    requires Valid(t) && t.freq[R] < MAX_FREQ
    ensures t.prnt[c + T] < T && t.son[t.prnt[c + T]] == c + T && Pending(t, t.prnt[c + T])
  {
    hide SonsOk, ParentsOfSons, LeafFlags, LeafWeights, Sum, Ordered;
  }

  /** The tree `update` walks up: rebuilt first if the root has reached MAX_FREQ. */
  function Roomy(t: Tree): (r: Tree)
    requires Valid(t)
    ensures Valid(r) && r.freq[R] < MAX_FREQ
  {
    if t.freq[R] == MAX_FREQ then ReconstValid(t, 0); Reconst(t) else t
  }

  /** `update`: count one more `c`. */
  function Update(t: Tree, c: symbol): (r: Tree)
    requires Valid(t)
    ensures Valid(r)
  {
    LeafPending(Roomy(t), c);
    Bump(Roomy(t), Roomy(t).prnt[c + T])
  }

  lemma {:induction false} BumpRoot(t: Tree, c: nat)
    requires Pending(t, c)
    ensures Bump(t, c).freq[R] == t.freq[R] + 1
    decreases T - c
  {
    PlaceKeeps(t, c);
    PlaceRootWeight(t, c);
    PlaceParent(t, c);
    PlaceTarget(t, c);
    var (t', l) := Place(t, c);
    hide Pending, Place;
    if t'.prnt[l] != 0 {
      BumpRoot(t', t'.prnt[l]);
    }
  }

  /** `update` keeps the invariant and adds exactly one to the weight of `c`; when the root was full, every weight has
      been halved before. */
  lemma UpdateCounts(t: Tree, c: symbol, s: symbol)
    requires Valid(t)
    ensures Valid(Update(t, c))
    ensures Weight(Update(t, c), s) ==
      (if t.freq[R] == MAX_FREQ then (Weight(t, s) + 1) / 2 else Weight(t, s)) + if s == c then 1 else 0
    ensures Update(t, c).freq[R] <= t.freq[R] + 1
    ensures t.freq[R] < MAX_FREQ ==> Update(t, c).freq[R] == t.freq[R] + 1
  {
    if t.freq[R] == MAX_FREQ {
      ReconstValid(t, s);
    }
    LeafPending(Roomy(t), c);
    hide Valid, Reconst, Bump;
    BumpWeight(Roomy(t), Roomy(t).prnt[c + T], s);
    BumpRoot(Roomy(t), Roomy(t).prnt[c + T]);
  }

  // ---------------------------------------------------------------- codes

  /** The path from the root down to node `x`: one bit a level, the parity of the node entered. */
  function CodeOf(t: Tree, x: nat): (r: bits)
    requires Linked(t) && x < T
    decreases R - x
  {
    if x == R then [] else CodeOf(t, t.prnt[x]) + [x % 2]
  }

  /** The code of a symbol. */
  function Code(t: Tree, c: symbol): bits
    requires Linked(t)
  {
    CodeOf(t, t.prnt[c + T])
  }

  /** `decode_char`'s descent from node `x`, reading the stream from bit `n` on. */
  function Descend(t: Tree, s: bits, x: nat, n: nat): (r: (symbol, nat))
    requires Linked(t) && x < T
    decreases x
  {
    if t.son[x] >= T then (t.son[x] - T, n) else Descend(t, s, t.son[x] + At(s, n), n + 1)
  }

  /** A node is the son of its parent that its parity selects. */
  lemma SonOfParent(t: Tree, x: nat)
    requires Linked(t) && x < R
    ensures x < t.prnt[x] <= R && t.son[t.prnt[x]] < T && x == t.son[t.prnt[x]] + x % 2
  {
    hide ParentsOfSons, SonsOk;
  }

  lemma DescendStep(t: Tree, s: bits, x: nat, n: nat)
    requires Linked(t) && x < R && At(s, n) == x % 2
    ensures t.prnt[x] < T && Descend(t, s, t.prnt[x], n) == Descend(t, s, x, n + 1)
  {
    hide ParentsOfSons, SonsOk, SonsOfParents;
    SonOfParent(t, x);
  }

  lemma {:induction false} DescendAlong(t: Tree, s: bits, x: nat, n: nat)
    requires Linked(t) && x < T && Holds(s, n, CodeOf(t, x))
    ensures Descend(t, s, R, n) == Descend(t, s, x, n + |CodeOf(t, x)|)
    decreases R - x
  {
    hide ParentsOfSons, SonsOk, SonsOfParents, Descend, Holds, At;
    if x < R {
      SonOfParent(t, x);
      var p := t.prnt[x];
      HoldsConcat(s, n, CodeOf(t, p), [x % 2]);
      HoldsOne(s, n + |CodeOf(t, p)|, x % 2);
      DescendAlong(t, s, p, n);
      DescendStep(t, s, x, n + |CodeOf(t, p)|);
    }
  }

  /** Wherever the code of `c` stands in a stream, the decoder reads `c` there and stops right behind the code. */
  lemma DecodeUndoesCode(t: Tree, s: bits, c: symbol, n: nat)
    requires Linked(t) && Holds(s, n, Code(t, c))
    ensures Descend(t, s, R, n) == (c, n + |Code(t, c)|)
  {
    hide ParentsOfSons, SonsOk;
    assert t.son[t.prnt[c + T]] == c + T;
    DescendAlong(t, s, t.prnt[c + T], n);
  }

  // ---------------------------------------------------------------- code length

  function Fib(n: nat): nat {
    if n < 2 then n else Fib(n - 2) + Fib(n - 1)
  }

  lemma {:induction false} FibMonotone(m: nat, n: nat)
    requires m <= n
    ensures Fib(m) <= Fib(n)
    decreases n
  {
    if m < n {
      FibMonotone(m, n - 1);
    }
  }

  lemma FibValues()
    ensures Fib(19) == 4181 && Fib(24) == 46368
  {
    assert Fib(2) == 1 && Fib(3) == 2 && Fib(4) == 3 && Fib(5) == 5 && Fib(6) == 8 && Fib(7) == 13;
    assert Fib(8) == 21 && Fib(9) == 34 && Fib(10) == 55 && Fib(11) == 89 && Fib(12) == 144 && Fib(13) == 233;
    assert Fib(14) == 377 && Fib(15) == 610 && Fib(16) == 987 && Fib(17) == 1597 && Fib(18) == 2584;
    assert Fib(20) == 6765 && Fib(21) == 10946 && Fib(22) == 17711 && Fib(23) == 28657;
  }

  /** The brother of a node is at least as heavy as each son of that node. */
  lemma ParentOutweighs(t: Tree, z: nat, y: nat)
    requires Valid(t) && z < y < R && t.prnt[z] == y
    ensures y < t.prnt[y] <= R && t.freq[t.prnt[y]] >= t.freq[y] + t.freq[z]
  {
    hide LeafFlags, LeafWeights, Sum;
    var p := t.prnt[y];
    var brother := if y % 2 == 0 then y + 1 else y - 1;
    assert t.freq[p] == t.freq[t.son[p]] + t.freq[t.son[p] + 1];
    assert t.son[y] == z - z % 2;
    assert z <= brother;
  }

  lemma {:induction false} Climb(t: Tree, z: nat, y: nat, k: nat)
    requires Valid(t) && z < y <= R && t.prnt[z] == y
    requires t.freq[z] >= Fib(k) && t.freq[y] >= Fib(k + 1)
    ensures t.freq[R] >= Fib(k + 1 + |CodeOf(t, y)|)
    decreases R - y
  {
    if y < R {
      ParentOutweighs(t, z, y);
      hide Valid;
      assert Fib(k + 2) == Fib(k) + Fib(k + 1);
      Climb(t, y, t.prnt[y], k + 1);
    }
  }

  /** A symbol with a code of `d` bits needs a total weight of at least Fib(d + 2). */
  lemma CodeNeedsWeight(t: Tree, c: symbol)
    requires Valid(t)
    ensures t.freq[R] >= Fib(|Code(t, c)| + 2)
  {
    hide LeafFlags, LeafWeights, Sum;
    var x := t.prnt[c + T];
    RootSons(t);
    assert t.son[x] == c + T;
    assert x < R;
    var p := t.prnt[x];
    assert t.freq[p] == t.freq[t.son[p]] + t.freq[t.son[p] + 1];
    assert t.freq[x] >= Fib(2) && t.freq[p] >= Fib(3);
    Climb(t, x, p, 2);
  }

  /** No code is longer than 21 bits, and none is longer than 16 while fewer than 3867 symbols have been counted. */
  lemma CodeLength(t: Tree, c: symbol)
    requires Valid(t)
    ensures |Code(t, c)| <= 21
    ensures t.freq[R] < 4181 ==> |Code(t, c)| <= 16
  {
    CodeNeedsWeight(t, c);
    FibValues();
    if |Code(t, c)| > 21 {
      FibMonotone(24, |Code(t, c)| + 2);
    } else if |Code(t, c)| > 16 {
      FibMonotone(19, |Code(t, c)| + 2);
    }
  }

  // ---------------------------------------------------------------- total forms

  // The specification of whole streams runs over trees that are valid by construction. These forms of the operations
  // take any tree, so that the invariant has to be established once and not at every mention.

  ghost function Next(t: Tree, c: symbol): Tree {
    if Valid(t) then Update(t, c) else t
  }

  ghost function CodeFor(t: Tree, c: symbol): bits {
    if Valid(t) then Code(t, c) else []
  }

  ghost function Read(t: Tree, s: bits, n: nat): (symbol, nat) {
    if Valid(t) then Descend(t, s, R, n) else (0, n)
  }

  /** The weight of the root: how much has been counted in all. */
  function Total(t: Tree): nat {
    if |t.freq| > R then t.freq[R] else 0
  }

  lemma NextValid(t: Tree, c: symbol)
    requires Valid(t)
    ensures Valid(Next(t, c)) && Total(Next(t, c)) <= Total(t) + 1
    ensures Total(t) < 4181 ==> |CodeFor(t, c)| <= 16
  {
    hide Update, Code, SonsOk, ParentsOfSons, SonsOfParents, Ordered;
    UpdateCounts(t, c, 0);
    CodeLength(t, c);
  }

  /** One symbol in lockstep: equal trees before, the code anywhere in the stream, equal trees after. */
  lemma Lockstep(t: Tree, s: bits, c: symbol, n: nat)
    requires Valid(t) && Holds(s, n, CodeFor(t, c))
    ensures Read(t, s, n) == (c, n + |CodeFor(t, c)|)
  {
    hide Code, Descend, Update;
    DecodeUndoesCode(t, s, c, n);
  }
}
