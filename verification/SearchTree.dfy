/** The binary search trees of the LZSS encoder, as values: trees of ring positions and the link tables that hold
    them. */
module SearchTree {
  import opened Prelude

  const NIL: nat := 2048

  // ---------------------------------------------------------------- strings in the buffer

  /** The ring buffer and the F - 1 bytes that repeat its start. */
  predicate IsText(text: seq<byte>) {
    |text| == N + F - 1
  }

  /** Byte `j` of the string at `p`. */
  function Char(text: seq<byte>, p: nat, j: nat): byte
    requires IsText(text) && p < N && j < F
  {
    text[p + j]
  }

  /** How many bytes of the F-byte strings at `p` and `q` agree, when the first `i` are known to. */
  function LcpFrom(text: seq<byte>, p: nat, q: nat, i: nat): (k: nat)
    requires IsText(text) && p < N && q < N && i <= F
    ensures i <= k <= F
    ensures forall j: nat | i <= j < k :: Char(text, p, j) == Char(text, q, j)
    ensures k < F ==> Char(text, p, k) != Char(text, q, k)
    decreases F - i
  {
    if i == F || Char(text, p, i) != Char(text, q, i) then i else LcpFrom(text, p, q, i + 1)
  }

  /** The length of the longest common prefix of the F-byte strings at `p` and `q`. */
  function Lcp(text: seq<byte>, p: nat, q: nat): (k: nat)
    requires IsText(text) && p < N && q < N
    ensures k <= F
  {
    LcpFrom(text, p, q, 0)
  }

  /** The string at `p` sorts before the string at `q`. */
  predicate Less(text: seq<byte>, p: nat, q: nat)
    requires IsText(text) && p < N && q < N
  {
    var k := Lcp(text, p, q);
    k < F && Char(text, p, k) < Char(text, q, k)
  }

  lemma {:induction false} LcpIs(text: seq<byte>, p: nat, q: nat, i: nat, k: nat)
    requires IsText(text) && p < N && q < N && i <= k <= F
    requires forall j: nat | i <= j < k :: Char(text, p, j) == Char(text, q, j)
    requires k < F ==> Char(text, p, k) != Char(text, q, k)
    ensures LcpFrom(text, p, q, i) == k
    decreases k - i
  {
    if i < k {
      LcpIs(text, p, q, i + 1, k);
    }
  }

  /** The first byte in which they differ is the `k`th, and it is smaller at `p`. */
  predicate SmallerAt(text: seq<byte>, p: nat, q: nat, k: nat)
    requires |text| == 2107 && p < 2048 && q < 2048
  {
    k < 60 && text[p..p + k] == text[q..q + k] && text[p + k] < text[q + k]
  }

  /** The order is that of the first byte in which two strings of 60 bytes differ. */
  lemma LessIs(text: seq<byte>, p: nat, q: nat)
    requires |text| == 2107 && p < 2048 && q < 2048
    ensures IsText(text) && (Less(text, p, q) <==> exists k: nat :: SmallerAt(text, p, q, k))
  {
    var k := Lcp(text, p, q);
    if Less(text, p, q) {
      var x, y := text[p..p + k], text[q..q + k];
      forall j: nat | j < k
        ensures x[j] == y[j]
      {
        assert Char(text, p, j) == Char(text, q, j);
      }
      assert x == y;
      assert SmallerAt(text, p, q, k);
    }
    if j: nat :| SmallerAt(text, p, q, j) {
      forall i: nat | i < j
        ensures Char(text, p, i) == Char(text, q, i)
      {
        assert text[p..p + j][i] == text[q..q + j][i];
      }
      LcpIs(text, p, q, 0, j);
    }
  }

  lemma LcpSymmetric(text: seq<byte>, p: nat, q: nat)
    requires IsText(text) && p < N && q < N
    ensures Lcp(text, p, q) == Lcp(text, q, p)
  {
    LcpIs(text, q, p, 0, Lcp(text, p, q));
  }

  /** The order is transitive, and the outer strings share the shorter of the two prefixes. */
  lemma LessBetween(text: seq<byte>, a: nat, b: nat, c: nat)
    requires IsText(text) && a < N && b < N && c < N
    requires Less(text, a, b) && Less(text, b, c)
    ensures Less(text, a, c)
    ensures Lcp(text, a, c) <= Lcp(text, b, c) && Lcp(text, a, c) <= Lcp(text, a, b)
  {
    var i, j := Lcp(text, a, b), Lcp(text, b, c);
    LcpIs(text, a, c, 0, if i <= j then i else j);
  }

  lemma LessIrreflexive(text: seq<byte>, a: nat)
    requires IsText(text) && a < N
    ensures !Less(text, a, a) && Lcp(text, a, a) == F
  {
    LcpIs(text, a, a, 0, F);
  }

  /** Distinct strings are ordered. */
  lemma LessTotal(text: seq<byte>, a: nat, b: nat)
    requires IsText(text) && a < N && b < N && Lcp(text, a, b) < F
    ensures Less(text, b, a) <==> !Less(text, a, b)
  {
    LcpSymmetric(text, a, b);
  }

  // ---------------------------------------------------------------- trees

  datatype BTree = Leaf | Node(left: BTree, p: nat, right: BTree)

  function Root(t: BTree): nat {
    if t.Leaf? then NIL else t.p
  }

  function Nodes(t: BTree): set<nat> {
    if t.Leaf? then {} else Nodes(t.left) + {t.p} + Nodes(t.right)
  }

  /** A search tree over the strings of its nodes. */
  ghost predicate Bst(t: BTree, text: seq<byte>)
    requires IsText(text)
  {
    t.Leaf? ||
    (&& t.p < N
     && Bst(t.left, text)
     && Bst(t.right, text)
     && (forall x: nat | x in Nodes(t.left) :: x < N && Less(text, x, t.p))
     && (forall x: nat | x in Nodes(t.right) :: x < N && Less(text, t.p, x)))
  }

  /** No node occurs twice. */
  predicate Distinct(t: BTree) {
    t.Leaf? ||
    (&& Distinct(t.left)
     && Distinct(t.right)
     && t.p !in Nodes(t.left)
     && t.p !in Nodes(t.right)
     && Nodes(t.left) !! Nodes(t.right))
  }

  lemma {:induction false} BstNodes(t: BTree, text: seq<byte>)
    requires IsText(text) && Bst(t, text)
    ensures forall x: nat | x in Nodes(t) :: x < N
    ensures Distinct(t)
  {
    if t.Node? {
      BstNodes(t.left, text);
      BstNodes(t.right, text);
      LessIrreflexive(text, t.p);
      forall x: nat | x in Nodes(t.left) && x in Nodes(t.right)
        ensures false
      {
        LessBetween(text, x, t.p, x);
        LessIrreflexive(text, x);
      }
    }
  }

  /** A path: `true` is a step to the right. */
  predicate HasPath(t: BTree, path: seq<bool>) {
    path == [] || (t.Node? && HasPath(if path[0] then t.right else t.left, path[1..]))
  }

  function Sub(t: BTree, path: seq<bool>): BTree
    requires HasPath(t, path)
  {
    if path == [] then t else Sub(if path[0] then t.right else t.left, path[1..])
  }

  function Plug(t: BTree, path: seq<bool>, s: BTree): BTree
    requires HasPath(t, path)
  {
    if path == [] then s
    else if path[0] then Node(t.left, t.p, Plug(t.right, path[1..], s))
    else Node(Plug(t.left, path[1..], s), t.p, t.right)
  }

  /** The node the path passes last, or `par` for the empty path. */
  function Above(t: BTree, path: seq<bool>, par: nat): nat
    requires HasPath(t, path)
  {
    if path == [] then par else Above(if path[0] then t.right else t.left, path[1..], t.p)
  }

  /** The nodes to the left of the path. */
  function Before(t: BTree, path: seq<bool>): set<nat>
    requires HasPath(t, path)
  {
    if path == [] then {}
    else if path[0] then Nodes(t.left) + {t.p} + Before(t.right, path[1..])
    else Before(t.left, path[1..])
  }

  /** The nodes to the right of the path. */
  function After(t: BTree, path: seq<bool>): set<nat>
    requires HasPath(t, path)
  {
    if path == [] then {}
    else if path[0] then After(t.right, path[1..])
    else After(t.left, path[1..]) + {t.p} + Nodes(t.right)
  }

  lemma {:induction false} NodesAlong(t: BTree, path: seq<bool>)
    requires HasPath(t, path)
    ensures Nodes(t) == Before(t, path) + Nodes(Sub(t, path)) + After(t, path)
  {
    if path != [] {
      NodesAlong(if path[0] then t.right else t.left, path[1..]);
    }
  }

  lemma {:induction false} NodesPlug(t: BTree, path: seq<bool>, s: BTree)
    requires HasPath(t, path)
    ensures Nodes(Plug(t, path, s)) == Before(t, path) + Nodes(s) + After(t, path)
  {
    if path != [] {
      NodesPlug(if path[0] then t.right else t.left, path[1..], s);
    }
  }

  lemma {:induction false} BstSub(t: BTree, path: seq<bool>, text: seq<byte>)
    requires IsText(text) && Bst(t, text) && HasPath(t, path)
    ensures Bst(Sub(t, path), text)
    ensures forall x: nat, y: nat | x in Before(t, path) && y in Nodes(Sub(t, path)) ::
      x < N && y < N && Less(text, x, y)
    ensures forall x: nat, y: nat | x in After(t, path) && y in Nodes(Sub(t, path)) ::
      x < N && y < N && Less(text, y, x)
  {
    hide Less, Lcp, Distinct;
    if path != [] {
      var child := if path[0] then t.right else t.left;
      BstSub(child, path[1..], text);
      NodesAlong(child, path[1..]);
      BstNodes(t, text);
      forall x: nat, y: nat | x in Nodes(t.left) + {t.p} && y in Nodes(t.right)
        ensures Less(text, x, y)
      {
        if x != t.p { LessBetween(text, x, t.p, y); }
      }
      forall x: nat, y: nat | x in Nodes(t.left) && y in {t.p} + Nodes(t.right)
        ensures Less(text, x, y)
      {
        if y != t.p { LessBetween(text, x, t.p, y); }
      }
    }
  }

  /** A search tree stays one when a subtree is exchanged for a search tree over strings of the same interval. */
  lemma {:induction false} BstPlug(t: BTree, path: seq<bool>, s: BTree, text: seq<byte>)
    requires IsText(text) && Bst(t, text) && HasPath(t, path) && Bst(s, text)
    requires forall y: nat | y in Nodes(s) :: y < N
    requires forall x: nat, y: nat | x in Before(t, path) && y in Nodes(s) :: x < N && Less(text, x, y)
    requires forall x: nat, y: nat | x in After(t, path) && y in Nodes(s) :: x < N && Less(text, y, x)
    ensures Bst(Plug(t, path, s), text)
  {
    if path != [] {
      var child := if path[0] then t.right else t.left;
      BstPlug(child, path[1..], s, text);
      NodesPlug(child, path[1..], s);
      NodesAlong(child, path[1..]);
    }
  }

  /** One more step along a path. */
  lemma {:induction false} PathStep(t: BTree, path: seq<bool>, d: bool, par: nat)
    requires HasPath(t, path) && Sub(t, path).Node?
    ensures var cur := Sub(t, path);
      && HasPath(t, path + [d])
      && Sub(t, path + [d]) == (if d then cur.right else cur.left)
      && Above(t, path + [d], par) == cur.p
      && Before(t, path + [d]) == (if d then Before(t, path) + Nodes(cur.left) + {cur.p} else Before(t, path))
      && After(t, path + [d]) == (if d then After(t, path) else After(t, path) + {cur.p} + Nodes(cur.right))
  {
    if path == [] {
      assert [d][1..] == [];
    } else {
      var child := if path[0] then t.right else t.left;
      assert (path + [d])[1..] == path[1..] + [d];
      PathStep(child, path[1..], d, t.p);
    }
  }

  lemma {:induction false} PathTo(t: BTree, x: nat) returns (path: seq<bool>)
    requires x in Nodes(t)
    ensures HasPath(t, path) && Sub(t, path).Node? && Sub(t, path).p == x
  {
    if x == t.p {
      path := [];
    } else {
      var d := x in Nodes(t.right);
      var rest := PathTo(if d then t.right else t.left, x);
      path := [d] + rest;
      assert path[1..] == rest;
    }
  }

  // ---------------------------------------------------------------- links

  /** The tables `lson`, `rson` and `dad`. The entries of `rson` above NIL are the roots of the 256 trees. */
  datatype Links = Links(lson: seq<nat>, rson: seq<nat>, dad: seq<nat>)

  predicate IsLinks(k: Links) {
    |k.lson| == N + 1 && |k.rson| == N + 257 && |k.dad| == N + 1
  }

  /** The links of every node of `t`; the node on top hangs below `par`. */
  predicate Rep(t: BTree, par: nat, k: Links)
    requires IsLinks(k)
  {
    t.Leaf? ||
    (&& t.p < N
     && k.dad[t.p] == par
     && k.lson[t.p] == Root(t.left)
     && k.rson[t.p] == Root(t.right)
     && Rep(t.left, t.p, k)
     && Rep(t.right, t.p, k))
  }

  predicate SameLinks(k: Links, k': Links, x: nat)
    requires IsLinks(k) && IsLinks(k') && x < N
  {
    k.dad[x] == k'.dad[x] && k.lson[x] == k'.lson[x] && k.rson[x] == k'.rson[x]
  }

  lemma {:induction false} RepNodes(t: BTree, par: nat, k: Links)
    requires IsLinks(k) && Rep(t, par, k)
    ensures forall x: nat | x in Nodes(t) :: x < N
    ensures t.Node? ==> Root(t) < N
  {
    if t.Node? {
      RepNodes(t.left, t.p, k);
      RepNodes(t.right, t.p, k);
    }
  }

  lemma {:induction false} RepFrame(t: BTree, par: nat, k: Links, k': Links)
    requires IsLinks(k) && IsLinks(k') && Rep(t, par, k)
    requires forall x: nat | x in Nodes(t) :: x < N && SameLinks(k, k', x)
    ensures Rep(t, par, k')
  {
    if t.Node? {
      assert SameLinks(k, k', t.p);
      assert Nodes(t.left) <= Nodes(t) && Nodes(t.right) <= Nodes(t);
      RepFrame(t.left, t.p, k, k');
      RepFrame(t.right, t.p, k, k');
    }
  }

  /** Only the node on top knows the parent. */
  lemma RepMoved(t: BTree, par: nat, k: Links, par': nat, k': Links)
    requires IsLinks(k) && IsLinks(k') && Rep(t, par, k) && Distinct(t)
    requires t.Node? ==> t.p < N && k'.dad[t.p] == par' && k'.lson[t.p] == k.lson[t.p] && k'.rson[t.p] == k.rson[t.p]
    requires forall x: nat | x in Nodes(t) && x != Root(t) :: x < N && SameLinks(k, k', x)
    ensures Rep(t, par', k')
  {
    if t.Node? {
      assert Nodes(t.left) <= Nodes(t) && Nodes(t.right) <= Nodes(t);
      RepFrame(t.left, t.p, k, k');
      RepFrame(t.right, t.p, k, k');
    }
  }

  lemma {:induction false} RepSub(t: BTree, path: seq<bool>, par: nat, k: Links)
    requires IsLinks(k) && Rep(t, par, k) && HasPath(t, path)
    ensures Rep(Sub(t, path), Above(t, path, par), k)
  {
    if path != [] {
      RepSub(if path[0] then t.right else t.left, path[1..], t.p, k);
    }
  }

  /** The side on which the end of the path hangs; a whole tree hangs on the right of its root entry. */
  predicate GoesRight(path: seq<bool>) {
    path == [] || path[|path| - 1]
  }

  /** The link that leads to the end of the path. */
  lemma {:induction false} RepLink(t: BTree, path: seq<bool>, par: nat, k: Links)
    requires IsLinks(k) && Rep(t, par, k) && HasPath(t, path) && Distinct(t)
    requires path != []
    ensures var a := Above(t, path, par);
      a < N && a in Nodes(t) && a !in Nodes(Sub(t, path))
      && Root(Sub(t, path)) == if GoesRight(path) then k.rson[a] else k.lson[a]
    ensures Sub(t, path).Node? && !GoesRight(path) ==> k.rson[Above(t, path, par)] != Root(Sub(t, path))
  {
    var child := if path[0] then t.right else t.left;
    if path[1..] != [] {
      assert path[1..][|path[1..]| - 1] == path[|path| - 1];
      RepLink(child, path[1..], t.p, k);
      NodesAlong(child, path[1..]);
    }
  }

  /** At node `x` nothing changes but, at the node `a` above the end of the path, the link to the subtree. */
  predicate OnlyLink(k: Links, k': Links, x: nat, path: seq<bool>, a: nat, s: BTree)
    requires IsLinks(k) && IsLinks(k') && x < N
  {
    && k'.dad[x] == k.dad[x]
    && k'.lson[x] == (if path != [] && x == a && !GoesRight(path) then Root(s) else k.lson[x])
    && k'.rson[x] == (if path != [] && x == a && GoesRight(path) then Root(s) else k.rson[x])
  }

  /** Exchanging a subtree needs new links in the subtree and one new link above it. */
  lemma {:induction false} RepPlug(t: BTree, path: seq<bool>, s: BTree, par: nat, k: Links, k': Links)
    requires IsLinks(k) && IsLinks(k') && Rep(t, par, k) && HasPath(t, path) && Distinct(t)
    requires Rep(s, Above(t, path, par), k')
    requires forall x: nat | x in Before(t, path) + After(t, path) ::
      x < N && OnlyLink(k, k', x, path, Above(t, path, par), s)
    ensures Rep(Plug(t, path, s), par, k')
  {
    if path != [] {
      var child, other := if path[0] then t.right else t.left, if path[0] then t.left else t.right;
      var rest := path[1..];
      assert rest != [] ==> rest[|rest| - 1] == path[|path| - 1];
      if rest != [] {
        RepLink(child, rest, t.p, k);
      }
      NodesAlong(child, rest);
      var a := Above(t, path, par);
      assert OnlyLink(k, k', t.p, path, a, s);
      forall x: nat | x in Before(child, rest) + After(child, rest)
        ensures x < N && OnlyLink(k, k', x, rest, a, s)
      {
        assert x in Before(t, path) + After(t, path);
        assert OnlyLink(k, k', x, path, a, s);
      }
      RepPlug(child, rest, s, t.p, k, k');
      forall x: nat | x in Nodes(other)
        ensures x < N && SameLinks(k, k', x)
      {
        assert x in Before(t, path) + After(t, path);
        assert OnlyLink(k, k', x, path, a, s);
      }
      RepFrame(other, t.p, k, k');
    }
  }
}
