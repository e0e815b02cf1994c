/** The 256 search trees, one for every first byte, and what attaching, replacing and deleting a node does to them. */
module SearchForest {
  import opened Prelude
  import opened SearchTree

  type Forest = f: seq<BTree> | |f| == 256 witness seq(256, _ => Leaf)

  function RootAt(c: byte): nat {
    N + 1 + c
  }

  ghost predicate TreeOk(t: BTree, c: byte, k: Links, text: seq<byte>)
    requires IsLinks(k) && IsText(text)
  {
    && Bst(t, text)
    && Rep(t, RootAt(c), k)
    && k.rson[RootAt(c)] == Root(t)
    && forall x: nat | x in Nodes(t) :: x < N && text[x] == c
  }

  predicate InForest(f: Forest, text: seq<byte>, x: nat)
    requires IsText(text)
  {
    x < N && x in Nodes(f[text[x]])
  }

  /** The links hold the forest `f`; `dad` tells which positions are in it. */
  ghost predicate ForestOk(f: Forest, k: Links, text: seq<byte>) {
    && IsLinks(k)
    && IsText(text)
    && (forall c: byte :: TreeOk(f[c], c, k, text))
    && (forall x: nat | x < N :: k.dad[x] != NIL <==> InForest(f, text, x))
  }

  /** `s` fits between the strings left and right of the path. */
  ghost predicate Fits(t: BTree, path: seq<bool>, s: BTree, text: seq<byte>)
    requires IsText(text) && HasPath(t, path)
  {
    && (forall y: nat | y in Nodes(s) :: y < N)
    && (forall x: nat, y: nat | x in Before(t, path) && y in Nodes(s) :: x < N && Less(text, x, y))
    && (forall x: nat, y: nat | x in After(t, path) && y in Nodes(s) :: x < N && Less(text, y, x))
  }

  /** Outside the exchanged subtrees nothing changes but the link above. */
  ghost predicate LocalChange(f: Forest, k: Links, text: seq<byte>, c: byte, path: seq<bool>, s: BTree, k': Links)
    requires IsLinks(k) && IsLinks(k') && IsText(text) && HasPath(f[c], path)
  {
    var u, a := Sub(f[c], path), Above(f[c], path, RootAt(c));
    && (forall x: nat | InForest(f, text, x) && x !in Nodes(u) && x !in Nodes(s) :: OnlyLink(k, k', x, path, a, s))
    && (forall x: nat | x < N && x !in Nodes(s) && (x in Nodes(u) || !InForest(f, text, x)) :: k'.dad[x] == NIL)
    && (forall d: byte :: k'.rson[RootAt(d)] == if path == [] && d == c then Root(s) else k.rson[RootAt(d)])
  }

  /** A node knows its tree by its first byte. */
  lemma NodeOf(f: Forest, k: Links, text: seq<byte>, d: byte, x: nat)
    requires ForestOk(f, k, text) && x in Nodes(f[d])
    ensures x < N && text[x] == d && InForest(f, text, x)
  {
    assert TreeOk(f[d], d, k, text);
  }

  lemma OtherTree(f: Forest, k: Links, text: seq<byte>, c: byte, path: seq<bool>, s: BTree, k': Links, d: byte)
    requires ForestOk(f, k, text) && IsLinks(k') && HasPath(f[c], path) && d != c
    requires LocalChange(f, k, text, c, path, s, k')
    requires forall y: nat | y in Nodes(s) :: y < N && text[y] == c
    ensures TreeOk(f[d], d, k', text)
  {
    assert TreeOk(f[d], d, k, text) && TreeOk(f[c], c, k, text);
    BstNodes(f[c], text);
    NodesAlong(f[c], path);
    if path != [] {
      RepLink(f[c], path, RootAt(c), k);
    }
    forall x: nat | x in Nodes(f[d])
      ensures x < N && SameLinks(k, k', x)
    {
      NodeOf(f, k, text, d, x);
      assert OnlyLink(k, k', x, path, Above(f[c], path, RootAt(c)), s);
    }
    RepFrame(f[d], RootAt(d), k, k');
  }

  lemma ThisTree(f: Forest, k: Links, text: seq<byte>, c: byte, path: seq<bool>, s: BTree, k': Links)
    requires ForestOk(f, k, text) && IsLinks(k') && HasPath(f[c], path)
    requires LocalChange(f, k, text, c, path, s, k') && Fits(f[c], path, s, text) && Bst(s, text)
    requires Rep(s, Above(f[c], path, RootAt(c)), k')
    requires forall y: nat | y in Nodes(s) :: text[y] == c
    ensures TreeOk(Plug(f[c], path, s), c, k', text)
  {
    hide Less, Lcp;
    var t := f[c];
    assert TreeOk(t, c, k, text);
    BstNodes(t, text);
    BstSub(t, path, text);
    NodesAlong(t, path);
    NodesPlug(t, path, s);
    BstPlug(t, path, s, text);
    forall x: nat | x in Before(t, path) + After(t, path)
      ensures x < N && OnlyLink(k, k', x, path, Above(t, path, RootAt(c)), s)
    {
      if x in Nodes(s) || x in Nodes(Sub(t, path)) {
        LessIrreflexive(text, x);
      }
      NodeOf(f, k, text, c, x);
    }
    RepPlug(t, path, s, RootAt(c), k, k');
  }

  /** Exchanging a subtree of one tree keeps the forest, given links for the new subtree. */
  lemma ForestPlug(f: Forest, k: Links, text: seq<byte>, c: byte, path: seq<bool>, s: BTree, k': Links)
    requires ForestOk(f, k, text) && IsLinks(k') && HasPath(f[c], path)
    requires LocalChange(f, k, text, c, path, s, k') && Fits(f[c], path, s, text) && Bst(s, text)
    requires Rep(s, Above(f[c], path, RootAt(c)), k')
    requires forall y: nat | y in Nodes(s) :: text[y] == c
    ensures ForestOk(f[c := Plug(f[c], path, s)], k', text)
  {
    var f' := f[c := Plug(f[c], path, s)];
    forall d: byte
      ensures TreeOk(f'[d], d, k', text)
    {
      if d == c {
        ThisTree(f, k, text, c, path, s, k');
      } else {
        OtherTree(f, k, text, c, path, s, k', d);
      }
    }
    forall x: nat | x < N
      ensures k'.dad[x] != NIL <==> InForest(f', text, x)
    {
      DadTells(f, k, text, c, path, s, k', x);
    }
  }

  lemma {:induction false} RepDads(t: BTree, par: nat, k: Links, x: nat)
    requires IsLinks(k) && Rep(t, par, k) && x in Nodes(t) && par != NIL
    ensures x < N && k.dad[x] != NIL
  {
    if x in Nodes(t.left) {
      RepDads(t.left, t.p, k, x);
    } else if x in Nodes(t.right) {
      RepDads(t.right, t.p, k, x);
    }
  }

  lemma DadTells(f: Forest, k: Links, text: seq<byte>, c: byte, path: seq<bool>, s: BTree, k': Links, x: nat)
    requires ForestOk(f, k, text) && IsLinks(k') && HasPath(f[c], path) && x < N
    requires LocalChange(f, k, text, c, path, s, k')
    requires Rep(s, Above(f[c], path, RootAt(c)), k')
    requires forall y: nat | y in Nodes(s) :: y < N && text[y] == c
    ensures k'.dad[x] != NIL <==> InForest(f[c := Plug(f[c], path, s)], text, x)
  {
    assert TreeOk(f[c], c, k, text);
    NodesAlong(f[c], path);
    NodesPlug(f[c], path, s);
    BstNodes(f[c], text);
    if path != [] {
      RepLink(f[c], path, RootAt(c), k);
    }
    if x in Nodes(s) {
      RepDads(s, Above(f[c], path, RootAt(c)), k', x);
    } else if InForest(f, text, x) && x !in Nodes(Sub(f[c], path)) {
      assert OnlyLink(k, k', x, path, Above(f[c], path, RootAt(c)), s);
    } else if x in Nodes(Sub(f[c], path)) {
      BstSub(f[c], path, text);
      if x in Before(f[c], path) + After(f[c], path) {
        LessIrreflexive(text, x);
      }
    }
  }

  // ---------------------------------------------------------------- link changes

  /** Hang the sons of `p` below `q`. */
  function AdoptLeft(k: Links, p: nat, q: nat): (r: Links)
    requires IsLinks(k) && p < N && q < N && k.lson[p] <= N
    ensures IsLinks(r)
  {
    k.(lson := k.lson[q := k.lson[p]], dad := k.dad[k.lson[p] := q])
  }

  function AdoptRight(k: Links, p: nat, q: nat): (r: Links)
    requires IsLinks(k) && p < N && q < N && k.rson[p] <= N
    ensures IsLinks(r)
  {
    k.(rson := k.rson[q := k.rson[p]], dad := k.dad[k.rson[p] := q])
  }

  /** `p` has a parent whose link to it can be followed. */
  predicate HasParent(k: Links, p: nat)
    requires IsLinks(k) && p < N
  {
    k.dad[p] < N + 257 && (k.rson[k.dad[p]] != p ==> k.dad[p] < N)
  }

  /** Put `q` in the place of `p`, and take `p` out. */
  function Promote(k: Links, p: nat, q: nat): (r: Links)
    requires IsLinks(k) && p < N && q <= N && HasParent(k, p)
    ensures IsLinks(r)
  {
    var a := k.dad[p];
    var dad := k.dad[q := a][p := NIL];
    if k.rson[a] == p then Links(k.lson, k.rson[a := q], dad) else Links(k.lson[a := q], k.rson, dad)
  }

  /** The links below the top of `s` are in place. */
  predicate Seated(s: BTree, k: Links)
    requires IsLinks(k)
  {
    s.Leaf? ||
    (&& s.p < N
     && k.lson[s.p] == Root(s.left)
     && k.rson[s.p] == Root(s.right)
     && Rep(s.left, s.p, k)
     && Rep(s.right, s.p, k))
  }

  /** Everything but the top of the new subtree `s` is in place already. */
  ghost predicate Prepared(f: Forest, k: Links, c: byte, path: seq<bool>, s: BTree, k2: Links)
    requires IsLinks(k) && IsLinks(k2) && HasPath(f[c], path) && Sub(f[c], path).Node? && Sub(f[c], path).p < N
  {
    var u := Sub(f[c], path);
    && u.p !in Nodes(s) && Nodes(u) <= Nodes(s) + {u.p}
    && k2.dad[u.p] == k.dad[u.p]
    && Seated(s, k2)
    && (forall x: nat | x < N && x !in Nodes(u) && x !in Nodes(s) :: SameLinks(k, k2, x))
    && (forall d: byte :: k2.rson[RootAt(d)] == k.rson[RootAt(d)])
  }

  /** What is known about the node at the end of a path and the link that leads to it. */
  lemma ParentLink(f: Forest, k: Links, text: seq<byte>, c: byte, path: seq<bool>)
    requires ForestOk(f, k, text) && HasPath(f[c], path) && Sub(f[c], path).Node?
    ensures var p, a := Sub(f[c], path).p, Above(f[c], path, RootAt(c));
      && p < N && InForest(f, text, p) && text[p] == c
      && k.dad[p] == a < N + 257 && HasParent(k, p)
      && (k.rson[a] == p <==> GoesRight(path))
      && (path == [] ==> a == RootAt(c))
      && (path != [] ==> a < N && a in Before(f[c], path) + After(f[c], path) && a !in Nodes(Sub(f[c], path)))
  {
    var t := f[c];
    assert TreeOk(t, c, k, text);
    BstNodes(t, text);
    NodesAlong(t, path);
    RepSub(t, path, RootAt(c), k);
    if path != [] {
      RepLink(t, path, RootAt(c), k);
    }
  }

  lemma PromotedRep(s: BTree, p: nat, a: nat, k2: Links)
    requires IsLinks(k2) && p < N && HasParent(k2, p) && a == k2.dad[p]
    requires p !in Nodes(s) && a !in Nodes(s) && Distinct(s) && forall x: nat | x in Nodes(s) :: x < N
    requires Seated(s, k2)
    ensures Root(s) <= N && Rep(s, a, Promote(k2, p, Root(s)))
  {
    hide Promote, HasParent, SameLinks;
    if s.Node? {
      var k' := Promote(k2, p, s.p);
      PromotedSame(s, p, a, k2);
      RepFrame(s.left, s.p, k2, k');
      RepFrame(s.right, s.p, k2, k');
    }
  }

  lemma PromotedSame(s: BTree, p: nat, a: nat, k2: Links)
    requires IsLinks(k2) && p < N && HasParent(k2, p) && a == k2.dad[p] && s.Node?
    requires p !in Nodes(s) && a !in Nodes(s) && Distinct(s) && forall x: nat | x in Nodes(s) :: x < N
    ensures var k' := Promote(k2, p, s.p);
      && s.p < N && k'.dad[s.p] == a && k'.lson[s.p] == k2.lson[s.p] && k'.rson[s.p] == k2.rson[s.p]
      && forall x: nat | x in Nodes(s.left) || x in Nodes(s.right) :: x < N && SameLinks(k2, k', x)
  {
    assert s.p in Nodes(s);
  }

  /** Promoting the top of a prepared subtree completes the exchange. */
  lemma PromoteOk(f: Forest, k: Links, text: seq<byte>, c: byte, path: seq<bool>, s: BTree, k2: Links)
    requires ForestOk(f, k, text) && IsLinks(k2)
    requires HasPath(f[c], path) && Sub(f[c], path).Node? && Sub(f[c], path).p < N
    requires Prepared(f, k, c, path, s, k2) && Fits(f[c], path, s, text) && Bst(s, text)
    requires forall y: nat | y in Nodes(s) :: text[y] == c
    ensures HasParent(k2, Sub(f[c], path).p) && Root(s) <= N
    ensures ForestOk(f[c := Plug(f[c], path, s)], Promote(k2, Sub(f[c], path).p, Root(s)), text)
  {
    var p, a := Sub(f[c], path).p, Above(f[c], path, RootAt(c));
    ParentLink(f, k, text, c, path);
    BstNodes(s, text);
    AboveKept(f, k, text, c, path, s, k2);
    PromotedRep(s, p, a, k2);
    PromoteLocal(f, k, text, c, path, s, k2);
    ForestPlug(f, k, text, c, path, s, Promote(k2, p, Root(s)));
  }

  lemma AboveKept(f: Forest, k: Links, text: seq<byte>, c: byte, path: seq<bool>, s: BTree, k2: Links)
    requires ForestOk(f, k, text) && IsLinks(k2)
    requires HasPath(f[c], path) && Sub(f[c], path).Node? && Sub(f[c], path).p < N
    requires Prepared(f, k, c, path, s, k2) && Fits(f[c], path, s, text)
    ensures var p, a := Sub(f[c], path).p, Above(f[c], path, RootAt(c));
      HasParent(k2, p) && k2.dad[p] == a && a !in Nodes(s) && k2.rson[a] == k.rson[a]
  {
    ParentLink(f, k, text, c, path);
    var a := Above(f[c], path, RootAt(c));
    if path != [] {
      if a in Nodes(s) {
        LessIrreflexive(text, a);
      }
      assert SameLinks(k, k2, a);
    }
  }

  lemma PromoteLocal(f: Forest, k: Links, text: seq<byte>, c: byte, path: seq<bool>, s: BTree, k2: Links)
    requires ForestOk(f, k, text) && IsLinks(k2)
    requires HasPath(f[c], path) && Sub(f[c], path).Node? && Sub(f[c], path).p < N
    requires Prepared(f, k, c, path, s, k2) && Fits(f[c], path, s, text)
    requires HasParent(k2, Sub(f[c], path).p) && Root(s) <= N
    ensures LocalChange(f, k, text, c, path, s, Promote(k2, Sub(f[c], path).p, Root(s)))
  {
    var u, a := Sub(f[c], path), Above(f[c], path, RootAt(c));
    var k' := Promote(k2, u.p, Root(s));
    ParentLink(f, k, text, c, path);
    AboveKept(f, k, text, c, path, s, k2);
    forall x: nat | InForest(f, text, x) && x !in Nodes(u) && x !in Nodes(s)
      ensures OnlyLink(k, k', x, path, a, s)
    {
      assert SameLinks(k, k2, x);
    }
    forall x: nat | x < N && x !in Nodes(s) && (x in Nodes(u) || !InForest(f, text, x))
      ensures k'.dad[x] == NIL
    {
      if x != u.p {
        assert SameLinks(k, k2, x);
      }
    }
  }

  // ---------------------------------------------------------------- attaching

  /** A node outside the forest can be given empty sons. */
  lemma ClearOk(f: Forest, k: Links, text: seq<byte>, r: nat)
    requires ForestOk(f, k, text) && r < N && !InForest(f, text, r)
    ensures ForestOk(f, k.(lson := k.lson[r := NIL], rson := k.rson[r := NIL]), text)
  {
    var k' := k.(lson := k.lson[r := NIL], rson := k.rson[r := NIL]);
    forall c: byte
      ensures TreeOk(f[c], c, k', text)
    {
      assert TreeOk(f[c], c, k, text);
      forall x: nat | x in Nodes(f[c])
        ensures x < N && SameLinks(k, k', x)
      {
        NodeOf(f, k, text, c, x);
      }
      RepFrame(f[c], RootAt(c), k, k');
    }
  }

  /** Link the node `r` as a son of `p`. */
  function Attach(k: Links, r: nat, p: nat, right: bool): (k': Links)
    requires IsLinks(k) && r < N && p < N + 257 && (!right ==> p < N)
    ensures IsLinks(k')
  {
    if right then k.(rson := k.rson[p := r], dad := k.dad[r := p]) else k.(lson := k.lson[p := r], dad := k.dad[r := p])
  }

  lemma AttachOk(f: Forest, k: Links, text: seq<byte>, c: byte, path: seq<bool>, r: nat)
    requires ForestOk(f, k, text) && HasPath(f[c], path) && Sub(f[c], path).Leaf?
    requires r < N && !InForest(f, text, r) && text[r] == c && k.lson[r] == k.rson[r] == NIL
    requires Fits(f[c], path, Node(Leaf, r, Leaf), text)
    ensures var a := Above(f[c], path, RootAt(c)); a < N + 257 && (!GoesRight(path) ==> a < N)
    ensures ForestOk(f[c := Plug(f[c], path, Node(Leaf, r, Leaf))],
                     Attach(k, r, Above(f[c], path, RootAt(c)), GoesRight(path)), text)
  {
    var s, a := Node(Leaf, r, Leaf), Above(f[c], path, RootAt(c));
    assert TreeOk(f[c], c, k, text);
    BstNodes(f[c], text);
    NodesAlong(f[c], path);
    if path != [] {
      RepLink(f[c], path, RootAt(c), k);
    }
    var k' := Attach(k, r, a, GoesRight(path));
    assert a != r;
    forall x: nat | InForest(f, text, x) && x !in Nodes(s)
      ensures OnlyLink(k, k', x, path, a, s)
    {
    }
    ForestPlug(f, k, text, c, path, s, k');
  }

  // ---------------------------------------------------------------- replacing

  lemma SameLcp(text: seq<byte>, p: nat, r: nat, x: nat)
    requires IsText(text) && p < N && r < N && x < N && Lcp(text, p, r) == F
    ensures Lcp(text, p, x) == Lcp(text, r, x)
    ensures forall j: nat | j < F :: Char(text, p, j) == Char(text, r, j)
  {
    hide Char;
    LcpIs(text, r, x, 0, Lcp(text, p, x));
  }

  lemma SameString(text: seq<byte>, p: nat, r: nat, x: nat)
    requires IsText(text) && p < N && r < N && x < N && Lcp(text, p, r) == F
    ensures Less(text, x, p) <==> Less(text, x, r)
    ensures Less(text, p, x) <==> Less(text, r, x)
    ensures Lcp(text, p, x) == Lcp(text, r, x)
  {
    hide Lcp, Char;
    SameLcp(text, p, r, x);
    LcpSymmetric(text, p, x);
    LcpSymmetric(text, r, x);
  }

  /** What `insert_node` does when it finds the whole string: `r` takes the place of `p`. */
  function Takeover(k: Links, p: nat, r: nat): Links
    requires IsLinks(k) && p < N && r < N && k.lson[p] <= N && k.rson[p] <= N && HasParent(k, p)
    requires HasParent(AdoptRight(AdoptLeft(k, p, r), p, r), p)
  {
    Promote(AdoptRight(AdoptLeft(k, p, r), p, r), p, r)
  }

  lemma TakeoverPrepared(f: Forest, k: Links, text: seq<byte>, c: byte, path: seq<bool>, r: nat)
    requires ForestOk(f, k, text) && HasPath(f[c], path) && Sub(f[c], path).Node?
    requires r < N && !InForest(f, text, r) && text[r] == c
    ensures var u := Sub(f[c], path);
      u.p < N && k.lson[u.p] <= N && k.rson[u.p] <= N
      && Prepared(f, k, c, path, Node(u.left, r, u.right), AdoptRight(AdoptLeft(k, u.p, r), u.p, r))
  {
    hide ForestOk, InForest, Bst, Sub, HasPath, Above, AdoptLeft, AdoptRight, SameLinks;
    var u := Sub(f[c], path);
    SubtreeKnown(f, k, text, c, path);
    SonsKnown(u, Above(f[c], path, RootAt(c)), k);
    ChildrenMoved(u, k, r);
    RootsAdopted(k, u.p, r);
  }

  lemma RootsAdopted(k: Links, p: nat, q: nat)
    requires IsLinks(k) && p < N && q < N && k.lson[p] <= N && k.rson[p] <= N
    ensures AdoptLeft(k, p, q).rson == k.rson
    ensures forall d: byte :: AdoptRight(AdoptLeft(k, p, q), p, q).rson[RootAt(d)] == k.rson[RootAt(d)]
  {
  }

  lemma SonsKnown(u: BTree, par: nat, k: Links)
    requires IsLinks(k) && Rep(u, par, k) && u.Node?
    ensures u.p < N && k.lson[u.p] == Root(u.left) <= N && k.rson[u.p] == Root(u.right) <= N
    ensures Rep(u.left, u.p, k) && Rep(u.right, u.p, k)
    ensures u.p in Nodes(u) && Nodes(u) == Nodes(u.left) + {u.p} + Nodes(u.right)
  {
    RepNodes(u.left, u.p, k);
    RepNodes(u.right, u.p, k);
  }

  /** What is known about a subtree of the forest. */
  lemma SubtreeKnown(f: Forest, k: Links, text: seq<byte>, c: byte, path: seq<bool>)
    requires ForestOk(f, k, text) && HasPath(f[c], path)
    ensures IsLinks(k) && IsText(text)
    ensures var u := Sub(f[c], path);
      && Rep(u, Above(f[c], path, RootAt(c)), k) && Bst(u, text) && Distinct(u)
      && forall x: nat | x in Nodes(u) :: x < N && InForest(f, text, x)
  {
    hide Less, Lcp;
    assert TreeOk(f[c], c, k, text);
    BstSub(f[c], path, text);
    BstNodes(Sub(f[c], path), text);
    NodesAlong(f[c], path);
    RepSub(f[c], path, RootAt(c), k);
  }

  lemma ChildrenMoved(u: BTree, k: Links, q: nat)
    requires IsLinks(k) && u.Node? && u.p < N && q < N && q !in Nodes(u) && Distinct(u)
    requires k.lson[u.p] == Root(u.left) && k.rson[u.p] == Root(u.right)
    requires Rep(u.left, u.p, k) && Rep(u.right, u.p, k) && forall x: nat | x in Nodes(u) :: x < N
    ensures Root(u.left) <= N && Root(u.right) <= N
    ensures var k2 := AdoptRight(AdoptLeft(k, u.p, q), u.p, q);
      && Rep(u.left, q, k2) && Rep(u.right, q, k2)
      && k2.lson[q] == Root(u.left) && k2.rson[q] == Root(u.right)
      && (forall x: nat | x < N && x !in Nodes(u) && x != q :: SameLinks(k, k2, x))
      && k2.dad[u.p] == k.dad[u.p]
  {
    RepNodes(u.left, u.p, k);
    RepNodes(u.right, u.p, k);
    var k2 := AdoptRight(AdoptLeft(k, u.p, q), u.p, q);
    assert Nodes(u.left) <= Nodes(u) && Nodes(u.right) <= Nodes(u);
    assert u.left.Node? ==> u.left.p in Nodes(u.left);
    assert u.right.Node? ==> u.right.p in Nodes(u.right);
    RepMoved(u.left, u.p, k, q, k2);
    RepMoved(u.right, u.p, k, q, k2);
  }

  /** A node with the same string takes the place of another without disturbing the order. */
  lemma TakeoverFits(t: BTree, path: seq<bool>, text: seq<byte>, r: nat)
    requires IsText(text) && Bst(t, text) && HasPath(t, path) && Sub(t, path).Node? && r < N
    requires Sub(t, path).p < N && Lcp(text, Sub(t, path).p, r) == F
    ensures var u := Sub(t, path); Bst(Node(u.left, r, u.right), text) && Fits(t, path, Node(u.left, r, u.right), text)
  {
    var u := Sub(t, path);
    BstSub(t, path, text);
    BstNodes(t, text);
    NodesAlong(t, path);
    forall x: nat | x in Nodes(t)
      ensures Less(text, x, u.p) <==> Less(text, x, r)
      ensures Less(text, u.p, x) <==> Less(text, r, x)
    {
      SameString(text, u.p, r, x);
    }
  }

  lemma TakeoverOk(f: Forest, k: Links, text: seq<byte>, c: byte, path: seq<bool>, r: nat)
    requires ForestOk(f, k, text) && HasPath(f[c], path) && Sub(f[c], path).Node?
    requires r < N && !InForest(f, text, r) && text[r] == c
    requires Sub(f[c], path).p < N && Lcp(text, Sub(f[c], path).p, r) == F
    ensures var u := Sub(f[c], path);
      && HasParent(k, u.p) && k.lson[u.p] <= N && k.rson[u.p] <= N
      && HasParent(AdoptRight(AdoptLeft(k, u.p, r), u.p, r), u.p)
      && ForestOk(f[c := Plug(f[c], path, Node(u.left, r, u.right))], Takeover(k, u.p, r), text)
  {
    var u := Sub(f[c], path);
    assert TreeOk(f[c], c, k, text);
    ParentLink(f, k, text, c, path);
    TakeoverPrepared(f, k, text, c, path, r);
    TakeoverFits(f[c], path, text, r);
    NodesAlong(f[c], path);
    PromoteOk(f, k, text, c, path, Node(u.left, r, u.right), AdoptRight(AdoptLeft(k, u.p, r), u.p, r));
  }
}
