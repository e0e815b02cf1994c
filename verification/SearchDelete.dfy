/** Deleting a node of a search tree: its place is taken by its only son or by the last node of its left subtree. */
module SearchDelete {
  import opened Prelude
  import opened SearchTree
  import opened SearchForest

  predicate AllRight(path: seq<bool>) {
    forall i: nat | i < |path| :: path[i]
  }

  lemma {:induction false} NothingAfter(t: BTree, path: seq<bool>)
    requires HasPath(t, path) && AllRight(path)
    ensures After(t, path) == {}
  {
    if path != [] {
      assert path[0];
      forall i: nat | i < |path[1..]|
        ensures path[1..][i]
      {
        assert path[i + 1];
      }
      NothingAfter(t.right, path[1..]);
    }
  }

  /** The subtree without its top node `u.p`; `rights` leads to the last node of the left subtree. */
  function Removed(u: BTree, rights: seq<bool>): BTree
    requires u.Node? && HasPath(u.left, rights) && (u.left.Node? ==> Sub(u.left, rights).Node?)
  {
    if u.right.Leaf? then u.left
    else if u.left.Leaf? then u.right
    else var q := Sub(u.left, rights); Node(Plug(u.left, rights, q.left), q.p, u.right)
  }

  /** `rights` leads down the right spine of the left subtree to its end. */
  predicate LastOfLeft(u: BTree, rights: seq<bool>) {
    && u.Node?
    && AllRight(rights)
    && HasPath(u.left, rights)
    && (u.left.Leaf? ==> rights == [])
    && (u.left.Node? ==> Sub(u.left, rights).Node? && Sub(u.left, rights).right.Leaf?)
  }

  /** Cut out the last node `q` of a left subtree; its left son moves up. */
  function CutOut(k: Links, q: nat): (r: Links)
    requires IsLinks(k) && q < N && k.dad[q] < N && k.lson[q] <= N
    ensures IsLinks(r)
  {
    k.(rson := k.rson[k.dad[q] := k.lson[q]], dad := k.dad[k.lson[q] := k.dad[q]])
  }

  /** The subtree without its top node holds exactly the other nodes, in order. */
  lemma RemovedBst(u: BTree, rights: seq<bool>, text: seq<byte>)
    requires IsText(text) && Bst(u, text) && LastOfLeft(u, rights)
    ensures Bst(Removed(u, rights), text)
    ensures Nodes(Removed(u, rights)) == Nodes(u) - {u.p}
  {
    BstNodes(u, text);
    if u.right.Node? && u.left.Node? {
      var q := Sub(u.left, rights);
      CutOutBst(u.left, rights, text);
      SpineJoins(Plug(u.left, rights, q.left), q.p, u, text);
    }
  }

  /** With two sons the greatest string of the left one takes the top, and the right one stays; with one son that one
      moves up whole. */
  lemma RemovedTop(u: BTree, rights: seq<bool>, text: seq<byte>)
    requires IsText(text) && Bst(u, text) && LastOfLeft(u, rights)
    ensures var r := Removed(u, rights);
      && (u.right.Leaf? ==> r == u.left)
      && (u.left.Leaf? && u.right.Node? ==> r == u.right)
      && (u.left.Node? && u.right.Node? ==>
        && r.Node? && r.right == u.right && r.p in Nodes(u.left) && Nodes(r.left) == Nodes(u.left) - {r.p}
        && forall x: nat | x in Nodes(r.left) :: x < N && r.p < N && Less(text, x, r.p))
  {
    hide Less, Plug, Distinct;
    BstNodes(u, text);
    if u.right.Node? && u.left.Node? {
      CutOutBst(u.left, rights, text);
    }
  }

  lemma SpineJoins(l: BTree, q: nat, u: BTree, text: seq<byte>)
    requires IsText(text) && Bst(u, text) && u.Node? && Distinct(u)
    requires Bst(l, text) && q in Nodes(u.left) && Nodes(l) == Nodes(u.left) - {q}
    requires forall x: nat | x in Nodes(l) :: x < N && q < N && Less(text, x, q)
    ensures Bst(Node(l, q, u.right), text) && Nodes(Node(l, q, u.right)) == Nodes(u) - {u.p}
  {
    forall x: nat | x in Nodes(u.right)
      ensures Less(text, q, x)
    {
      LessBetween(text, q, u.p, x);
    }
  }

  lemma CutOutBst(t: BTree, rights: seq<bool>, text: seq<byte>)
    requires IsText(text) && Bst(t, text) && HasPath(t, rights) && AllRight(rights)
    requires Sub(t, rights).Node? && Sub(t, rights).right.Leaf?
    ensures var q := Sub(t, rights); var l := Plug(t, rights, q.left);
      Bst(l, text) && q.p in Nodes(t) && Nodes(l) == Nodes(t) - {q.p}
      && forall x: nat | x in Nodes(l) :: x < N && q.p < N && Less(text, x, q.p)
  {
    hide Less, Lcp, Distinct, Plug;
    var q := Sub(t, rights);
    BstSub(t, rights, text);
    BstNodes(t, text);
    NodesAlong(t, rights);
    NodesPlug(t, rights, q.left);
    NothingAfter(t, rights);
    BstPlug(t, rights, q.left, text);
    LessIrreflexive(text, q.p);
  }

  /** The links `k2` after the preparation, as `delete_node` makes it. */
  function Prepare(u: BTree, rights: seq<bool>, ghost par: nat, k: Links): (r: Links)
    requires IsLinks(k) && LastOfLeft(u, rights) && Rep(u, par, k)
    ensures IsLinks(r)
  {
    RepNodes(u.right, u.p, k);
    RepNodes(u.left, u.p, k);
    RepSub(u.left, rights, u.p, k);
    if u.right.Leaf? || u.left.Leaf? then k
    else
      var q := Sub(u.left, rights).p;
      if rights == [] then AdoptRight(k, u.p, q)
      else
        SpineLink(u.left, rights, u.p, k);
        AdoptRight(AdoptLeft(CutOut(k, q), u.p, q), u.p, q)
  }

  lemma SpineLink(t: BTree, rights: seq<bool>, par: nat, k: Links)
    requires IsLinks(k) && Rep(t, par, k) && HasPath(t, rights) && rights != [] && AllRight(rights)
    requires Sub(t, rights).Node?
    ensures var q := Sub(t, rights);
      q.p < N && k.dad[q.p] < N && k.dad[q.p] == Above(t, rights, par) && k.lson[q.p] == Root(q.left) <= N
  {
    RepSub(t, rights, par, k);
    RepNodes(Sub(t, rights), Above(t, rights, par), k);
    RepNodes(Sub(t, rights).left, Sub(t, rights).p, k);
    AboveIsNode(t, rights, par, k);
  }

  lemma {:induction false} AboveIsNode(t: BTree, path: seq<bool>, par: nat, k: Links)
    requires IsLinks(k) && Rep(t, par, k) && HasPath(t, path) && path != []
    ensures Above(t, path, par) < N
  {
    if path[1..] != [] {
      AboveIsNode(if path[0] then t.right else t.left, path[1..], t.p, k);
    }
  }

  /** Case of a left subtree that ends right at its top. */
  lemma PrepareTop(u: BTree, par: nat, k: Links)
    requires IsLinks(k) && Rep(u, par, k) && Distinct(u)
    requires u.Node? && u.left.Node? && u.right.Node? && u.left.right.Leaf?
    ensures Root(u.right) <= N && u.left.p < N
    ensures var q := u.left.p; var k2 := AdoptRight(k, u.p, q);
      && Seated(Node(u.left.left, q, u.right), k2)
      && (forall x: nat | x < N && x !in Nodes(u) :: SameLinks(k, k2, x))
      && k2.dad[u.p] == k.dad[u.p]
  {
    RepNodes(u, par, k);
    RepNodes(u.right, u.p, k);
    var q := u.left.p;
    var k2 := AdoptRight(k, u.p, q);
    assert Nodes(u.left.left) <= Nodes(u.left) <= Nodes(u) && Nodes(u.right) <= Nodes(u);
    assert u.right.p in Nodes(u.right) && q in Nodes(u.left);
    RepFrame(u.left.left, q, k, k2);
    RepMoved(u.right, u.p, k, q, k2);
  }

  /** Cutting out the last node of the left subtree leaves the rest of it linked. */
  lemma CutOutRep(t: BTree, rights: seq<bool>, par: nat, k: Links)
    requires IsLinks(k) && Rep(t, par, k) && Distinct(t) && HasPath(t, rights) && rights != [] && AllRight(rights)
    requires Sub(t, rights).Node? && Sub(t, rights).right.Leaf?
    ensures var q := Sub(t, rights);
      && q.p < N && k.dad[q.p] < N && k.lson[q.p] <= N
      && Rep(Plug(t, rights, q.left), par, CutOut(k, q.p))
      && Root(Plug(t, rights, q.left)) == Root(t)
      && (forall x: nat | x < N && x !in Nodes(t) :: SameLinks(k, CutOut(k, q.p), x))
  {
    hide AllRight, Distinct, Plug, GoesRight, SameLinks, OnlyLink;
    var q, a := Sub(t, rights), Above(t, rights, par);
    SpineLink(t, rights, par, k);
    SubLinks(t, rights, par, k);
    var k1 := CutOut(k, q.p);
    CutOutMoves(q, a, k);
    CutOutLinks(t, rights, par, k);
    RepPlug(t, rights, q.left, par, k, k1);
    TopStays(t, rights, q.left);
  }

  lemma TopStays(t: BTree, path: seq<bool>, s: BTree)
    requires HasPath(t, path) && path != []
    ensures Root(Plug(t, path, s)) == Root(t)
  {
  }

  /** The end of a path, its links, and the link to it. */
  lemma SubLinks(t: BTree, rights: seq<bool>, par: nat, k: Links)
    requires IsLinks(k) && Rep(t, par, k) && Distinct(t) && HasPath(t, rights) && rights != [] && AllRight(rights)
    requires Sub(t, rights).Node?
    ensures var q, a := Sub(t, rights), Above(t, rights, par);
      && Rep(q, a, k) && Distinct(q) && GoesRight(rights)
      && a < N && a in Nodes(t) && a !in Nodes(q) && k.rson[a] == q.p
      && (forall x: nat | x in Nodes(t) :: x < N)
      && Nodes(t) == Before(t, rights) + Nodes(q) + After(t, rights)
      && (Before(t, rights) + After(t, rights)) !! Nodes(q)
  {
    RepNodes(t, par, k);
    RepLink(t, rights, par, k);
    NodesAlong(t, rights);
    DistinctSub(t, rights);
    RepSub(t, rights, par, k);
  }

  lemma CutOutMoves(q: BTree, a: nat, k: Links)
    requires IsLinks(k) && Rep(q, a, k) && Distinct(q) && q.Node? && q.p < N && a < N && a !in Nodes(q)
    requires k.dad[q.p] == a && k.lson[q.p] == Root(q.left) <= N
    ensures Rep(q.left, a, CutOut(k, q.p))
  {
    var k1 := CutOut(k, q.p);
    RepNodes(q.left, q.p, k);
    assert q.left.Node? ==> q.left.p in Nodes(q.left);
    RepMoved(q.left, q.p, k, a, k1);
  }

  lemma CutOutLinks(t: BTree, rights: seq<bool>, par: nat, k: Links)
    requires IsLinks(k) && Rep(t, par, k) && Distinct(t) && HasPath(t, rights) && rights != [] && AllRight(rights)
    requires Sub(t, rights).Node? && Sub(t, rights).right.Leaf?
    requires Sub(t, rights).p < N && k.dad[Sub(t, rights).p] < N && k.lson[Sub(t, rights).p] <= N
    ensures var q, a := Sub(t, rights), Above(t, rights, par); var k1 := CutOut(k, q.p);
      && (forall x: nat | x in Before(t, rights) + After(t, rights) :: x < N && OnlyLink(k, k1, x, rights, a, q.left))
      && (forall x: nat | x < N && x !in Nodes(t) :: SameLinks(k, k1, x))
  {
    hide Nodes, Before, After, Above, Sub, HasPath, Distinct, AllRight, GoesRight, Rep;
    SpineLink(t, rights, par, k);
    SubLinks(t, rights, par, k);
    TopIsNode(Sub(t, rights));
  }

  lemma TopIsNode(q: BTree)
    ensures q.Node? ==> q.p in Nodes(q) && Nodes(q.left) <= Nodes(q)
    ensures q.Node? && q.left.Node? ==> q.left.p in Nodes(q)
  {
  }

  lemma {:induction false} DistinctSub(t: BTree, path: seq<bool>)
    requires Distinct(t) && HasPath(t, path)
    ensures Distinct(Sub(t, path))
    ensures (Before(t, path) + After(t, path)) !! Nodes(Sub(t, path))
  {
    if path != [] {
      var child := if path[0] then t.right else t.left;
      DistinctSub(child, path[1..]);
      NodesAlong(child, path[1..]);
    }
  }

  /** After the preparation everything below the top of the new subtree is linked, and nothing outside has changed. */
  lemma PrepareSeated(u: BTree, rights: seq<bool>, par: nat, k: Links)
    requires IsLinks(k) && LastOfLeft(u, rights) && Rep(u, par, k) && Distinct(u)
    ensures var k2 := Prepare(u, rights, par, k);
      && Seated(Removed(u, rights), k2)
      && (forall x: nat | x < N && x !in Nodes(u) :: SameLinks(k, k2, x))
      && u.p < N && k2.dad[u.p] == k.dad[u.p]
  {
    if u.right.Node? && u.left.Node? {
      if rights == [] {
        PrepareTop(u, par, k);
      } else {
        PrepareSpine(u, rights, par, k);
      }
    }
  }

  lemma PrepareSpine(u: BTree, rights: seq<bool>, par: nat, k: Links)
    requires IsLinks(k) && LastOfLeft(u, rights) && Rep(u, par, k) && Distinct(u)
    requires u.right.Node? && u.left.Node? && rights != []
    ensures var k2 := Prepare(u, rights, par, k);
      && Seated(Removed(u, rights), k2)
      && (forall x: nat | x < N && x !in Nodes(u) :: SameLinks(k, k2, x))
      && k2.dad[u.p] == k.dad[u.p]
  {
    var q := Sub(u.left, rights);
    CutOutRep(u.left, rights, u.p, k);
    var k1, l := CutOut(k, q.p), Plug(u.left, rights, q.left);
    RepNodes(u, par, k);
    SpineNodes(u.left, rights);
    assert Nodes(u.right) <= Nodes(u) && Nodes(u.left) <= Nodes(u);
    assert SameLinks(k, k1, u.p);
    RepFrame(u.right, u.p, k, k1);
    ChildrenMoved(Node(l, u.p, u.right), k1, q.p);
  }

  lemma SpineNodes(t: BTree, rights: seq<bool>)
    requires Distinct(t) && HasPath(t, rights) && Sub(t, rights).Node? && Sub(t, rights).right.Leaf?
    ensures var q := Sub(t, rights); var l := Plug(t, rights, q.left);
      q.p in Nodes(t) && Nodes(l) == Nodes(t) - {q.p} && Distinct(l)
  {
    var q := Sub(t, rights);
    NodesAlong(t, rights);
    DistinctSub(t, rights);
    NodesPlug(t, rights, q.left);
    DistinctPlug(t, rights, q.left);
  }

  lemma {:induction false} DistinctPlug(t: BTree, path: seq<bool>, s: BTree)
    requires Distinct(t) && HasPath(t, path) && Distinct(s) && Nodes(s) <= Nodes(Sub(t, path))
    ensures Distinct(Plug(t, path, s))
  {
    if path != [] {
      var child := if path[0] then t.right else t.left;
      DistinctPlug(child, path[1..], s);
      NodesAlong(child, path[1..]);
      NodesPlug(child, path[1..], s);
    }
  }

  lemma DeletePrepared(f: Forest, k: Links, text: seq<byte>, c: byte, path: seq<bool>, rights: seq<bool>)
    requires ForestOk(f, k, text) && HasPath(f[c], path) && Sub(f[c], path).Node? && LastOfLeft(Sub(f[c], path), rights)
    ensures var u := Sub(f[c], path); var a := Above(f[c], path, RootAt(c)); var s := Removed(u, rights);
      && u.p < N && Rep(u, a, k) && Bst(u, text)
      && Bst(s, text) && Nodes(s) == Nodes(u) - {u.p}
      && Prepared(f, k, c, path, s, Prepare(u, rights, a, k))
  {
    hide ForestOk, InForest, Bst, Removed, Sub, HasPath, Above, LastOfLeft, Distinct, Rep, Prepare, Nodes;
    var u, a := Sub(f[c], path), Above(f[c], path, RootAt(c));
    SubtreeKnown(f, k, text, c, path);
    RemovedBst(u, rights, text);
    PrepareSeated(u, rights, a, k);
    RootsKept(u, rights, a, k);
  }

  /** `delete_node` on links: prepare the subtree and promote its new top. */
  lemma DeleteOk(f: Forest, k: Links, text: seq<byte>, c: byte, path: seq<bool>, rights: seq<bool>)
    requires ForestOk(f, k, text) && HasPath(f[c], path) && Sub(f[c], path).Node? && LastOfLeft(Sub(f[c], path), rights)
    ensures var u := Sub(f[c], path); var a := Above(f[c], path, RootAt(c)); var s := Removed(u, rights);
      && u.p < N && Rep(u, a, k) && HasParent(Prepare(u, rights, a, k), u.p) && Root(s) <= N
      && ForestOk(f[c := Plug(f[c], path, s)], Promote(Prepare(u, rights, a, k), u.p, Root(s)), text)
      && Nodes(Plug(f[c], path, s)) == Nodes(f[c]) - {u.p}
  {
    hide ForestOk, InForest, Bst, Sub, HasPath, Above, Distinct, Less, Removed, Rep, Prepare, Promote, Prepared,
      HasParent, Plug, Nodes, Before, After;
    var u, a := Sub(f[c], path), Above(f[c], path, RootAt(c));
    var s := Removed(u, rights);
    DeletePrepared(f, k, text, c, path, rights);
    SubtreeKnown(f, k, text, c, path);
    RemovedFits(f, k, text, c, path, s);
    PromoteOk(f, k, text, c, path, s, Prepare(u, rights, a, k));
  }

  lemma RemovedFits(f: Forest, k: Links, text: seq<byte>, c: byte, path: seq<bool>, s: BTree)
    requires ForestOk(f, k, text) && HasPath(f[c], path) && Sub(f[c], path).Node?
    requires Nodes(s) == Nodes(Sub(f[c], path)) - {Sub(f[c], path).p}
    ensures Fits(f[c], path, s, text) && forall y: nat | y in Nodes(s) :: text[y] == c
    ensures Nodes(Plug(f[c], path, s)) == Nodes(f[c]) - {Sub(f[c], path).p}
  {
    hide Less, Lcp;
    var t, u := f[c], Sub(f[c], path);
    assert TreeOk(t, c, k, text);
    BstSub(t, path, text);
    BstNodes(t, text);
    NodesAlong(t, path);
    DistinctSub(t, path);
    NodesPlug(t, path, s);
  }

  lemma RootsKept(u: BTree, rights: seq<bool>, par: nat, k: Links)
    requires IsLinks(k) && LastOfLeft(u, rights) && Rep(u, par, k)
    ensures forall d: byte :: Prepare(u, rights, par, k).rson[RootAt(d)] == k.rson[RootAt(d)]
  {
    if u.right.Node? && u.left.Node? && rights != [] {
      SpineLink(u.left, rights, u.p, k);
    }
  }
}
