/** The state `_lzss_encode` keeps in its enclosing scope, with `insert_node` and `delete_node` updating it in place. */
module Matcher {
  import opened Prelude
  import opened SearchTree
  import opened SearchForest
  import opened SearchDelete

  /** How far back the string at `q` lies from the string at `r` on the ring. */
  function Distance(q: nat, r: nat): nat
    requires q < N && r < N
  {
    (r - q) % N
  }

  /** `len` and `pos` describe a longest match for the string at `r` among the strings of the forest; lengths up to
      THRESHOLD are not told apart. */
  ghost predicate BestMatch(f: Forest, text: seq<byte>, r: nat, len: nat, pos: nat)
    requires IsText(text) && r < N
  {
    && (len > THRESHOLD ==>
      exists q: nat :: InForest(f, text, q) && Lcp(text, q, r) == len && Distance(q, r) == pos + 1)
    && forall x: nat | InForest(f, text, x) :: Lcp(text, x, r) <= (if len > THRESHOLD then len else THRESHOLD)
  }

  /** The search for the place of `r` has arrived at the end of `path`. */
  ghost predicate Arrived(t: BTree, text: seq<byte>, path: seq<bool>, r: nat)
    requires IsText(text) && r < N
  {
    && HasPath(t, path)
    && (forall x: nat | x in Before(t, path) :: x < N && Less(text, x, r))
    && (forall x: nat | x in After(t, path) :: x < N && Less(text, r, x))
  }

  /** No string passed so far shares more than `m` bytes with the one at `r`. */
  ghost predicate Passed(t: BTree, text: seq<byte>, path: seq<bool>, r: nat, m: nat)
    requires IsText(text) && r < N && HasPath(t, path)
  {
    forall x: nat | x in Before(t, path) + After(t, path) :: x < N && Lcp(text, x, r) <= m
  }

  lemma ArrivedStep(t: BTree, text: seq<byte>, path: seq<bool>, r: nat, m: nat, m': nat)
    requires IsText(text) && r < N && Bst(t, text) && Arrived(t, text, path, r) && Passed(t, text, path, r, m)
    requires Sub(t, path).Node? && Sub(t, path).p < N && Lcp(text, Sub(t, path).p, r) < F
    requires m <= m' && Lcp(text, Sub(t, path).p, r) <= m'
    ensures var path' := path + [Less(text, Sub(t, path).p, r)];
      && HasPath(t, path')
      && Arrived(t, text, path', r) && Passed(t, text, path', r, m')
      && Sub(t, path') == (if Less(text, Sub(t, path).p, r) then Sub(t, path).right else Sub(t, path).left)
      && forall par: nat :: Above(t, path', par) == Sub(t, path).p
  {
    hide Bst, Less, Lcp, Before, After, Nodes, Sub, HasPath, Above;
    var u := Sub(t, path);
    var d := Less(text, u.p, r);
    BstSub(t, path, text);
    SideOrder(u, text, r);
    PathStep(t, path, d, 0);
    forall par: nat
      ensures Above(t, path + [d], par) == u.p
    {
      PathStep(t, path, d, par);
    }
  }

  /** Whichever side the search leaves behind lies on the other side of `r`, and shares no more with it than the top. */
  lemma SideOrder(u: BTree, text: seq<byte>, r: nat)
    requires IsText(text) && r < N && Bst(u, text) && u.Node? && Lcp(text, u.p, r) < F
    ensures u.p < N && (Less(text, r, u.p) <==> !Less(text, u.p, r))
    ensures Less(text, u.p, r) ==>
      forall x: nat | x in Nodes(u.left) :: x < N && Less(text, x, r) && Lcp(text, x, r) <= Lcp(text, u.p, r)
    ensures !Less(text, u.p, r) ==>
      forall x: nat | x in Nodes(u.right) :: x < N && Less(text, r, x) && Lcp(text, x, r) <= Lcp(text, u.p, r)
  {
    LessTotal(text, u.p, r);
    var d := Less(text, u.p, r);
    forall x: nat | x in (if d then Nodes(u.left) else Nodes(u.right))
      ensures x < N && Lcp(text, x, r) <= Lcp(text, u.p, r) && (if d then Less(text, x, r) else Less(text, r, x))
    {
      PassedBy(text, x, u.p, r, d);
    }
  }

  lemma PassedBy(text: seq<byte>, x: nat, p: nat, r: nat, d: bool)
    requires IsText(text) && x < N && p < N && r < N
    requires if d then Less(text, x, p) && Less(text, p, r) else Less(text, p, x) && Less(text, r, p)
    ensures if d then Less(text, x, r) else Less(text, r, x)
    ensures Lcp(text, x, r) <= Lcp(text, p, r)
  {
    LcpSymmetric(text, x, r);
    LcpSymmetric(text, p, r);
    if d {
      LessBetween(text, x, p, r);
    } else {
      LessBetween(text, r, p, x);
    }
  }

  /** The nodes the path leads through. */
  function Visited(t: BTree, path: seq<bool>): set<nat>
    requires HasPath(t, path)
  {
    if path == [] then {} else {t.p} + Visited(if path[0] then t.right else t.left, path[1..])
  }

  lemma {:induction false} VisitedStep(t: BTree, path: seq<bool>, d: bool)
    requires HasPath(t, path) && Sub(t, path).Node?
    ensures HasPath(t, path + [d]) && Visited(t, path + [d]) == Visited(t, path) + {Sub(t, path).p}
  {
    var next := path + [d];
    if path == [] {
      assert next[1..] == [];
    } else {
      VisitedStep(if path[0] then t.right else t.left, path[1..], d);
      assert next[1..] == path[1..] + [d];
    }
  }

  lemma NoneVisited(t: BTree)
    ensures HasPath(t, []) && Visited(t, []) == {}
  {
  }

  /** None of these strings is a longer match for the one at `r`, and of those as long as `len` none is nearer than
      `pos` says. */
  ghost predicate Nearest(seen: set<nat>, text: seq<byte>, r: nat, len: nat, pos: nat)
    requires IsText(text) && r < N
  {
    forall x: nat | x in seen ::
      && x < N && Lcp(text, x, r) <= Bound(len)
      && (len > THRESHOLD && Lcp(text, x, r) == len ==> pos + 1 <= Distance(x, r))
  }

  lemma NearestStep(seen: set<nat>, text: seq<byte>, r: nat, len: nat, pos: nat, p: nat, len': nat, pos': nat)
    requires IsText(text) && r < N && p < N && p != r && Nearest(seen, text, r, len, pos)
    requires len' == if Lcp(text, p, r) > THRESHOLD && Lcp(text, p, r) > len then Lcp(text, p, r) else len
    requires var d := Distance(p, r) - 1;
      pos' == (if len' > len then d
               else if Lcp(text, p, r) > THRESHOLD && Lcp(text, p, r) == len' && d < pos then d
               else pos)
    ensures Nearest(seen + {p}, text, r, len', pos')
  {
    hide Lcp, Distance;
  }

  lemma NoneNearer(text: seq<byte>, r: nat, pos: nat)
    requires IsText(text) && r < N
    ensures Nearest({}, text, r, 0, pos)
  {
  }

  function EmptyForest(): Forest {
    seq(256, _ => Leaf)
  }

  lemma EmptyForestOk(k: Links, text: seq<byte>)
    requires IsLinks(k) && IsText(text)
    requires forall c: byte :: k.rson[RootAt(c)] == NIL
    requires forall x: nat | x < N :: k.dad[x] == NIL
    ensures ForestOk(EmptyForest(), k, text)
    ensures forall x: nat :: !InForest(EmptyForest(), text, x)
  {
  }

  class Matcher {
    const text_buf: array<byte>
    const lson: array<nat>
    const rson: array<nat>
    const dad: array<nat>
    var match_position: nat
    var match_length: nat
    ghost var forest: Forest

    ghost function Model(): Links
      reads lson, rson, dad
    {
      Links(lson[..], rson[..], dad[..])
    }

    ghost predicate Separate() {
      lson != rson && lson != dad && rson != dad
    }

    ghost predicate Valid()
      reads this, text_buf, lson, rson, dad
    {
      Separate() && ForestOk(forest, Model(), text_buf[..])
    }

    /** `init_tree`: a zeroed buffer and 256 empty trees. */
    constructor ()
      ensures Valid() && fresh(text_buf) && fresh(lson) && fresh(rson) && fresh(dad)
      ensures text_buf.Length == N + F - 1 && forall i: nat | i < text_buf.Length :: text_buf[i] == 0
      ensures forall x: nat :: !InForest(forest, text_buf[..], x)
    {
      text_buf := new byte[N + F - 1](_ => 0);
      lson := new nat[N + 1](_ => 0);
      rson := new nat[N + 257](i => if i > N then NIL else 0);
      dad := new nat[N + 1](i => if i < N then NIL else 0);
      match_position, match_length := 0, 0;
      forest := EmptyForest();
      new;
      EmptyForestOk(Model(), text_buf[..]);
    }

    /** The comparison loop of `insert_node`: first bytes are known to be equal. */
    method Compare(r: nat, p: nat) returns (i: nat, cmp: int)
      requires text_buf.Length == N + F - 1 && r < N && p < N && text_buf[r] == text_buf[p]
      ensures i == Lcp(text_buf[..], p, r) && 1 <= i
      ensures i < F ==> cmp != 0 && (cmp > 0 <==> Less(text_buf[..], p, r))
      ensures i < F ==> cmp == text_buf[r + i] as int - text_buf[p + i] as int
    {
      ghost var text := text_buf[..];
      assert Char(text, p, 0) == Char(text, r, 0);
      i, cmp := 1, 0;
      while i < F
        invariant 1 <= i <= F && LcpFrom(text, p, r, i) == Lcp(text, p, r)
      {
        cmp := text_buf[r + i] as int - text_buf[p + i] as int;
        assert text_buf[r + i] == Char(text, r, i) && text_buf[p + i] == Char(text, p, i);
        if cmp != 0 {
          break;
        }
        i := i + 1;
      }
    }

    method AttachNode(r: nat, p: nat, right: bool)
      requires Separate() && IsLinks(Model()) && r < N && p < N + 257 && (!right ==> p < N)
      modifies lson, rson, dad
      ensures Model() == Attach(old(Model()), r, p, right)
    {
      if right {
        rson[p] := r;
      } else {
        lson[p] := r;
      }
      dad[r] := p;
    }

    /** The end of `delete_node`: `q` takes the place of `p`. */
    method PromoteNode(p: nat, q: nat)
      requires Separate() && IsLinks(Model()) && p < N && q <= N && p != q && HasParent(Model(), p)
      modifies lson, rson, dad
      ensures Model() == Promote(old(Model()), p, q)
    {
      dad[q] := dad[p];
      if rson[dad[p]] == p {
        rson[dad[p]] := q;
      } else {
        lson[dad[p]] := q;
      }
      dad[p] := NIL;
    }

    /** The end of `insert_node`: `r` takes over everything from `p`. */
    method TakeoverNode(p: nat, r: nat)
      requires Separate() && IsLinks(Model()) && p < N && r < N && p != r && lson[p] <= N && rson[p] <= N
      requires HasParent(Model(), p) && lson[p] !in {p, r} && rson[p] !in {p, r} && dad[p] != r
      modifies lson, rson, dad
      ensures HasParent(AdoptRight(AdoptLeft(old(Model()), p, r), p, r), p)
      ensures Model() == Takeover(old(Model()), p, r)
    {
      ghost var k := Model();
      TakeoverLinks(k, p, r);
      hide AdoptLeft, AdoptRight, HasParent;
      dad[r] := dad[p];
      lson[r] := lson[p];
      rson[r] := rson[p];
      dad[lson[p]] := r;
      dad[rson[p]] := r;
      assert lson[..] == k.lson[r := k.lson[p]] && rson[..] == k.rson[r := k.rson[p]];
      assert dad[..] == k.dad[k.lson[p] := r][k.rson[p] := r][r := k.dad[p]];
      if rson[dad[p]] == p {
        rson[dad[p]] := r;
      } else {
        lson[dad[p]] := r;
      }
      dad[p] := NIL;
    }

    /** What `insert_node` remembers of a node whose string shares `i` bytes: the longest match, and of equally long
        ones the nearer. */
    method Note(ghost t: BTree, r: nat, p: nat, i: nat)
      requires text_buf.Length == N + F - 1 && r < N && p < N && p != r && p in Nodes(t)
      requires i == Lcp(text_buf[..], p, r)
      requires match_length < F && Attained(t, text_buf[..], r, match_length, match_position)
      modifies this`match_position, this`match_length
      ensures Attained(t, text_buf[..], r, match_length, match_position)
      ensures match_length == if i > THRESHOLD && i > old(match_length) then i else old(match_length)
      ensures var d := Distance(p, r) - 1;
        match_position == (if match_length > old(match_length) then d
                           else if i > THRESHOLD && i == match_length && d < old(match_position) then d
                           else old(match_position))
    {
      hide Lcp;
      NoteMatch(t, text_buf[..], p, r);
      if i > THRESHOLD {
        if i > match_length {
          match_position := (r - p) % N - 1;
          match_length := i;
          if match_length >= F {
            return;
          }
        }
        if i == match_length {
          var nearer := (r - p) % N - 1;
          if nearer < match_position {
            match_position := nearer;
          }
        }
      }
    }

    /** The descent of `insert_node`. It ends at an empty place for the string at `r`, or at a node with the same
        string; on the way it remembers the longest match seen, and of those the nearest. */
    method Search(r: nat) returns (full: bool, p: nat, right: bool, ghost path: seq<bool>)
      requires Valid() && r < N && !InForest(forest, text_buf[..], r)
      modifies this`match_position, this`match_length
      ensures ghost var t := forest[text_buf[r]];
        && HasPath(t, path) && Arrived(t, text_buf[..], path, r)
        && Attained(t, text_buf[..], r, match_length, match_position)
        && (full ==> Sub(t, path).Node? && p == Sub(t, path).p < N && Lcp(text_buf[..], p, r) == F == match_length)
        && (!full ==> Sub(t, path).Leaf? && p == Above(t, path, RootAt(text_buf[r])) && right == GoesRight(path))
        && (!full ==> Passed(t, text_buf[..], path, r, Bound(match_length)))
        && Nearest(Visited(t, path) + (if full then {p} else {}), text_buf[..], r, match_length, match_position)
    {
      hide ForestOk, Bst, Less, Lcp, Sub, HasPath, Above, Before, After, Passed, Attained, Arrived, Nodes, Nearest,
        Visited, Distance;
      ghost var text, f, k := text_buf[..], forest, Model();
      Shapes(f, k, text);
      ghost var c := text[r];
      ghost var t := f[c];
      path := [];
      right, p, match_length := true, N + 1 + text_buf[r], 0;
      SearchStart(f, k, text, r, match_position);
      NoneNearer(text, r, match_position);
      NoneVisited(t);
      while true
        invariant text_buf[..] == text && Model() == k
        invariant HasPath(t, path)
        invariant Arrived(t, text, path, r) && Passed(t, text, path, r, Bound(match_length))
        invariant match_length < F && Attained(t, text, r, match_length, match_position)
        invariant Nearest(Visited(t, path), text, r, match_length, match_position)
        invariant p == Above(t, path, RootAt(c)) && right == GoesRight(path)
        decreases Sub(t, path)
      {
        FollowLink(f, k, text, c, path);
        var child := if right then rson[p] else lson[p];
        if child == NIL {
          assert Visited(t, path) + {} == Visited(t, path);
          return false, p, right, path;
        }
        p := child;
        var i, cmp := Compare(r, p);
        ghost var m, pos := match_length, match_position;
        Note(t, r, p, i);
        NearestStep(Visited(t, path), text, r, m, pos, p, match_length, match_position);
        if match_length >= F {
          return true, p, right, path;
        }
        ArrivedStep(t, text, path, r, Bound(m), Bound(match_length));
        right := cmp >= 0;
        VisitedStep(t, path, right);
        path := path + [right];
      }
    }

    /** `insert_node`: put the string at `r` into its tree and report a longest match among the strings already there.
        A string that is completely equal is replaced. */
    method InsertNode(r: nat)
      requires Valid() && r < N && !InForest(forest, text_buf[..], r)
      modifies this, lson, rson, dad
      ensures Valid()
      ensures BestMatch(old(forest), text_buf[..], r, match_length, match_position)
      ensures Inserted(old(forest), forest, text_buf[..], r)
    {
      hide ForestOk, Bst, Less, Lcp, Sub, HasPath, Above, Before, After, Passed, Attained, Arrived, Nodes, InForest;
      ghost var text, f := text_buf[..], forest;
      Shapes(f, Model(), text);
      ClearOk(f, Model(), text, r);
      lson[r], rson[r] := NIL, NIL;
      assert Model() == Links(old(lson[..])[r := NIL], old(rson[..])[r := NIL], old(dad[..]));
      ghost var k := Model();
      var full, p, right, path := Search(r);
      assert Model() == k && text_buf[..] == text;
      if full {
        FullStep(f, k, text, path, r, match_position);
        TakeoverNode(p, r);
        forest := Taken(f, text, path, r);
      } else {
        EmptyStep(f, k, text, path, r, match_length, match_position);
        AttachNode(r, p, right);
        forest := Grown(f, text, path, r);
      }
    }

    /** The loop of `delete_node`: the last node of the left subtree. */
    method LastOf(q0: nat, ghost t: BTree, ghost par: nat) returns (q: nat)
      requires Separate() && IsLinks(Model()) && t.Node? && t.p == q0 && Rep(t, par, Model())
      ensures q == Last(t).p < N
    {
      q := q0;
      ghost var cur, up := t, par;
      while rson[q] != NIL
        invariant cur.Node? && cur.p == q && Rep(cur, up, Model()) && Last(cur) == Last(t)
        decreases cur
      {
        RightSon(cur, up, Model());
        up := q;
        q := rson[q];
        cur := cur.right;
      }
      RightSon(cur, up, Model());
    }

    /** The part of `delete_node` that finds the node to take the place of `p` and hangs the sons of `p` below it. */
    method PrepareNode(p: nat, ghost u: BTree, ghost par: nat) returns (q: nat)
      requires Separate() && IsLinks(Model()) && u.Node? && u.p == p && Rep(u, par, Model()) && Distinct(u)
      modifies lson, rson, dad
      ensures LastOfLeft(u, Spine(u.left)) && Rep(u, par, old(Model()))
      ensures Model() == Prepare(u, Spine(u.left), par, old(Model())) && q == Root(Removed(u, Spine(u.left)))
    {
      ghost var k := Model();
      SonLinks(u, par, k);
      SpineEnds(u);
      hide Rep, LastOfLeft, Distinct, Spine;
      if rson[p] == NIL {
        q := lson[p];
      } else if lson[p] == NIL {
        q := rson[p];
      } else {
        q := lson[p];
        if rson[q] != NIL {
          q := LastOf(q, u.left, p);
          SpineLinks(u, par, k);
          rson[dad[q]] := lson[q];
          dad[lson[q]] := dad[q];
          lson[q] := lson[p];
          dad[lson[p]] := q;
        }
        rson[q] := rson[p];
        dad[rson[p]] := q;
      }
    }

    /** `delete_node`: take the string at `p` out of its tree, if it is in one. */
    method DeleteNode(p: nat)
      requires Valid() && p < N
      modifies this`forest, lson, rson, dad
      ensures Valid()
      ensures forall x: nat :: InForest(forest, text_buf[..], x) <==> InForest(old(forest), text_buf[..], x) && x != p
    {
      ghost var text, f, k := text_buf[..], forest, Model();
      if dad[p] == NIL {
        return;
      }
      ghost var path := PathTo(f[text[p]], p);
      DeleteStep(f, k, text, path, p);
      ghost var u := Sub(f[text[p]], path);
      hide ForestOk, InForest, Sub, HasPath, Above, Rep, Distinct, Prepare, Removed, LastOfLeft, HasParent;
      var q := PrepareNode(p, u, k.dad[p]);
      PromoteNode(p, q);
      forest := Pruned(f, text, path, p);
    }
  }

  lemma TakeoverLinks(k: Links, p: nat, r: nat)
    requires IsLinks(k) && p < N && r < N && p != r && k.lson[p] <= N && k.rson[p] <= N
    requires HasParent(k, p) && k.lson[p] !in {p, r} && k.rson[p] !in {p, r} && k.dad[p] != r
    ensures var k2 := AdoptRight(AdoptLeft(k, p, r), p, r);
      && HasParent(k2, p) && k2.dad[p] == k.dad[p] < N + 257
      && k2.lson == k.lson[r := k.lson[p]] && k2.rson == k.rson[r := k.rson[p]]
      && k2.dad == k.dad[k.lson[p] := r][k.rson[p] := r]
      && (k.rson[k.dad[p]] != p ==> k.dad[p] < N)
  {
  }

  /** The forest without the node at the end of the path. */
  function Pruned(f: Forest, text: seq<byte>, path: seq<bool>, p: nat): Forest
    requires IsText(text) && p < N && HasPath(f[text[p]], path) && Sub(f[text[p]], path).Node?
  {
    SpineEnds(Sub(f[text[p]], path));
    f[text[p] := Plug(f[text[p]], path, Removed(Sub(f[text[p]], path), Spine(Sub(f[text[p]], path).left)))]
  }

  lemma DeleteStep(f: Forest, k: Links, text: seq<byte>, path: seq<bool>, p: nat)
    requires ForestOk(f, k, text) && p < N && HasPath(f[text[p]], path)
    requires Sub(f[text[p]], path).Node? && Sub(f[text[p]], path).p == p
    ensures var u := Sub(f[text[p]], path); var rights, a := Spine(u.left), k.dad[p];
      && Rep(u, a, k) && Distinct(u) && LastOfLeft(u, rights)
      && HasParent(Prepare(u, rights, a, k), p) && Root(Removed(u, rights)) <= N && Root(Removed(u, rights)) != p
      && ForestOk(Pruned(f, text, path, p), Promote(Prepare(u, rights, a, k), p, Root(Removed(u, rights))), text)
      && forall x: nat :: InForest(Pruned(f, text, path, p), text, x) <==> InForest(f, text, x) && x != p
  {
    var u, c := Sub(f[text[p]], path), text[p];
    var rights := Spine(u.left);
    SpineEnds(u);
    SubtreeKnown(f, k, text, c, path);
    DeletePrepared(f, k, text, c, path, rights);
    DeleteOk(f, k, text, c, path, rights);
    DeletedNodes(f, k, text, c, Plug(f[c], path, Removed(u, rights)), p);
  }

  /** The end of the right spine. */
  function Last(t: BTree): (r: BTree)
    ensures t.Node? ==> r.Node?
  {
    if t.Leaf? || t.right.Leaf? then t else Last(t.right)
  }

  function Spine(t: BTree): seq<bool> {
    if t.Leaf? || t.right.Leaf? then [] else [true] + Spine(t.right)
  }

  lemma {:induction false} SpineLast(t: BTree)
    ensures HasPath(t, Spine(t)) && AllRight(Spine(t)) && Sub(t, Spine(t)) == Last(t)
    ensures t.Node? ==> Last(t).Node? && Last(t).right.Leaf?
  {
    if t.Node? && t.right.Node? {
      SpineLast(t.right);
      assert Spine(t)[1..] == Spine(t.right);
    }
  }

  lemma SpineEnds(u: BTree)
    requires u.Node?
    ensures LastOfLeft(u, Spine(u.left)) && Sub(u.left, Spine(u.left)) == Last(u.left)
    ensures u.left.Node? ==> (Spine(u.left) == [] <==> u.left.right.Leaf?)
    ensures u.left.Node? && u.left.right.Leaf? ==> Last(u.left) == u.left
  {
    SpineLast(u.left);
  }

  lemma RightSon(t: BTree, par: nat, k: Links)
    requires IsLinks(k) && t.Node? && Rep(t, par, k)
    ensures t.p < N && k.rson[t.p] == Root(t.right) && (k.rson[t.p] == NIL <==> t.right.Leaf?)
    ensures Rep(t.right, t.p, k)
  {
    RepNodes(t.right, t.p, k);
  }

  lemma SonLinks(u: BTree, par: nat, k: Links)
    requires IsLinks(k) && u.Node? && Rep(u, par, k)
    ensures u.p < N && k.lson[u.p] == Root(u.left) <= N && k.rson[u.p] == Root(u.right) <= N
    ensures (Root(u.left) == NIL <==> u.left.Leaf?) && (Root(u.right) == NIL <==> u.right.Leaf?)
    ensures u.left.Node? ==> u.left.p < N
    ensures u.left.Node? ==> k.rson[u.left.p] == Root(u.left.right)
    ensures u.left.Node? ==> (Root(u.left.right) == NIL <==> u.left.right.Leaf?)
    ensures Rep(u.left, u.p, k)
  {
    RightSon(u, par, k);
    RepNodes(u.left, u.p, k);
    if u.left.Node? {
      RightSon(u.left, u.p, k);
    }
  }

  /** The last node of the left subtree is none of the nodes `delete_node` relinks around it. */
  lemma SpineLinks(u: BTree, par: nat, k: Links)
    requires IsLinks(k) && u.Node? && u.left.Node? && u.left.right.Node? && Rep(u, par, k) && Distinct(u)
    ensures var q := Last(u.left).p;
      q < N && q != u.p && k.dad[q] < N && k.dad[q] != u.p && k.dad[q] != q && k.lson[q] <= N && k.lson[q] != q
      && k.lson[q] != u.p && k.lson[q] != u.left.p && u.left.p != q && k.lson[u.p] == u.left.p < N
  {
    var rights := Spine(u.left);
    SpineLast(u.left);
    SpineLink(u.left, rights, u.p, k);
    RepLink(u.left, rights, u.p, k);
    SpineNodes(u.left, rights);
    NodesAlong(u.left, rights);
    DistinctSub(u.left, rights);
    var q := Last(u.left);
    assert q.left.Node? ==> q.left.p in Nodes(q.left);
  }

  lemma DeletedNodes(f: Forest, k: Links, text: seq<byte>, c: byte, t': BTree, p: nat)
    requires ForestOk(f, k, text) && p < N && text[p] == c && Nodes(t') == Nodes(f[c]) - {p}
    ensures forall x: nat :: InForest(f[c := t'], text, x) <==> InForest(f, text, x) && x != p
  {
    hide Nodes, TreeOk;
  }

  /** The forest with `r` in the place of the node at the end of the path. */
  function Taken(f: Forest, text: seq<byte>, path: seq<bool>, r: nat): Forest
    requires IsText(text) && r < N && HasPath(f[text[r]], path) && Sub(f[text[r]], path).Node?
  {
    var u := Sub(f[text[r]], path);
    f[text[r] := Plug(f[text[r]], path, Node(u.left, r, u.right))]
  }

  /** The forest with `r` as a new leaf at the end of the path. */
  function Grown(f: Forest, text: seq<byte>, path: seq<bool>, r: nat): Forest
    requires IsText(text) && r < N && HasPath(f[text[r]], path)
  {
    f[text[r] := Plug(f[text[r]], path, Node(Leaf, r, Leaf))]
  }

  lemma FullStep(f: Forest, k: Links, text: seq<byte>, path: seq<bool>, r: nat, pos: nat)
    requires ForestOk(f, k, text) && r < N && !InForest(f, text, r)
    requires HasPath(f[text[r]], path) && Sub(f[text[r]], path).Node? && Sub(f[text[r]], path).p < N
    requires Lcp(text, Sub(f[text[r]], path).p, r) == F && Attained(f[text[r]], text, r, F, pos)
    ensures BestMatch(f, text, r, F, pos)
    ensures Inserted(f, Taken(f, text, path, r), text, r)
    ensures var p := Sub(f[text[r]], path).p;
      && p != r && k.lson[p] <= N && k.rson[p] <= N && HasParent(k, p)
      && k.lson[p] !in {p, r} && k.rson[p] !in {p, r} && k.dad[p] != r
      && HasParent(AdoptRight(AdoptLeft(k, p, r), p, r), p)
      && ForestOk(Taken(f, text, path, r), Takeover(k, p, r), text)
  {
    FullMatch(f, k, text, path, r, pos);
    LinksOf(f, k, text, path, r);
    TakeoverOk(f, k, text, text[r], path, r);
  }

  lemma EmptyStep(f: Forest, k: Links, text: seq<byte>, path: seq<bool>, r: nat, len: nat, pos: nat)
    requires ForestOk(f, k, text) && r < N && !InForest(f, text, r)
    requires Arrived(f[text[r]], text, path, r) && Sub(f[text[r]], path).Leaf?
    requires Passed(f[text[r]], text, path, r, Bound(len)) && Attained(f[text[r]], text, r, len, pos)
    requires k.lson[r] == k.rson[r] == NIL
    ensures BestMatch(f, text, r, len, pos)
    ensures Inserted(f, Grown(f, text, path, r), text, r)
    ensures var a := Above(f[text[r]], path, RootAt(text[r]));
      && a < N + 257 && (!GoesRight(path) ==> a < N)
      && ForestOk(Grown(f, text, path, r), Attach(k, r, a, GoesRight(path)), text)
  {
    EmptyPlace(f, k, text, path, r, len, pos);
    AttachOk(f, k, text, text[r], path, r);
  }

  function Bound(len: nat): nat {
    if len > THRESHOLD then len else THRESHOLD
  }

  /** The match found so far belongs to a string of the tree. */
  ghost predicate Attained(t: BTree, text: seq<byte>, r: nat, len: nat, pos: nat)
    requires IsText(text) && r < N
  {
    len > THRESHOLD ==> exists q: nat :: q in Nodes(t) && q < N && Lcp(text, q, r) == len && Distance(q, r) == pos + 1
  }

  /** Afterwards `r` is in the forest, nothing else has come in, and only a string equal to the one at `r` has gone. */
  ghost predicate Inserted(f: Forest, f': Forest, text: seq<byte>, r: nat)
    requires IsText(text) && r < N
  {
    && InForest(f', text, r)
    && (forall x: nat | InForest(f', text, x) :: x == r || InForest(f, text, x))
    && (forall x: nat | InForest(f, text, x) :: InForest(f', text, x) || Lcp(text, x, r) == F)
  }

  /** The link at the end of a path leads to the subtree there. */
  lemma FollowLink(f: Forest, k: Links, text: seq<byte>, c: byte, path: seq<bool>)
    requires ForestOk(f, k, text) && HasPath(f[c], path)
    ensures var a, u := Above(f[c], path, RootAt(c)), Sub(f[c], path);
      && a < N + 257 && (!GoesRight(path) ==> a < N)
      && Root(u) == (if GoesRight(path) then k.rson[a] else k.lson[a])
      && (u.Node? ==> u.p < N && text[u.p] == c && u.p in Nodes(f[c]))
      && (Root(u) == NIL <==> u.Leaf?)
  {
    var t := f[c];
    assert TreeOk(t, c, k, text);
    BstNodes(t, text);
    NodesAlong(t, path);
    if path != [] {
      RepLink(t, path, RootAt(c), k);
    }
  }

  /** A string that shares more than THRESHOLD bytes with the one at `r` is a match at its distance. */
  lemma NoteMatch(t: BTree, text: seq<byte>, p: nat, r: nat)
    requires IsText(text) && p < N && r < N && p in Nodes(t) && p != r
    ensures 1 <= (r - p) % N < N && Distance(p, r) == (r - p) % N - 1 + 1
    ensures Attained(t, text, r, Lcp(text, p, r), (r - p) % N - 1)
  {
  }

  lemma OtherTreesShareNothing(f: Forest, text: seq<byte>, r: nat, x: nat)
    requires IsText(text) && r < N && x < N && text[x] != text[r]
    ensures Lcp(text, x, r) == 0
  {
    assert Char(text, x, 0) != Char(text, r, 0);
  }

  /** What holds in the tree of `r` holds in the forest, since the strings of other trees share nothing with it. */
  lemma BestInForest(f: Forest, k: Links, text: seq<byte>, r: nat, len: nat, pos: nat)
    requires ForestOk(f, k, text) && r < N && Attained(f[text[r]], text, r, len, pos)
    requires forall x: nat | x in Nodes(f[text[r]]) :: x < N && Lcp(text, x, r) <= Bound(len)
    ensures BestMatch(f, text, r, len, pos)
  {
    forall x: nat | InForest(f, text, x)
      ensures Lcp(text, x, r) <= Bound(len)
    {
      if text[x] != text[r] {
        OtherTreesShareNothing(f, text, r, x);
      }
    }
    hide Lcp;
    if len > THRESHOLD {
      var q: nat :| q in Nodes(f[text[r]]) && q < N && Lcp(text, q, r) == len && Distance(q, r) == pos + 1;
      NodeOf(f, k, text, text[r], q);
    }
  }

  lemma InsertedInto(f: Forest, k: Links, text: seq<byte>, r: nat, t': BTree, gone: set<nat>)
    requires ForestOk(f, k, text) && r < N && Nodes(t') == Nodes(f[text[r]]) - gone + {r}
    requires forall x: nat | x in gone :: x < N && Lcp(text, x, r) == F
    ensures Inserted(f, f[text[r] := t'], text, r)
  {
    hide Lcp, Nodes;
  }

  lemma EmptyPlace(f: Forest, k: Links, text: seq<byte>, path: seq<bool>, r: nat, len: nat, pos: nat)
    requires ForestOk(f, k, text) && r < N && !InForest(f, text, r)
    requires Arrived(f[text[r]], text, path, r) && Sub(f[text[r]], path).Leaf?
    requires Passed(f[text[r]], text, path, r, Bound(len)) && Attained(f[text[r]], text, r, len, pos)
    ensures Fits(f[text[r]], path, Node(Leaf, r, Leaf), text)
    ensures BestMatch(f, text, r, len, pos)
    ensures Inserted(f, f[text[r] := Plug(f[text[r]], path, Node(Leaf, r, Leaf))], text, r)
  {
    var t := f[text[r]];
    NewLeafNodes(t, path, r);
    hide ForestOk, Lcp, Less, Nodes, Plug, Sub, HasPath, Before, After;
    BestInForest(f, k, text, r, len, pos);
    InsertedInto(f, k, text, r, Plug(t, path, Node(Leaf, r, Leaf)), {});
  }

  lemma NewLeafNodes(t: BTree, path: seq<bool>, r: nat)
    requires HasPath(t, path) && Sub(t, path).Leaf?
    ensures Nodes(t) == Before(t, path) + After(t, path)
    ensures Nodes(Plug(t, path, Node(Leaf, r, Leaf))) == Nodes(t) - {} + {r}
    ensures Nodes(Node(Leaf, r, Leaf)) == {r}
  {
    NodesAlong(t, path);
    NodesPlug(t, path, Node(Leaf, r, Leaf));
  }

  lemma FullMatch(f: Forest, k: Links, text: seq<byte>, path: seq<bool>, r: nat, pos: nat)
    requires ForestOk(f, k, text) && r < N && !InForest(f, text, r)
    requires HasPath(f[text[r]], path) && Sub(f[text[r]], path).Node? && Sub(f[text[r]], path).p < N
    requires Lcp(text, Sub(f[text[r]], path).p, r) == F && Attained(f[text[r]], text, r, F, pos)
    ensures BestMatch(f, text, r, F, pos)
    ensures var u := Sub(f[text[r]], path);
      Inserted(f, f[text[r] := Plug(f[text[r]], path, Node(u.left, r, u.right))], text, r)
  {
    var t := f[text[r]];
    var u := Sub(t, path);
    TreeNodes(f, k, text, text[r], path);
    ReplacedNodes(t, path, r);
    hide ForestOk, Lcp, Less, Nodes, Plug, Sub, HasPath, Before, After;
    BestInForest(f, k, text, r, F, pos);
    InsertedInto(f, k, text, r, Plug(t, path, Node(u.left, r, u.right)), {u.p});
  }

  lemma ReplacedNodes(t: BTree, path: seq<bool>, r: nat)
    requires HasPath(t, path) && Sub(t, path).Node?
    requires var u := Sub(t, path);
      u.p !in Before(t, path) + After(t, path) && u.p !in Nodes(u.left) && u.p !in Nodes(u.right)
    ensures var u := Sub(t, path); Nodes(Plug(t, path, Node(u.left, r, u.right))) == Nodes(t) - {u.p} + {r}
  {
    var u := Sub(t, path);
    NodesAlong(t, path);
    NodesPlug(t, path, Node(u.left, r, u.right));
  }

  lemma Shapes(f: Forest, k: Links, text: seq<byte>)
    requires ForestOk(f, k, text)
    ensures IsLinks(k) && IsText(text)
  {
  }

  lemma SearchStart(f: Forest, k: Links, text: seq<byte>, r: nat, pos: nat)
    requires ForestOk(f, k, text) && r < N
    ensures var t := f[text[r]];
      && Bst(t, text) && HasPath(t, []) && Arrived(t, text, [], r)
      && Passed(t, text, [], r, Bound(0)) && Attained(t, text, r, 0, pos)
      && Above(t, [], RootAt(text[r])) == N + 1 + text[r]
  {
    assert TreeOk(f[text[r]], text[r], k, text);
  }

  lemma TreeNodes(f: Forest, k: Links, text: seq<byte>, c: byte, path: seq<bool>)
    requires ForestOk(f, k, text) && HasPath(f[c], path) && Sub(f[c], path).Node?
    ensures forall x: nat | x in Nodes(f[c]) :: x < N
    ensures var u := Sub(f[c], path);
      u.p !in Before(f[c], path) + After(f[c], path) && u.p !in Nodes(u.left) && u.p !in Nodes(u.right)
  {
    assert TreeOk(f[c], c, k, text);
    BstNodes(f[c], text);
    DistinctSub(f[c], path);
  }

  lemma LinksOf(f: Forest, k: Links, text: seq<byte>, path: seq<bool>, r: nat)
    requires ForestOk(f, k, text) && r < N && !InForest(f, text, r)
    requires HasPath(f[text[r]], path) && Sub(f[text[r]], path).Node?
    ensures var p := Sub(f[text[r]], path).p;
      && p < N && p != r && k.lson[p] <= N && k.rson[p] <= N && HasParent(k, p)
      && k.lson[p] !in {p, r} && k.rson[p] !in {p, r} && k.dad[p] != r
  {
    var t, c := f[text[r]], text[r];
    var u := Sub(t, path);
    assert TreeOk(t, c, k, text);
    BstNodes(t, text);
    BstSub(t, path, text);
    NodesAlong(t, path);
    ParentLink(f, k, text, c, path);
    RepSub(t, path, RootAt(c), k);
    RepNodes(u.left, u.p, k);
    RepNodes(u.right, u.p, k);
    DistinctSub(t, path);
    assert u.left.Node? ==> u.left.p in Nodes(u);
    assert u.right.Node? ==> u.right.p in Nodes(u);
  }
}
