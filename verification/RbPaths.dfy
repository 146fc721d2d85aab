/**
 Linked nodes and the paths through them: which tree the nodes below a pointer represent, what a path
 array records, and how a path and the subtree it leads to make up the whole tree.
 */
module RbPaths {
  import opened Machine
  import opened RbShape

  /** sizeof(void *) << 4 with 8-byte pointers: the length of the path array. */
  const PATH_LEN := 128

  /** Nodes are addressable, so there are fewer than 2^64. */
  const ADDRESSES := 0x1_0000_0000_0000_0000

  datatype PathEntry = PathEntry(node: Node?, cmp: int)

  /** The nodes below n are exactly the tree t. */
  ghost predicate Rep(n: Node?, t: Tree)
    reads Nodes(t)
  {
    match t
    case Leaf => n == null
    case T(l, x, red, r) => n == x && x.red == red && Rep(x.left, l) && Rep(x.right, r)
  }

  /** No node occurs twice. */
  ghost predicate Sep(t: Tree) {
    match t
    case Leaf => true
    case T(l, x, _, r) => x !in Nodes(l) && x !in Nodes(r) && Nodes(l) !! Nodes(r) && Sep(l) && Sep(r)
  }

  lemma Unfold(n: Node, t: Tree)
    requires Rep(n, t) && Sep(t)
    ensures t.T? && n == t.node && n.red == t.red
    ensures Rep(n.left, t.left) && Rep(n.right, t.right) && Sep(t.left) && Sep(t.right)
    ensures Nodes(t) == Nodes(t.left) + {n} + Nodes(t.right)
    ensures n !in Nodes(t.left) && n !in Nodes(t.right) && Nodes(t.left) !! Nodes(t.right)
  {
  }

  ghost function CtxNodes(ctx: seq<Frame>): set<Node> {
    if ctx == [] then {}
    else CtxNodes(ctx[..|ctx| - 1]) + {ctx[|ctx| - 1].node} + Nodes(ctx[|ctx| - 1].sib)
  }

  /** The node and the other child at frame f are as f says; nothing is said of the child on the path. */
  ghost predicate RepFrame(f: Frame)
    reads f.node, Nodes(f.sib)
  {
    f.node.red == f.red && if f.goLeft then Rep(f.node.right, f.sib) else Rep(f.node.left, f.sib)
  }

  ghost function Child(f: Frame): Node?
    reads f.node
  {
    if f.goLeft then f.node.left else f.node.right
  }

  /** Following ctx from the pointer n leads to the pointer hole. */
  ghost predicate RepCtx(n: Node?, ctx: seq<Frame>, hole: Node?)
    reads CtxNodes(ctx)
  {
    if ctx == [] then n == hole
    else
      var f := ctx[|ctx| - 1];
      RepFrame(f) && Child(f) == hole && RepCtx(n, ctx[..|ctx| - 1], f.node)
  }

  /** As RepCtx, but the last child pointer on the path need not be right yet. */
  ghost predicate OpenCtx(n: Node?, ctx: seq<Frame>)
    reads CtxNodes(ctx)
  {
    ctx == [] ||
    var f := ctx[|ctx| - 1];
    RepFrame(f) && RepCtx(n, ctx[..|ctx| - 1], f.node)
  }

  /** The path's nodes and subtrees are disjoint from one another and from the set s. */
  ghost predicate SepCtx(ctx: seq<Frame>, s: set<Node>) {
    ctx == [] ||
    var f := ctx[|ctx| - 1];
    && f.node !in s && f.node !in Nodes(f.sib) && Nodes(f.sib) !! s && Sep(f.sib)
    && SepCtx(ctx[..|ctx| - 1], s + {f.node} + Nodes(f.sib))
  }

  lemma {:induction false} SepCtxDisjoint(ctx: seq<Frame>, s: set<Node>)
    requires SepCtx(ctx, s)
    ensures CtxNodes(ctx) !! s
  {
    if ctx != [] {
      var f := ctx[|ctx| - 1];
      SepCtxDisjoint(ctx[..|ctx| - 1], s + {f.node} + Nodes(f.sib));
    }
  }

  lemma {:induction false} SepCtxWiden(ctx: seq<Frame>, s: set<Node>, s': set<Node>)
    requires SepCtx(ctx, s) && CtxNodes(ctx) !! s'
    ensures SepCtx(ctx, s + s')
  {
    if ctx != [] {
      var f := ctx[|ctx| - 1];
      SepCtxWiden(ctx[..|ctx| - 1], s + {f.node} + Nodes(f.sib), s');
      assert s + {f.node} + Nodes(f.sib) + s' == s + s' + {f.node} + Nodes(f.sib);
    }
  }

  lemma {:induction false} SepCtxShrink(ctx: seq<Frame>, s: set<Node>, s': set<Node>)
    requires SepCtx(ctx, s) && s' <= s
    ensures SepCtx(ctx, s')
  {
    if ctx != [] {
      var f := ctx[|ctx| - 1];
      SepCtxShrink(ctx[..|ctx| - 1], s + {f.node} + Nodes(f.sib), s' + {f.node} + Nodes(f.sib));
    }
  }

  lemma {:induction false} NodesPlugAll(ctx: seq<Frame>, t: Tree)
    ensures Nodes(PlugAll(ctx, t)) == CtxNodes(ctx) + Nodes(t)
  {
    if ctx != [] {
      NodesPlugAll(ctx[..|ctx| - 1], Plug(ctx[|ctx| - 1], t));
    }
  }

  /** A path that leads to the nodes of t: together they are the whole tree. */
  lemma {:induction false} RepPlugAll(n: Node?, ctx: seq<Frame>, hole: Node?, t: Tree)
    requires RepCtx(n, ctx, hole) && Rep(hole, t)
    ensures Nodes(PlugAll(ctx, t)) == CtxNodes(ctx) + Nodes(t)
    ensures Rep(n, PlugAll(ctx, t))
    decreases |ctx|
  {
    if ctx != [] {
      var f := ctx[|ctx| - 1];
      RepPlugAll(n, ctx[..|ctx| - 1], f.node, Plug(f, t));
    }
  }

  lemma {:induction false} SepPlugAll(ctx: seq<Frame>, t: Tree)
    requires SepCtx(ctx, Nodes(t)) && Sep(t)
    ensures Sep(PlugAll(ctx, t))
  {
    if ctx != [] {
      var f := ctx[|ctx| - 1];
      assert Nodes(Plug(f, t)) == Nodes(t) + {f.node} + Nodes(f.sib);
      SepPlugAll(ctx[..|ctx| - 1], Plug(f, t));
    }
  }

  ghost predicate PathIs(path: seq<PathEntry>, ctx: seq<Frame>) {
    && |ctx| <= |path|
    && forall i :: 0 <= i < |ctx| ==> path[i].node == ctx[i].node && (path[i].cmp < 0 <==> ctx[i].goLeft)
  }

  lemma PathExtend(path: seq<PathEntry>, ctx: seq<Frame>, f: Frame, e: PathEntry, below: PathEntry)
    requires PathIs(path, ctx) && |ctx| + 1 < |path|
    requires e.node == f.node && (e.cmp < 0 <==> f.goLeft)
    ensures PathIs(path[|ctx| := e][|ctx| + 1 := below], ctx + [f])
  {
  }

  lemma PathShrink(path: seq<PathEntry>, ctx: seq<Frame>, i: nat, e: PathEntry)
    requires PathIs(path, ctx) && i < |ctx|
    ensures PathIs(path[i := e], ctx[..i])
  {
  }

  lemma PathTurn(path: seq<PathEntry>, ctx: seq<Frame>, f: Frame)
    requires PathIs(path, ctx) && |ctx| < |path| && path[|ctx|] == PathEntry(f.node, 1) && !f.goLeft
    ensures PathIs(path, ctx + [f])
  {
  }

  lemma PathBack(path: seq<PathEntry>, ctx: seq<Frame>, f: Frame)
    requires PathIs(path, ctx + [f])
    ensures PathIs(path, ctx) && path[|ctx|].node == f.node
  {
    assert (ctx + [f])[|ctx|] == f;
    assert forall i :: 0 <= i < |ctx| ==> (ctx + [f])[i] == ctx[i];
  }

  /** The path ctx from n leads to the pointer p, below which is sub; together they are t. */
  ghost predicate AtPoint(n: Node?, ctx: seq<Frame>, p: Node?, sub: Tree, t: Tree)
    reads CtxNodes(ctx), Nodes(sub)
  {
    RepCtx(n, ctx, p) && Rep(p, sub) && SepCtx(ctx, Nodes(sub)) && Sep(sub) && PlugAll(ctx, sub) == t
  }

  /** One level down: the path grows by a frame, the subtree becomes one of its children. */
  lemma Descend(n: Node?, ctx: seq<Frame>, x: Node, sub: Tree, t: Tree, goLeft: bool) returns (f: Frame, below: Tree)
    requires AtPoint(n, ctx, x, sub, t)
    ensures sub.T?
    ensures f == Frame(x, sub.red, goLeft, if goLeft then sub.right else sub.left)
    ensures below == (if goLeft then sub.left else sub.right)
    ensures AtPoint(n, ctx + [f], if goLeft then x.left else x.right, below, t)
  {
    f := Frame(x, sub.red, goLeft, if goLeft then sub.right else sub.left);
    below := if goLeft then sub.left else sub.right;
    assert (ctx + [f])[..|ctx|] == ctx;
    assert Nodes(below) + {f.node} + Nodes(f.sib) == Nodes(sub);
    assert Plug(f, below) == sub;
  }

  /** One level up, the inverse of Descend. */
  lemma Ascend(n: Node?, ctx: seq<Frame>, f: Frame, p: Node?, below: Tree, t: Tree)
    requires AtPoint(n, ctx + [f], p, below, t)
    ensures AtPoint(n, ctx, f.node, Plug(f, below), t)
  {
    assert (ctx + [f])[..|ctx|] == ctx;
    assert Nodes(Plug(f, below)) == Nodes(below) + {f.node} + Nodes(f.sib);
  }

  /** The point of the tree at which a node is. */
  lemma {:induction false} Locate(n: Node?, ctx: seq<Frame>, p: Node?, sub: Tree, t: Tree, node: Node)
    returns (c: seq<Frame>, at: Tree)
    requires AtPoint(n, ctx, p, sub, t) && node in Nodes(sub)
    ensures AtPoint(n, c, node, at, t)
    decreases sub
  {
    if sub.node == node {
      c, at := ctx, sub;
    } else {
      var f, below := Descend(n, ctx, sub.node, sub, t, node in Nodes(sub.left));
      c, at := Locate(n, ctx + [f], Child(f), below, t, node);
    }
  }

  lemma AddressSpace()
    ensures Pow2(64) == ADDRESSES
  {
    Pow2Square(4, 0x10);
    Pow2Square(8, 0x100);
    Pow2Square(16, 0x1_0000);
    Pow2Square(32, 0x1_0000_0000);
  }

  /** The fixed path array is long enough for every path. */
  lemma PathFits(ctx: seq<Frame>, sub: Tree, t: Tree)
    requires PlugAll(ctx, sub) == t && LL(t) && !IsRed(t) && |Inorder(t)| + 1 < ADDRESSES
    ensures |ctx| + (if sub.T? then 1 else 0) < PATH_LEN
  {
    AddressSpace();
    HeightBound(t, 63);
    PathLength(ctx, sub);
  }
}
