/**
 The way up of insert, one level at a time, on linked nodes.
 */
module RbInsert {
  import opened RbShape
  import opened RbPaths
  import opened RbOrder

  /** rbtn_red_get: the sentinel is black. */
  predicate IsRedNode(n: Node?)
    reads n
  {
    n != null && n.red
  }

  /** The subtree cur at child is about to be hung below frame f. */
  ghost predicate AtFrame(f: Frame, cnode: Node, cmp: int, child: Node?, cur: Tree)
    reads f.node, Nodes(f.sib), Nodes(cur)
  {
    && f.node == cnode && (cmp < 0 <==> f.goLeft)
    && RepFrame(f) && Rep(child, cur) && Sep(cur)
    && f.node !in Nodes(cur) && f.node !in Nodes(f.sib) && Nodes(f.sib) !! Nodes(cur) && Sep(f.sib)
  }

  /** insert: left child and its left child are red, fix up a 4-node. */
  method FixFourNode(cnode: Node, left: Node, ghost f: Frame, ghost cur: Tree) returns (tnode: Node)
    requires AtFrame(f, cnode, -1, left, cur) && IsRed(cur) && IsRed(cur.left) && cnode.left == left
    modifies cnode, Nodes(cur)
    ensures Rep(tnode, InsertFix(f, cur)) && Sep(InsertFix(f, cur))
  {
    var leftleft := left.left;
    ghost var ll := cur.left;
    Unfold(left, cur);
    Unfold(leftleft, ll);
    leftleft.red := false;
    assert Rep(leftleft.left, ll.left) && Rep(leftleft.right, ll.right) && Rep(left.right, cur.right);
    // rbtn_rotate_right
    tnode := cnode.left;
    cnode.left := tnode.right;
    tnode.right := cnode;
    assert Rep(leftleft, ll.(red := false)) && Rep(cnode, T(cur.right, f.node, f.red, f.sib));
  }

  lemma SplitSep(f: Frame, cur: Tree)
    requires !f.goLeft && IsRed(cur) && IsRed(f.sib) && Sep(cur) && Sep(f.sib)
    requires f.node !in Nodes(cur) && f.node !in Nodes(f.sib) && Nodes(f.sib) !! Nodes(cur)
    ensures Sep(InsertFix(f, cur))
    ensures InsertFix(f, cur) == T(f.sib.(red := false), f.node, true, cur.(red := false))
  {
  }

  /** insert: both children are red, split a 4-node. */
  method SplitFourNode(cnode: Node, right: Node, ghost f: Frame, ghost cur: Tree)
    requires AtFrame(f, cnode, 1, right, cur) && IsRed(cur) && IsRed(f.sib) && cnode.right == right
    modifies cnode, Nodes(cur), Nodes(f.sib)
    ensures Rep(cnode, InsertFix(f, cur)) && Sep(InsertFix(f, cur))
  {
    SplitSep(f, cur);
    hide Sep, InsertFix;
    var left := cnode.left;
    Unfold(right, cur);
    Unfold(left, f.sib);
    left.red := false;
    right.red := false;
    cnode.red := true;
    assert Rep(right.left, cur.left) && Rep(right.right, cur.right);
    assert Rep(left.left, f.sib.left) && Rep(left.right, f.sib.right);
  }

  /** insert: only the right child is red, lean left. */
  method LeanLeft(cnode: Node, right: Node, ghost f: Frame, ghost cur: Tree) returns (tnode: Node)
    requires AtFrame(f, cnode, 1, right, cur) && IsRed(cur) && !IsRed(f.sib) && cnode.right == right
    modifies cnode, Nodes(cur)
    ensures Rep(tnode, InsertFix(f, cur)) && Sep(InsertFix(f, cur))
  {
    Unfold(right, cur);
    var tred := cnode.red;
    // rbtn_rotate_left
    tnode := cnode.right;
    cnode.right := tnode.left;
    tnode.left := cnode;
    tnode.red := tred;
    cnode.red := true;
    assert Rep(cnode.left, f.sib) && Rep(cnode.right, cur.left) && Rep(tnode.right, cur.right);
    assert Nodes(T(f.sib, f.node, true, cur.left)) == Nodes(f.sib) + {f.node} + Nodes(cur.left);
  }

  /** The body of the loop that unwinds insert: hang the subtree below cnode, then rebalance or stop. */
  method InsertStep(cnode: Node, cmp: int, child: Node, ghost f: Frame, ghost cur: Tree) returns (r: Node, stop: bool)
    requires AtFrame(f, cnode, cmp, child, cur)
    modifies cnode, Nodes(cur), Nodes(f.sib)
    ensures stop <==> !IsRed(cur)
    ensures stop ==> r == cnode && Rep(cnode, Plug(f, cur))
    ensures !stop ==> Rep(r, InsertFix(f, cur)) && Sep(InsertFix(f, cur))
  {
    r, stop := cnode, false;
    if cmp < 0 {
      var left := child;
      cnode.left := left;
      Unfold(left, cur);
      if IsRedNode(left) {
        var leftleft := left.left;
        if IsRedNode(leftleft) {
          r := FixFourNode(cnode, left, f, cur);
        }
      } else {
        stop := true;
      }
    } else {
      var right := child;
      cnode.right := right;
      Unfold(right, cur);
      if IsRedNode(right) {
        var left := cnode.left;
        if IsRedNode(left) {
          SplitFourNode(cnode, right, f, cur);
        } else {
          r := LeanLeft(cnode, right, f, cur);
        }
      } else {
        stop := true;
      }
    }
  }

  /** The state of the way up: the path is open at its end, where the subtree cur at p is to be hung. */
  ghost predicate Unwinding(n: Node?, c: seq<Frame>, p: Node?, cur: Tree, s: set<Node>)
    reads CtxNodes(c), Nodes(cur)
  {
    OpenCtx(n, c) && Rep(p, cur) && SepCtx(c, Nodes(cur)) && Sep(cur) && CtxNodes(c) + Nodes(cur) == s
  }

  lemma AtLastFrame(n: Node?, c: seq<Frame>, p: Node?, cur: Tree, s: set<Node>)
    requires c != [] && Unwinding(n, c, p, cur, s)
    ensures var f, up := c[|c| - 1], c[..|c| - 1];
      && AtFrame(f, f.node, if f.goLeft then -1 else 1, p, cur) && RepCtx(n, up, f.node)
      && CtxNodes(up) !! Nodes(cur) + {f.node} + Nodes(f.sib)
      && CtxNodes(up) + (Nodes(cur) + {f.node} + Nodes(f.sib)) == s
      && SepCtx(up, Nodes(cur) + {f.node} + Nodes(f.sib))
  {
    var f, up := c[|c| - 1], c[..|c| - 1];
    SepCtxDisjoint(up, Nodes(cur) + {f.node} + Nodes(f.sib));
  }

  ghost predicate InsertInv(c: seq<Frame>, t0: Tree, cur: Tree, goal: seq<Node>) {
    LL(PlugAll(c, t0)) && !IsRed(PlugAll(c, t0)) && Inserted(t0, cur) && cur.T? && Inorder(PlugAll(c, cur)) == goal
  }

  lemma InsertInvReady(ctx: seq<Frame>, node: Node)
    requires LL(PlugAll(ctx, Leaf)) && !IsRed(PlugAll(ctx, Leaf))
    ensures InsertInv(ctx, Leaf, T(Leaf, node, true, Leaf), Before(ctx) + [node] + After(ctx))
    ensures Inorder(PlugAll(ctx, Leaf)) == Before(ctx) + After(ctx)
  {
    var leaf := T(Leaf, node, true, Leaf);
    InorderPlugAll(ctx, Leaf);
    InorderPlugAll(ctx, leaf);
    assert Inorder(leaf) == [node];
    assert Inserted(Leaf, leaf) by {
      assert LL(Leaf) && LL(leaf);
    }
  }

  lemma InsertReady(n: Node?, ctx: seq<Frame>, node: Node, t: Tree)
    requires AtPoint(n, ctx, null, Leaf, t) && node !in Nodes(t) && LL(t) && !IsRed(t)
    requires Rep(node, T(Leaf, node, true, Leaf))
    ensures Unwinding(n, ctx, node, T(Leaf, node, true, Leaf), Nodes(t) + {node})
    ensures InsertInv(ctx, Leaf, T(Leaf, node, true, Leaf), Before(ctx) + [node] + After(ctx))
    ensures Inorder(t) == Before(ctx) + After(ctx)
  {
    var leaf := T(Leaf, node, true, Leaf);
    NodesPlugAll(ctx, Leaf);
    SepCtxWiden(ctx, {}, {node});
    assert {} + {node} == {node} == Nodes(leaf);
    InsertInvReady(ctx, node);
  }

  lemma InsertInvStep(c: seq<Frame>, t0: Tree, cur: Tree, goal: seq<Node>)
    requires c != [] && InsertInv(c, t0, cur, goal) && IsRed(cur)
    ensures var f, up := c[|c| - 1], c[..|c| - 1];
      && InsertInv(up, Plug(f, t0), InsertFix(f, cur), goal)
      && Nodes(InsertFix(f, cur)) == Nodes(cur) + {f.node} + Nodes(f.sib)
  {
    var f, up := c[|c| - 1], c[..|c| - 1];
    LLPlugAll(c, t0);
    InsertFixCorrect(f, t0, cur);
    SameInorder(up, Plug(f, cur), InsertFix(f, cur));
  }

  lemma InsertStop(c: seq<Frame>, t0: Tree, cur: Tree, goal: seq<Node>)
    requires c != [] && InsertInv(c, t0, cur, goal) && !IsRed(cur)
    ensures LL(PlugAll(c, cur)) && !IsRed(PlugAll(c, cur)) && Inorder(PlugAll(c, cur)) == goal
  {
    LLReplace(c, t0, cur);
  }

  lemma AtTheRoot(n: Node?, p: Node?, t0: Tree, cur: Tree, s: set<Node>, goal: seq<Node>)
    requires Unwinding(n, [], p, cur, s) && InsertInv([], t0, cur, goal)
    ensures p != null && p in s && Rep(p, cur) && Sep(cur) && Inserted(t0, cur) && !IsRed(t0) && Inorder(cur) == goal
  {
  }

  /** One level of the way up of insert, with what it keeps. */
  method InsertLevel(cnode: Node, cmp: int, child: Node, ghost n: Node?, ghost c: seq<Frame>, ghost t0: Tree,
      ghost cur: Tree, ghost s: set<Node>, ghost goal: seq<Node>)
    returns (r: Node, stop: bool)
    requires c != [] && c[|c| - 1].node == cnode && (cmp < 0 <==> c[|c| - 1].goLeft)
    requires Unwinding(n, c, child, cur, s) && InsertInv(c, t0, cur, goal)
    modifies s
    ensures var f, up := c[|c| - 1], c[..|c| - 1];
      if stop then
        var t := PlugAll(c, cur);
        Rep(n, t) && Sep(t) && LL(t) && !IsRed(t) && Inorder(t) == goal && Nodes(t) == s
      else
        IsRed(cur) && Unwinding(n, up, r, InsertFix(f, cur), s) && InsertInv(up, Plug(f, t0), InsertFix(f, cur), goal)
  {
    ghost var f, up := c[|c| - 1], c[..|c| - 1];
    AtLastFrame(n, c, child, cur, s);
    r, stop := InsertStep(cnode, cmp, child, f, cur);
    assert RepCtx(n, up, f.node);
    if stop {
      InsertStop(c, t0, cur, goal);
      RepPlugAll(n, up, r, Plug(f, cur));
      SepPlugAll(c, cur);
    } else {
      InsertInvStep(c, t0, cur, goal);
    }
  }
}
