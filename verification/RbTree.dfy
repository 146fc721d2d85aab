/**
 The left-leaning red-black tree of rb.h, run on linked nodes: search, nsearch, first, next, prev,
 insert and remove follow child pointers, fill a path array of 128 entries on the way down and rewire
 pointers and colours in place on the way up, returning early as rb.h does.  A ghost Tree says what
 the nodes represent.
 */
module RbTree {
  import opened RbShape
  import opened RbPaths
  import opened RbOrder
  import opened RbInsert
  import opened RbRemove
  import opened RbSwap

  /** rbtn_first */
  method FirstBelow(n: Node, ghost t: Tree) returns (r: Node)
    requires Rep(n, t) && Sep(t)
    ensures Inorder(t) != [] && r == Inorder(t)[0]
  {
    r := n;
    ghost var sub := t;
    while r.left != null
      invariant Rep(r, sub) && sub.T? && Inorder(sub) <= Inorder(t)
      decreases sub
    {
      r := r.left;
      sub := sub.left;
    }
  }

  lemma InorderLast(t: Tree)
    requires t.T?
    ensures Inorder(t) != []
    ensures var last := Inorder(t)[|Inorder(t)| - 1];
      if t.right.T? then Inorder(t.right) != [] && last == Inorder(t.right)[|Inorder(t.right)| - 1] else last == t.node
  {
    if t.right.T? {
      assert t.right.node in Inorder(t.right);
    }
  }

  /** rbtn_last */
  method LastBelow(n: Node, ghost t: Tree) returns (r: Node)
    requires Rep(n, t) && Sep(t)
    ensures Inorder(t) != [] && r == Inorder(t)[|Inorder(t)| - 1]
  {
    r := n;
    ghost var sub := t;
    InorderLast(t);
    while r.right != null
      invariant Rep(r, sub) && sub.T?
      invariant Inorder(sub) != [] && Inorder(sub)[|Inorder(sub)| - 1] == Inorder(t)[|Inorder(t)| - 1]
      decreases sub
    {
      InorderLast(sub);
      r := r.right;
      sub := sub.right;
    }
    InorderLast(sub);
  }

  lemma LeftStep(n: Node?, c: seq<Frame>, x: Node, below: Tree, t: Tree, path: seq<PathEntry>)
    returns (g: Frame, below': Tree)
    requires AtPoint(n, c, x, below, t) && LL(t) && !IsRed(t) && |Inorder(t)| + 1 < ADDRESSES
    requires PathIs(path, c) && |c| < |path| == PATH_LEN
    ensures below.T? && below' == below.left && g.goLeft && |c| + 1 < PATH_LEN
    ensures AtPoint(n, c + [g], x.left, below', t)
    ensures PathIs(path[|c| := PathEntry(x, -1)][|c| + 1 := PathEntry(x.left, 0)], c + [g])
  {
    PathFits(c, below, t);
    g, below' := Descend(n, c, x, below, t, true);
    PathExtend(path, c, g, PathEntry(x, -1), PathEntry(x.left, 0));
  }

  lemma LeftsPush(c0: seq<Frame>, lefts: seq<Frame>, g: Frame)
    requires Lefts(lefts) && g.goLeft
    ensures Lefts(lefts + [g]) && c0 + lefts + [g] == c0 + (lefts + [g])
  {
  }

  /** What removing a node with a right child needs to know of the exchange. */
  lemma ExchangeShape(ctx: seq<Frame>, fn: Frame, b: seq<Frame>, last: Frame, t: Tree)
    requires PlugAll(ctx + [fn] + (b + [last]), Leaf) == t && LL(t) && !IsRed(t)
    requires SepCtx(ctx + [fn] + (b + [last]), {}) && !fn.goLeft && last.goLeft && Lefts(b)
    ensures var c := ctx + [fn.(node := last.node)] + b;
      && SepCtx(c, {}) && CtxNodes(c) <= Nodes(t) && WithoutOne(Inorder(t), fn.node, Before(c) + After(c))
      && LL(PlugAll(c, T(Leaf, fn.node, last.red, Leaf))) && !IsRed(PlugAll(c, T(Leaf, fn.node, last.red, Leaf)))
    ensures Nodes(t) == CtxNodes(ctx + [fn] + (b + [last]))
  {
    var c := ctx + [fn] + (b + [last]);
    InorderPlugAll(c, Leaf);
    assert Inorder(t) == Before(c) + After(c);
    NodesPlugAll(c, Leaf);
    SwapShape(ctx, fn, b, last);
    SwapSep(ctx, fn, b, last);
    SwapOrder(ctx, fn, b, last);
    SwapWithin(ctx, fn, b, last);
  }

  class RbTree {
    var root: Node?
    ghost var t: Tree

    ghost predicate Linked()
      reads this, Nodes(t)
    {
      Rep(root, t) && Sep(t)
    }

    /** The tree is balanced, in search order, and small enough to be addressed. */
    ghost predicate Valid()
      reads this, Nodes(t)
    {
      Linked() && LL(t) && !IsRed(t) && Sorted(Inorder(t)) && |Inorder(t)| + 1 < ADDRESSES
    }

    ghost function Contents(): seq<Node>
      reads this
    {
      Inorder(t)
    }

    constructor ()
      ensures Valid() && Contents() == []
    {
      root, t := null, Leaf;
    }

    /** The way down of insert: fill the path with nodes and comparison results. */
    method Wind(node: Node) returns (path: seq<PathEntry>, n: nat, ghost ctx: seq<Frame>)
      requires Valid()
      requires forall x :: x in Contents() ==> x.key != node.key
      ensures n == |ctx| < |path| == PATH_LEN && path[n].node == null && PathIs(path, ctx)
      ensures AtPoint(root, ctx, null, Leaf, t) && Between(ctx, node.key)
    {
      n, ctx := 0, [];
      ghost var sub := t;
      path := seq(PATH_LEN, _ => PathEntry(null, 0))[0 := PathEntry(root, 0)];
      while path[n].node != null
        invariant n == |ctx| < |path| == PATH_LEN && PathIs(path, ctx)
        invariant AtPoint(root, ctx, path[n].node, sub, t) && Between(ctx, node.key)
        decreases sub
      {
        var x := path[n].node;
        var cmp := Compare(node.key, x.key);
        SortedAt(ctx, sub);
        ghost var f, below := SearchStep(root, ctx, x, sub, t, node.key);
        PathFits(ctx, sub, t);
        var below' := PathEntry(if cmp < 0 then x.left else x.right, 0);
        PathExtend(path, ctx, f, PathEntry(x, cmp), below');
        path := path[n := PathEntry(x, cmp)][n + 1 := below'];
        ctx, sub := ctx + [f], below;
        n := n + 1;
      }
    }

    method Insert(node: Node)
      requires Valid() && node !in Nodes(t) && |Contents()| + 2 < ADDRESSES
      requires forall x :: x in Contents() ==> x.key != node.key
      modifies this, Nodes(t), node
      ensures Valid()
      ensures exists k ::
        0 <= k <= |old(Contents())| && Contents() == old(Contents())[..k] + [node] + old(Contents())[k..]
    {
      // rbt_node_new
      node.left, node.right, node.red := null, null, true;
      var path, n, ctx := Wind(node);
      path := path[n := PathEntry(node, 0)];
      InsertReady(root, ctx, node, t);
      ghost var before, after := Before(ctx), After(ctx);
      assert Contents() == before + after && Contents()[..|before|] == before && Contents()[|before|..] == after;
      InsertUnwind(node, path, n, ctx, Nodes(t) + {node}, before + [node] + after);
      SortedInsert(before, node, after);
    }

    /** rbtree->rbt_root = path->node, made black. */
    method SetRoot(top: Node, ghost cur: Tree, ghost t0: Tree)
      requires Rep(top, cur) && Sep(cur) && Inserted(t0, cur) && !IsRed(t0)
      modifies this, top
      ensures Linked() && LL(t) && !IsRed(t) && Inorder(t) == Inorder(cur)
    {
      Unfold(top, cur);
      root := top;
      root.red := false;
      t := cur.(red := false);
    }

    /** The way up of insert. */
    method InsertUnwind(node: Node, path: seq<PathEntry>, n: nat, ghost ctx: seq<Frame>, ghost s: set<Node>,
        ghost goal: seq<Node>)
      requires n == |ctx| < |path| && path[n].node == node && PathIs(path, ctx)
      requires Unwinding(root, ctx, node, T(Leaf, node, true, Leaf), s)
      requires InsertInv(ctx, Leaf, T(Leaf, node, true, Leaf), goal)
      modifies this, s
      ensures Linked() && LL(t) && !IsRed(t) && Inorder(t) == goal
    {
      hide Unwinding, InsertInv, InsertFix, PlugAll, Plug, Rep, Sep, LL, IsRed, Inorder, Inserted;
      hide Nodes, CtxNodes;
      var i, path := n, path;
      ghost var c, t0, cur := ctx, Leaf, T(Leaf, node, true, Leaf);
      while i > 0
        invariant i == |c| < |path| && PathIs(path, c) && path[i].node != null
        invariant Unwinding(root, c, path[i].node, cur, s) && InsertInv(c, t0, cur, goal)
      {
        i := i - 1;
        ghost var f := c[i];
        var cnode, stop := InsertLevel(path[i].node, path[i].cmp, path[i + 1].node, root, c, t0, cur, s, goal);
        if stop {
          t := PlugAll(c, cur);
          return;
        }
        PathShrink(path, c, i, path[i].(node := cnode));
        path := path[i := path[i].(node := cnode)];
        c, t0, cur := c[..i], Plug(f, t0), InsertFix(f, cur);
      }
      AtTheRoot(root, path[0].node, t0, cur, s, goal);
      SetRoot(path[0].node, cur, t0);
    }

    /** Hang r where the path ends: the parent's child pointer, or the root. */
    method Hook(path: seq<PathEntry>, i: nat, r: Node?, ghost c: seq<Frame>)
      requires i == |c| && PathIs(path, c) && OpenCtx(root, c) && SepCtx(c, {})
      modifies this`root, if c == [] then {} else {c[|c| - 1].node}
      ensures RepCtx(root, c, r)
    {
      if i == 0 {
        root := r;
      } else {
        SepCtxDisjoint(c[..i - 1], {} + {c[i - 1].node} + Nodes(c[i - 1].sib));
        var parent := path[i - 1].node;
        if path[i - 1].cmp < 0 {
          parent.left := r;
        } else {
          parent.right := r;
        }
      }
    }

    /** The way up of remove, from the sentinel that took the place of a black leaf. */
    method RemoveUnwind(path: seq<PathEntry>, n: nat, ghost ctx: seq<Frame>, ghost t0: Tree, ghost s: set<Node>,
        ghost goal: seq<Node>)
      requires n == |ctx| < |path| && path[n].node == null && PathIs(path, ctx)
      requires Unwinding(root, ctx, null, Leaf, s) && RemoveInv(ctx, t0, Leaf, goal)
      modifies this, s
      ensures Linked() && LL(t) && !IsRed(t) && Inorder(t) == goal
    {
      var i, path := n, path;
      ghost var c, t0, cur := ctx, t0, Leaf;
      while i > 0
        invariant i == |c| < |path| && PathIs(path, c)
        invariant Unwinding(root, c, path[i].node, cur, s) && RemoveInv(c, t0, cur, goal)
      {
        i := i - 1;
        ghost var f := c[i];
        var tnode, stop := RemoveLevel(path[i].node, path[i].cmp, path[i + 1].node, root, c, t0, cur, s, goal);
        PathShrink(path, c, i, path[i].(node := tnode));
        if stop {
          RemoveStop(path, i, tnode, c[..i], f.node, RemoveFix(f, cur).t, s);
          return;
        }
        path := path[i := path[i].(node := tnode)];
        c, t0, cur := c[..i], Plug(f, t0), RemoveFix(f, cur).t;
      }
      root := path[0].node;
      t := cur;
    }

    /** Balance is restored: hang the subtree unless its root stayed in place. */
    method RemoveStop(path: seq<PathEntry>, i: nat, tnode: Node, ghost c: seq<Frame>, ghost was: Node, ghost cur: Tree,
        ghost s: set<Node>)
      requires i == |c| < |path| && PathIs(path[i := path[i].(node := tnode)], c) && path[i].node == was
      requires Unwinding(root, c, tnode, cur, s) && RepCtx(root, c, was)
      requires LL(PlugAll(c, cur)) && !IsRed(PlugAll(c, cur))
      modifies this, s
      ensures Linked() && t == PlugAll(c, cur)
    {
      SepCtxDisjoint(c, Nodes(cur));
      SepCtxShrink(c, Nodes(cur), {});
      if tnode != path[i].node {
        Hook(path, i, tnode, c);
      }
      RepPlugAll(root, c, tnode, cur);
      SepPlugAll(c, cur);
      t := PlugAll(c, cur);
    }

    /** The way down of remove, to the node itself; its entry records a step to the right. */
    method WindTo(node: Node) returns (path: seq<PathEntry>, d: nat, ghost ctx: seq<Frame>, ghost sub: Tree)
      requires Valid() && node in Nodes(t)
      ensures d == |ctx| && d + 1 < |path| == PATH_LEN && PathIs(path, ctx) && path[d] == PathEntry(node, 1)
      ensures path[d + 1].node == node.right
      ensures AtPoint(root, ctx, node, sub, t)
    {
      d, ctx, sub := 0, [], t;
      path := seq(PATH_LEN, _ => PathEntry(null, 0))[0 := PathEntry(root, 0)];
      while true
        invariant d == |ctx| < |path| == PATH_LEN && PathIs(path, ctx)
        invariant AtPoint(root, ctx, path[d].node, sub, t) && node in Nodes(sub)
        decreases sub
      {
        var x := path[d].node;
        var cmp := Compare(node.key, x.key);
        PathFits(ctx, sub, t);
        FindStep(ctx, x, sub, node);
        var below' := PathEntry(if cmp < 0 then x.left else x.right, 0);
        if cmp == 0 {
          path := path[d := PathEntry(x, 1)][d + 1 := below'];
          break;
        }
        ghost var f, below := Descend(root, ctx, x, sub, t, cmp < 0);
        PathExtend(path, ctx, f, PathEntry(x, cmp), below');
        path := path[d := PathEntry(x, cmp)][d + 1 := below'];
        ctx, sub := ctx + [f], below;
        d := d + 1;
      }
    }

    /** The rest of the way down of remove: to the leftmost node below the right child. */
    method WindSuccessor(path0: seq<PathEntry>, d: nat, ghost c0: seq<Frame>, ghost sub: Tree)
      returns (path: seq<PathEntry>, n: nat, ghost lefts: seq<Frame>)
      requires LL(t) && !IsRed(t) && |Inorder(t)| + 1 < ADDRESSES
      requires d + 1 == |c0| < |path0| == PATH_LEN && PathIs(path0, c0)
      requires AtPoint(root, c0, path0[d + 1].node, sub, t)
      ensures n == |c0 + lefts| < |path| == PATH_LEN && PathIs(path, c0 + lefts) && path[n].node == null
      ensures AtPoint(root, c0 + lefts, null, Leaf, t) && Lefts(lefts)
    {
      path, n, lefts := path0, d + 1, [];
      ghost var c, below := c0, sub;
      assert c0 + [] == c0;
      while path[n].node != null
        invariant c == c0 + lefts && n == |c| < |path| == PATH_LEN && PathIs(path, c)
        invariant AtPoint(root, c, path[n].node, below, t) && Lefts(lefts)
        decreases below
      {
        var x := path[n].node;
        ghost var g, below' := LeftStep(root, c, x, below, t, path);
        path := path[n := PathEntry(x, -1)][n + 1 := PathEntry(x.left, 0)];
        LeftsPush(c0, lefts, g);
        c, lefts, below := c + [g], lefts + [g], below';
        n := n + 1;
      }
    }

    /** Put the successor where the node is, with the node's colour and children. */
    method SwapSuccessor(path0: seq<PathEntry>, d: nat, n: nat, ghost ctx: seq<Frame>, ghost fn: Frame,
        ghost b: seq<Frame>, ghost last: Frame, ghost s: set<Node>)
      returns (path: seq<PathEntry>)
      requires d == |ctx| && n == |ctx| + 2 + |b| < |path0| && PathIs(path0, ctx + [fn] + (b + [last]))
      requires !fn.goLeft && RepCtx(root, ctx + [fn] + (b + [last]), null) && SepCtx(ctx + [fn] + (b + [last]), {})
      requires s == CtxNodes(ctx + [fn] + (b + [last]))
      modifies this`root, s
      ensures |path| == |path0| && PathIs(path, ctx + [fn.(node := last.node)] + b) && path[n - 1].node == fn.node
      ensures OpenCtx(root, ctx + [fn.(node := last.node)] + b) && fn.node.red == last.red
    {
      hide SepCtx, Sep, Rep;
      SwapPointers(root, ctx, fn, b, last);
      SwapApart(ctx, fn, b, last);
      SwapNodes(ctx, fn, b, last);
      PathEnds(path0, ctx, fn, b, last);
      var node, succ := path0[d].node, path0[n - 1].node;
      TakePlace(node, succ, root, ctx, fn, b, last);
      path := path0[d := path0[d].(node := succ)][n - 1 := path0[n - 1].(node := node)];
      SwapPath(path0, path, ctx, fn, b, last);
      Hook(path, d, succ, ctx);
      ghost var fs := fn.(node := last.node);
      assert RepFrame(fs) && RepCtx(succ.right, b, succ);
      SwapDone(root, ctx, fs, b);
    }

    /** Drop the childless node at the end of the path. */
    method Prune(path: seq<PathEntry>, m: nat, node: Node, ghost c: seq<Frame>, ghost red: bool, ghost s: set<Node>)
      requires 0 < m == |c| < |path| && PathIs(path, c) && path[m].node == node && node.red == red
      requires OpenCtx(root, c) && SepCtx(c, {}) && CtxNodes(c) <= s
      requires var leaf := T(Leaf, node, red, Leaf); LL(PlugAll(c, leaf)) && !IsRed(PlugAll(c, leaf))
      modifies this, s
      ensures Linked() && LL(t) && !IsRed(t) && Inorder(t) == Before(c) + After(c)
    {
      InorderPlugAll(c, Leaf);
      if node.red {
        RedIsLeft(c, node);
        SepCtxDisjoint(c[..m - 1], {} + {c[m - 1].node} + Nodes(c[m - 1].sib));
        path[m - 1].node.left := null;
        LLReplace(c, T(Leaf, node, true, Leaf), Leaf);
        RepPlugAll(root, c, null, Leaf);
        SepPlugAll(c, Leaf);
        t := PlugAll(c, Leaf);
      } else {
        assert CtxNodes(c) + Nodes(Leaf) == CtxNodes(c);
        RemoveUnwind(path[m := PathEntry(null, 0)], m, c, T(Leaf, node, false, Leaf), CtxNodes(c), Before(c)
            + After(c));
      }
    }

    /** remove when the node has a right child: exchange it with its successor, then drop it there. */
    method RemoveInner(path0: seq<PathEntry>, d: nat, n: nat, node: Node, ghost ctx: seq<Frame>, ghost fn: Frame,
        ghost b: seq<Frame>, ghost last: Frame, ghost s: set<Node>)
      requires d == |ctx| && n == |ctx| + 2 + |b| < |path0| && PathIs(path0, ctx + [fn] + (b + [last]))
      requires fn.node == node && !fn.goLeft && last.goLeft && Lefts(b)
      requires AtPoint(root, ctx + [fn] + (b + [last]), null, Leaf, t) && LL(t) && !IsRed(t) && s == Nodes(t)
      modifies this, s
      ensures Linked() && LL(t) && !IsRed(t) && WithoutOne(old(Inorder(t)), node, Inorder(t))
    {
      ExchangeShape(ctx, fn, b, last, t);
      var path := SwapSuccessor(path0, d, n, ctx, fn, b, last, s);
      Prune(path, n - 1, node, ctx + [fn.(node := last.node)] + b, last.red, s);
    }

    /** Splice the node out, without losing its left child. */
    method Splice(path: seq<PathEntry>, d: nat, left: Node, ghost ctx: seq<Frame>, ghost sub: Tree, ghost s: set<Node>)
      requires d == |ctx| && PathIs(path, ctx) && sub.T?
      requires OpenCtx(root, ctx) && SepCtx(ctx, Nodes(sub.left)) && Rep(left, sub.left) && Sep(sub.left)
      requires LL(PlugAll(ctx, sub)) && !IsRed(PlugAll(ctx, sub)) && CtxNodes(ctx) + Nodes(sub.left) <= s
      requires LL(sub.left.(red := false)) && BlackHeight(sub.left.(red := false)) == BlackHeight(sub)
      modifies this, s
      ensures Linked() && LL(t) && !IsRed(t) && Inorder(t) == Before(ctx) + Inorder(sub.left) + After(ctx)
    {
      ghost var kid := sub.left.(red := false);
      Unfold(left, sub.left);
      SepCtxDisjoint(ctx, Nodes(sub.left));
      SepCtxShrink(ctx, Nodes(sub.left), {});
      left.red := false;
      Hook(path, d, left, ctx);
      LLReplace(ctx, sub, kid);
      InorderPlugAll(ctx, kid);
      RepPlugAll(root, ctx, left, kid);
      SepPlugAll(ctx, kid);
      t := PlugAll(ctx, kid);
    }

    /** remove when the node has no right child. */
    method RemoveLast(path: seq<PathEntry>, d: nat, node: Node, ghost ctx: seq<Frame>, ghost sub: Tree,
        ghost s: set<Node>)
      requires d == |ctx| < |path| && PathIs(path, ctx) && path[d].node == node
      requires AtPoint(root, ctx, node, sub, t) && LL(t) && !IsRed(t) && sub.T? && sub.right.Leaf? && s == Nodes(t)
      modifies this, s
      ensures Linked() && LL(t) && !IsRed(t) && Inorder(t) == Before(ctx) + Inorder(sub.left) + After(ctx)
    {
      Unfold(node, sub);
      OnlyLeft(ctx, sub);
      NodesPlugAll(ctx, sub);
      SepCtxShrink(ctx, Nodes(sub), Nodes(sub.left));
      SepCtxShrink(ctx, Nodes(sub), {});
      if node.left != null {
        Splice(path, d, node.left, ctx, sub, s);
      } else if d == 0 {
        // The tree only contained one node.
        root, t := null, Leaf;
        assert ctx == [] && Before(ctx) + Inorder(sub.left) + After(ctx) == [];
      } else {
        Prune(path, d, node, ctx, sub.red, s);
      }
    }

    method Remove(node: Node)
      requires Valid() && node in Nodes(t)
      modifies this, Nodes(t)
      ensures Valid()
      ensures WithoutOne(old(Contents()), node, Contents())
    {
      var path, d, ctx, sub := WindTo(node);
      ghost var s, order := Nodes(t), Contents();
      ghost var fn, below := Descend(root, ctx, node, sub, t, false);
      PathTurn(path, ctx, fn);
      var n;
      ghost var lefts;
      path, n, lefts := WindSuccessor(path, d, ctx + [fn], below);
      if n - 1 != d {
        assert lefts == lefts[..|lefts| - 1] + [lefts[|lefts| - 1]];
        RemoveInner(path, d, n, node, ctx, fn, lefts[..|lefts| - 1], lefts[|lefts| - 1], s);
      } else {
        assert ctx + [fn] + lefts == ctx + [fn];
        Ascend(root, ctx, fn, null, Leaf, t);
        OnlyLeftOrder(ctx, Plug(fn, Leaf));
        PathBack(path, ctx, fn);
        RemoveLast(path, d, node, ctx, Plug(fn, Leaf), s);
      }
      SortedWithout(order, node, Contents());
    }

    method Search(key: int) returns (ret: Node?)
      requires Valid()
      ensures ret != null ==> ret in Contents() && ret.key == key
      ensures ret == null ==> forall x :: x in Contents() ==> x.key != key
    {
      ret := root;
      ghost var ctx, sub := [], t;
      while ret != null && Compare(key, ret.key) != 0
        invariant AtPoint(root, ctx, ret, sub, t) && Between(ctx, key)
        decreases sub
      {
        ghost var f, below := SearchStep(root, ctx, ret, sub, t, key);
        ret := if Compare(key, ret.key) < 0 then ret.left else ret.right;
        ctx, sub := ctx + [f], below;
      }
      InorderPlugAll(ctx, sub);
    }

    /** The least node whose key is not below the given one. */
    method NSearch(key: int) returns (ret: Node?)
      requires Valid()
      ensures LeastFrom(Contents(), key, ret)
    {
      var tnode := root;
      ret := null;
      ghost var ctx, sub := [], t;
      while tnode != null
        invariant AtPoint(root, ctx, tnode, sub, t) && Between(ctx, key)
        invariant HeadAfter(ctx, ret)
        decreases sub
      {
        var cmp := Compare(key, tnode.key);
        if cmp == 0 {
          ret := tnode;
          NSearchHit(ctx, sub, key);
          return;
        }
        ghost var f, below := SearchStep(root, ctx, tnode, sub, t, key);
        HeadAfterStep(ctx, f, ret);
        if cmp < 0 {
          ret := tnode;
          tnode := tnode.left;
        } else {
          tnode := tnode.right;
        }
        ctx, sub := ctx + [f], below;
      }
      NSearchMiss(ctx, key, ret);
    }

    method First() returns (ret: Node?)
      requires Valid()
      ensures if Contents() == [] then ret == null else ret == Contents()[0]
    {
      ret := root;
      if ret != null {
        ret := FirstBelow(ret, t);
      }
    }

    /** The node's successor in the order, null at the end. */
    method Next(node: Node) returns (ret: Node?)
      requires Valid() && node in Nodes(t)
      ensures Follows(Contents(), node, ret)
    {
      if node.right != null {
        ghost var ctx, sub := Locate(root, [], root, t, t, node);
        SortedAt(ctx, sub);
        Unfold(node, sub);
        ret := FirstBelow(node.right, sub.right);
        FollowsBelow(ctx, sub);
        return;
      }
      var tnode := root;
      ret := null;
      ghost var ctx, sub := [], t;
      while true
        invariant AtPoint(root, ctx, tnode, sub, t) && node in Nodes(sub) && HeadAfter(ctx, ret)
        decreases sub
      {
        var cmp := Compare(node.key, tnode.key);
        FindStep(ctx, tnode, sub, node);
        if cmp == 0 {
          break;
        }
        ghost var f, below := Descend(root, ctx, tnode, sub, t, cmp < 0);
        HeadAfterStep(ctx, f, ret);
        if cmp < 0 {
          ret := tnode;
          tnode := tnode.left;
        } else {
          tnode := tnode.right;
        }
        ctx, sub := ctx + [f], below;
      }
      Unfold(node, sub);
      FollowsAbove(ctx, sub, ret);
    }

    /** The node's predecessor in the order, null at the start. */
    method Prev(node: Node) returns (ret: Node?)
      requires Valid() && node in Nodes(t)
      ensures Precedes(Contents(), ret, node)
    {
      if node.left != null {
        ghost var ctx, sub := Locate(root, [], root, t, t, node);
        Unfold(node, sub);
        ret := LastBelow(node.left, sub.left);
        PrecedesBelow(ctx, sub);
        return;
      }
      var tnode := root;
      ret := null;
      ghost var ctx, sub := [], t;
      while true
        invariant AtPoint(root, ctx, tnode, sub, t) && node in Nodes(sub) && LastBefore(ctx, ret)
        decreases sub
      {
        var cmp := Compare(node.key, tnode.key);
        FindStep(ctx, tnode, sub, node);
        if cmp == 0 {
          break;
        }
        ghost var f, below := Descend(root, ctx, tnode, sub, t, cmp < 0);
        LastBeforeStep(ctx, f, ret);
        if cmp < 0 {
          tnode := tnode.left;
        } else {
          ret := tnode;
          tnode := tnode.right;
        }
        ctx, sub := ctx + [f], below;
      }
      Unfold(node, sub);
      PrecedesAbove(ctx, sub, ret);
    }
  }
}
