/**
 The way up of remove, one level at a time, on linked nodes.
 */
module RbRemove {
  import opened RbShape
  import opened RbPaths
  import opened RbOrder
  import opened RbInsert

  /** rbtn_rotate_left, on the tree t below a. */
  method RotateLeft(a: Node, ghost t: Tree) returns (r: Node)
    requires Rep(a, t) && Sep(t) && t.right.T? && a.right != null
    modifies a, a.right
    ensures var b := t.right; Rep(r, T(T(t.left, t.node, t.red, b.left), b.node, b.red, b.right))
    ensures var b := t.right; Sep(T(T(t.left, t.node, t.red, b.left), b.node, b.red, b.right))
  {
    Unfold(a, t);
    Unfold(a.right, t.right);
    r := a.right;
    a.right := r.left;
    r.left := a;
    assert Rep(a, T(t.left, t.node, t.red, t.right.left));
  }

  /** The trees below a frame share no node. */
  ghost predicate Apart(f: Frame, cur: Tree) {
    && Sep(cur) && Sep(f.sib) && f.node !in Nodes(cur) && f.node !in Nodes(f.sib) && Nodes(f.sib) !! Nodes(cur)
  }

  /** What a node and the nodes below it are, without the heap. */
  lemma SepParts(t: Tree)
    requires Sep(t) && t.T?
    ensures Sep(t.left) && Sep(t.right) && Nodes(t) == Nodes(t.left) + {t.node} + Nodes(t.right)
    ensures t.node !in Nodes(t.left) && t.node !in Nodes(t.right) && Nodes(t.left) !! Nodes(t.right)
    ensures forall red :: Sep(t.(red := red)) && Nodes(t.(red := red)) == Nodes(t)
  {
  }

  lemma SepWhole(l: Tree, x: Node, red: bool, r: Tree)
    requires Sep(l) && Sep(r) && x !in Nodes(l) && x !in Nodes(r) && Nodes(l) !! Nodes(r)
    ensures Sep(T(l, x, red, r)) && Nodes(T(l, x, red, r)) == Nodes(l) + {x} + Nodes(r)
  {
  }

  /** rbtn_rotate_right, on the tree t below a. */
  method RotateRight(a: Node, ghost t: Tree) returns (r: Node)
    requires Rep(a, t) && Sep(t) && t.left.T?
    modifies Nodes(t)
    ensures var b := t.left; Rep(r, T(b.left, b.node, b.red, T(b.right, t.node, t.red, t.right)))
  {
    Unfold(a, t);
    Unfold(a.left, t.left);
    r := a.left;
    a.left := r.right;
    r.right := a;
    assert Rep(a, T(t.left.right, t.node, t.red, t.right));
  }

  /** Rotate the sibling on the right to the right; all nodes are in s. */
  method TurnSibling(cnode: Node, ghost child: Node?, ghost f: Frame, ghost cur: Tree, ghost s: set<Node>)
    returns (ghost f': Frame)
    requires AtFrame(f, cnode, -1, child, cur) && cnode.left == child && f.sib.T? && f.sib.left.T?
    requires Nodes(f.sib) + Nodes(cur) <= s
    modifies cnode, Nodes(f.sib)
    ensures f' == f.(sib := Turned(f.sib)) && AtFrame(f', cnode, -1, child, cur) && cnode.left == child
    ensures Nodes(f'.sib) == Nodes(f.sib)
  {
    TurnedSep(f.sib);
    f' := f.(sib := Turned(f.sib));
    var r := RotateRight(cnode.right, f.sib);
    cnode.right := r;
  }

  ghost function Turned(t: Tree): Tree
    requires t.T? && t.left.T?
  {
    T(t.left.left, t.left.node, t.left.red, T(t.left.right, t.node, t.red, t.right))
  }

  lemma TurnedSep(t: Tree)
    requires t.T? && t.left.T? && Sep(t)
    ensures Sep(Turned(t)) && Nodes(Turned(t)) == Nodes(t)
  {
    hide Sep, Nodes;
    SepParts(t);
    SepParts(t.left);
    SepWhole(t.left.right, t.node, t.red, t.right);
    SepWhole(t.left.left, t.left.node, t.left.red, T(t.left.right, t.node, t.red, t.right));
  }

  /** Rotate to the left: the sibling on the right goes up. */
  method RaiseRight(cnode: Node, ghost child: Node?, ghost f: Frame, ghost cur: Tree) returns (tnode: Node)
    requires AtFrame(f, cnode, -1, child, cur) && cnode.left == child && f.sib.T?
    modifies cnode, Nodes(f.sib)
    ensures Rep(tnode, T(T(cur, f.node, f.red, f.sib.left), f.sib.node, f.sib.red, f.sib.right))
  {
    Unfold(cnode.right, f.sib);
    // rbtn_rotate_left
    tnode := cnode.right;
    cnode.right := tnode.left;
    tnode.left := cnode;
    assert Rep(cnode, T(cur, f.node, f.red, f.sib.left));
  }

  /** Rotate to the right: the sibling on the left goes up. */
  method RaiseLeft(cnode: Node, ghost child: Node?, ghost f: Frame, ghost cur: Tree) returns (tnode: Node)
    requires AtFrame(f, cnode, 1, child, cur) && cnode.right == child && f.sib.T?
    modifies cnode, Nodes(f.sib)
    ensures Rep(tnode, T(f.sib.left, f.sib.node, f.sib.red, T(f.sib.right, f.node, f.red, cur)))
  {
    Unfold(cnode.left, f.sib);
    // rbtn_rotate_right
    tnode := cnode.left;
    cnode.left := tnode.right;
    tnode.right := cnode;
    assert Rep(cnode, T(f.sib.right, f.node, f.red, cur));
  }

  /** The red of the node goes to the left child of its sibling. */
  method HandDown(cnode: Node, ghost child: Node?, ghost f: Frame, ghost cur: Tree) returns (ghost f': Frame)
    requires AtFrame(f, cnode, -1, child, cur) && f.sib.T? && IsRed(f.sib.left)
    modifies cnode`red, Nodes(f.sib)`red
    ensures f' == f.(red := false, sib := f.sib.(left := f.sib.left.(red := f.red))) && Nodes(f'.sib) == Nodes(f.sib)
    ensures AtFrame(f', cnode, -1, child, cur)
  {
    var right := cnode.right;
    Unfold(right, f.sib);
    var rightleft := right.left;
    Unfold(rightleft, f.sib.left);
    if cnode.red {
      cnode.red := false;
    } else {
      rightleft.red := false;
    }
    f' := f.(red := false, sib := f.sib.(left := f.sib.left.(red := f.red)));
    SepParts(f.sib);
    SepParts(f.sib.left);
    assert Rep(rightleft, f.sib.left.(red := f.red));
  }

  /** remove, hole on the left, sibling's left child red. */
  method LeftDouble(cnode: Node, ghost child: Node?, ghost f: Frame, ghost cur: Tree, ghost s: set<Node>)
    returns (tnode: Node)
    requires Nodes(f.sib) + Nodes(cur) <= s
    requires AtFrame(f, cnode, -1, child, cur) && cnode.left == child
    requires f.sib.T? && IsRed(f.sib.left)
    modifies cnode, Nodes(f.sib)
    ensures Rep(tnode, RemoveFix(f, cur).t)
  {
    ghost var f' := HandDown(cnode, child, f, cur);
    ghost var f2 := TurnSibling(cnode, child, f', cur, s);
    tnode := RaiseRight(cnode, child, f2, cur);
  }

  /** remove, hole on the left, sibling's left child black. */
  method LeftSingle(cnode: Node, ghost child: Node?, ghost f: Frame, ghost cur: Tree) returns (tnode: Node)
    requires AtFrame(f, cnode, -1, child, cur) && cnode.left == child
    requires f.sib.T? && !IsRed(f.sib.left)
    modifies cnode, Nodes(f.sib)
    ensures Rep(tnode, RemoveFix(f, cur).t)
  {
    Unfold(cnode.right, f.sib);
    if !cnode.red {
      cnode.red := true;
    }
    // rbtn_rotate_left
    tnode := cnode.right;
    cnode.right := tnode.left;
    tnode.left := cnode;
    assert Rep(cnode, T(cur, f.node, true, f.sib.left));
  }

  /** The red sibling raised above cnode, and its inner child between them. */
  ghost function Raised(f: Frame, cur: Tree): Tree
    requires f.sib.T? && f.sib.right.T?
  {
    var lr := f.sib.right;
    T(f.sib.left, f.sib.node, f.sib.red, T(lr.left, lr.node, lr.red, T(lr.right, f.node, f.red, cur)))
  }

  /** remove, hole on the right, sibling red: rotate right twice and link the two raised nodes. */
  method RaiseSibling(cnode: Node, ghost child: Node?, ghost f: Frame, ghost cur: Tree) returns (unode: Node)
    requires AtFrame(f, cnode, 1, child, cur) && cnode.right == child
    requires f.sib.T? && f.sib.right.T?
    modifies cnode, Nodes(f.sib)
    ensures Rep(unode, Raised(f, cur)) && unode.right != null
  {
    ghost var lr := f.sib.right;
    Unfold(cnode.left, f.sib);
    Unfold(cnode.left.right, lr);
    // rbtn_rotate_right
    unode := cnode.left;
    cnode.left := unode.right;
    unode.right := cnode;
    // rbtn_rotate_right
    var tnode := cnode.left;
    cnode.left := tnode.right;
    tnode.right := cnode;
    unode.right := tnode;
    assert Rep(cnode, T(lr.right, f.node, f.red, cur));
  }

  lemma RaisedSep(f: Frame, cur: Tree)
    requires f.sib.T? && f.sib.right.T? && Apart(f, cur)
    ensures Sep(Raised(f, cur))
  {
    hide Sep, Nodes;
    var lr := f.sib.right;
    SepParts(f.sib);
    SepParts(lr);
    SepWhole(lr.right, f.node, f.red, cur);
    SepWhole(lr.left, lr.node, lr.red, T(lr.right, f.node, f.red, cur));
    SepWhole(f.sib.left, f.sib.node, f.sib.red, T(lr.left, lr.node, lr.red, T(lr.right, f.node, f.red, cur)));
  }

  /** remove, hole on the right, sibling red, inner grandchild with a red left child. */
  method RightRedDouble(cnode: Node, ghost child: Node?, ghost f: Frame, ghost cur: Tree) returns (tnode: Node)
    requires AtFrame(f, cnode, 1, child, cur) && cnode.right == child
    requires Fixable(f) && IsRed(f.sib) && IsRed(f.sib.right.left)
    modifies cnode, Nodes(f.sib)
    ensures Rep(tnode, RemoveFix(f, cur).t)
  {
    var left := cnode.left;
    ghost var lr := f.sib.right;
    Unfold(left, f.sib);
    Unfold(left.right, lr);
    var leftrightleft := left.right.left;
    Unfold(leftrightleft, lr.left);
    leftrightleft.red := false;
    ghost var f' := f.(sib := f.sib.(right := lr.(left := lr.left.(red := false))));
    assert Rep(leftrightleft, lr.left.(red := false));
    assert Rep(left.right, f'.sib.right) && Nodes(f'.sib) == Nodes(f.sib);
    assert Sep(f'.sib.right);
    RaisedSep(f', cur);
    var unode := RaiseSibling(cnode, child, f', cur);
    tnode := RotateLeft(unode, Raised(f', cur));
  }

  /** remove, hole on the right, sibling red, inner grandchild without a red left child. */
  method RightRedSingle(cnode: Node, ghost child: Node?, ghost f: Frame, ghost cur: Tree) returns (tnode: Node)
    requires AtFrame(f, cnode, 1, child, cur) && cnode.right == child
    requires Fixable(f) && IsRed(f.sib) && !IsRed(f.sib.right.left)
    modifies cnode, Nodes(f.sib)
    ensures Rep(tnode, RemoveFix(f, cur).t)
  {
    var left := cnode.left;
    Unfold(left, f.sib);
    var leftright := left.right;
    Unfold(leftright, f.sib.right);
    leftright.red := true;
    // rbtn_rotate_right
    tnode := cnode.left;
    cnode.left := tnode.right;
    tnode.right := cnode;
    tnode.red := false;
    assert Rep(leftright, f.sib.right.(red := true));
    assert Rep(cnode, T(f.sib.right.(red := true), f.node, f.red, cur));
  }

  /** The red of the left child of the sibling goes away, and the red of the node to the sibling. */
  method HandUp(cnode: Node, ghost child: Node?, ghost f: Frame, ghost cur: Tree) returns (ghost f': Frame)
    requires AtFrame(f, cnode, 1, child, cur) && f.sib.T? && !IsRed(f.sib) && IsRed(f.sib.left)
    modifies cnode`red, Nodes(f.sib)`red
    ensures f' == f.(red := false, sib := T(f.sib.left.(red := false), f.sib.node, f.red, f.sib.right))
    ensures Nodes(f'.sib) == Nodes(f.sib) && AtFrame(f', cnode, 1, child, cur)
  {
    var left := cnode.left;
    Unfold(left, f.sib);
    var leftleft := left.left;
    Unfold(leftleft, f.sib.left);
    if cnode.red {
      cnode.red := false;
      left.red := true;
    }
    leftleft.red := false;
    f' := f.(red := false, sib := T(f.sib.left.(red := false), f.sib.node, f.red, f.sib.right));
    SepParts(f.sib.left);
    SepWhole(f.sib.left.(red := false), f.sib.node, f.red, f.sib.right);
    assert Rep(leftleft, f.sib.left.(red := false));
  }

  /** remove, hole on the right, sibling black with a red left child. */
  method RightRotate(cnode: Node, ghost child: Node?, ghost f: Frame, ghost cur: Tree) returns (tnode: Node)
    requires AtFrame(f, cnode, 1, child, cur) && cnode.right == child
    requires f.sib.T? && !IsRed(f.sib) && IsRed(f.sib.left)
    modifies cnode, Nodes(f.sib)
    ensures Rep(tnode, RemoveFix(f, cur).t)
  {
    ghost var f' := HandUp(cnode, child, f, cur);
    tnode := RaiseLeft(cnode, child, f', cur);
  }

  /** remove, hole on the right, sibling black without a red left child. */
  method RightRecolor(cnode: Node, ghost child: Node?, ghost f: Frame, ghost cur: Tree)
    requires AtFrame(f, cnode, 1, child, cur) && cnode.right == child
    requires f.sib.T? && !IsRed(f.sib) && !IsRed(f.sib.left)
    modifies cnode, Nodes(f.sib)
    ensures Rep(cnode, RemoveFix(f, cur).t)
  {
    var left := cnode.left;
    Unfold(left, f.sib);
    left.red := true;
    if cnode.red {
      cnode.red := false;
    }
    assert Rep(left, f.sib.(red := true));
  }

  /** Fixing a level up moves no node a second time into the tree. */
  lemma RemoveFixSep(f: Frame, cur: Tree)
    requires Fixable(f) && Apart(f, cur)
    ensures Sep(RemoveFix(f, cur).t)
  {
    hide Sep, Nodes;
    SepParts(f.sib);
    if f.goLeft {
      var rl := f.sib.left;
      if IsRed(rl) {
        SepParts(rl);
        SepWhole(cur, f.node, false, rl.left);
        SepWhole(rl.right, f.sib.node, f.sib.red, f.sib.right);
        SepWhole(T(cur, f.node, false, rl.left), rl.node, f.red, T(rl.right, f.sib.node, f.sib.red, f.sib.right));
      } else {
        SepWhole(cur, f.node, true, rl);
        SepWhole(T(cur, f.node, true, rl), f.sib.node, f.sib.red, f.sib.right);
      }
    } else if IsRed(f.sib) {
      RightRedSep(f, cur);
    } else if IsRed(f.sib.left) {
      SepParts(f.sib.left);
      SepWhole(f.sib.right, f.node, false, cur);
      SepWhole(f.sib.left.(red := false), f.sib.node, f.red, T(f.sib.right, f.node, false, cur));
    } else {
      SepWhole(f.sib.(red := true), f.node, false, cur);
    }
  }

  lemma RightRedSep(f: Frame, cur: Tree)
    requires Fixable(f) && Apart(f, cur) && !f.goLeft && IsRed(f.sib)
    ensures Sep(RemoveFix(f, cur).t)
  {
    hide Sep, Nodes;
    var lr := f.sib.right;
    SepParts(f.sib);
    SepParts(lr);
    if IsRed(lr.left) {
      SepParts(lr.left);
      SepWhole(f.sib.left, f.sib.node, f.sib.red, lr.left.(red := false));
      SepWhole(lr.right, f.node, f.red, cur);
      SepWhole(T(f.sib.left, f.sib.node, f.sib.red, lr.left.(red := false)), lr.node, lr.red,
               T(lr.right, f.node, f.red, cur));
    } else {
      SepWhole(lr.(red := true), f.node, f.red, cur);
      SepWhole(f.sib.left, f.sib.node, false, T(lr.(red := true), f.node, f.red, cur));
    }
  }

  /** The body of the loop that unwinds remove. */
  method RemoveStep(cnode: Node, cmp: int, child: Node?, ghost f: Frame, ghost cur: Tree, ghost s: set<Node>)
    returns (tnode: Node, stop: bool)
    requires Nodes(f.sib) + Nodes(cur) <= s
    requires AtFrame(f, cnode, cmp, child, cur) && Fixable(f)
    modifies cnode, Nodes(f.sib)
    ensures Rep(tnode, RemoveFix(f, cur).t) && Sep(RemoveFix(f, cur).t) && stop == RemoveFix(f, cur).done
  {
    var red := cnode.red;
    RemoveFixSep(f, cur);
    if cmp < 0 {
      cnode.left := child;
      var right := cnode.right;
      Unfold(right, f.sib);
      if IsRedNode(right.left) {
        tnode := LeftDouble(cnode, child, f, cur, s);
        stop := true;
      } else {
        tnode := LeftSingle(cnode, child, f, cur);
        stop := red;
      }
    } else {
      cnode.right := child;
      var left := cnode.left;
      Unfold(left, f.sib);
      if IsRedNode(left) {
        stop := true;
        Unfold(left.right, f.sib.right);
        if IsRedNode(left.right.left) {
          tnode := RightRedDouble(cnode, child, f, cur);
        } else {
          tnode := RightRedSingle(cnode, child, f, cur);
        }
      } else if IsRedNode(left.left) {
        tnode := RightRotate(cnode, child, f, cur);
        stop := true;
      } else {
        RightRecolor(cnode, child, f, cur);
        tnode := cnode;
        stop := red;
      }
    }
  }

  ghost predicate RemoveInv(c: seq<Frame>, t0: Tree, cur: Tree, goal: seq<Node>) {
    LL(PlugAll(c, t0)) && !IsRed(PlugAll(c, t0)) && Deficient(t0, cur) && Inorder(PlugAll(c, cur)) == goal
  }

  lemma RemoveInvStep(c: seq<Frame>, t0: Tree, cur: Tree, goal: seq<Node>)
    requires c != [] && RemoveInv(c, t0, cur, goal)
    ensures var f, up := c[|c| - 1], c[..|c| - 1];
      && Fixable(f)
      && var r := RemoveFix(f, cur);
      && Nodes(r.t) == Nodes(cur) + {f.node} + Nodes(f.sib)
      && if r.done then LL(PlugAll(up, r.t)) && !IsRed(PlugAll(up, r.t)) && Inorder(PlugAll(up, r.t)) == goal
         else RemoveInv(up, Plug(f, t0), r.t, goal)
  {
    var f, up := c[|c| - 1], c[..|c| - 1];
    LLPlugAll(c, t0);
    RemoveFixFixable(f, t0, cur);
    RemoveFixBalance(f, t0, cur);
    RemoveFixInorder(f, cur);
    var r := RemoveFix(f, cur);
    SameInorder(up, Plug(f, cur), r.t);
    if r.done {
      LLReplace(up, Plug(f, t0), r.t);
    }
  }

  /** One level of the way up of remove, with what it keeps. */
  method RemoveLevel(cnode: Node, cmp: int, child: Node?, ghost n: Node?, ghost c: seq<Frame>, ghost t0: Tree,
      ghost cur: Tree, ghost s: set<Node>, ghost goal: seq<Node>)
    returns (tnode: Node, stop: bool)
    requires c != [] && c[|c| - 1].node == cnode && (cmp < 0 <==> c[|c| - 1].goLeft)
    requires Unwinding(n, c, child, cur, s) && RemoveInv(c, t0, cur, goal)
    modifies s
    ensures var f, up := c[|c| - 1], c[..|c| - 1];
      && Fixable(f) && RepCtx(n, up, cnode)
      && var r := RemoveFix(f, cur);
      && Unwinding(n, up, tnode, r.t, s) && stop == r.done
      && if stop then LL(PlugAll(up, r.t)) && !IsRed(PlugAll(up, r.t)) && Inorder(PlugAll(up, r.t)) == goal
         else RemoveInv(up, Plug(f, t0), r.t, goal)
  {
    hide RemoveInv, RemoveFix, PlugAll, LL, IsRed, Inorder, Plug;
    ghost var f, up := c[|c| - 1], c[..|c| - 1];
    AtLastFrame(n, c, child, cur, s);
    RemoveInvStep(c, t0, cur, goal);
    tnode, stop := RemoveStep(cnode, cmp, child, f, cur, s);
    assert RepCtx(n, up, f.node);
  }

  lemma RedIsLeft(c: seq<Frame>, node: Node)
    requires c != [] && LL(PlugAll(c, T(Leaf, node, true, Leaf)))
    ensures c[|c| - 1].goLeft
  {
    LLPlugAll(c, T(Leaf, node, true, Leaf));
  }

  /** A node without a right child has at most one node below it, a red one. */
  lemma OnlyLeft(ctx: seq<Frame>, sub: Tree)
    requires LL(PlugAll(ctx, sub)) && sub.T? && sub.right.Leaf?
    ensures LL(sub) && (sub.left.T? ==> !sub.red && IsRed(sub.left) && LL(sub.left.(red := false))
                                        && BlackHeight(sub.left.(red := false)) == BlackHeight(sub))
    ensures sub.left.Leaf? ==> sub == T(Leaf, sub.node, sub.red, Leaf)
                               && Before(ctx) + Inorder(sub.left) + After(ctx) == Before(ctx) + After(ctx)
  {
    LLPlugAll(ctx, sub);
  }
}
