/**
 remove's exchange of a node with its successor, which lies at the end of a path of left turns.
 */
module RbSwap {
  import opened RbShape
  import opened RbPaths
  import opened RbOrder

  lemma ConcatLast(a: seq<Frame>, b: seq<Frame>)
    requires b != []
    ensures (a + b)[..|a + b| - 1] == a + b[..|b| - 1] && (a + b)[|a + b| - 1] == b[|b| - 1]
  {
  }

  lemma ConcatOne(c: seq<Frame>, f: Frame, t: Tree)
    ensures PlugAll(c + [f], t) == PlugAll(c, Plug(f, t))
  {
    assert (c + [f])[..|c|] == c;
  }

  lemma {:induction false} ConcatPlug(a: seq<Frame>, b: seq<Frame>, t: Tree)
    ensures PlugAll(a + b, t) == PlugAll(a, PlugAll(b, t))
  {
    if b == [] {
      assert a + b == a;
    } else {
      ConcatLast(a, b);
      ConcatPlug(a, b[..|b| - 1], Plug(b[|b| - 1], t));
    }
  }

  lemma {:induction false} ConcatOrder(a: seq<Frame>, b: seq<Frame>)
    ensures Before(a + b) == Before(a) + Before(b)
    ensures After(a + b) == After(b) + After(a)
  {
    if b == [] {
      assert a + b == a;
    } else {
      var f, up := b[|b| - 1], b[..|b| - 1];
      ConcatLast(a, b);
      ConcatOrder(a, up);
      BeforeLast(a + b);
      BeforeLast(b);
      hide *;
      Associative(Before(a), Before(up), if f.goLeft then [] else Inorder(f.sib) + [f.node]);
      Associative(if f.goLeft then [f.node] + Inorder(f.sib) else [], After(up), After(a));
    }
  }

  lemma BeforeLast(ctx: seq<Frame>)
    requires ctx != []
    ensures var f, up := ctx[|ctx| - 1], ctx[..|ctx| - 1];
      && Before(ctx) == Before(up) + (if f.goLeft then [] else Inorder(f.sib) + [f.node])
      && After(ctx) == (if f.goLeft then [f.node] + Inorder(f.sib) else []) + After(up)
  {
  }

  lemma {:induction false} ConcatNodes(a: seq<Frame>, b: seq<Frame>)
    ensures CtxNodes(a + b) == CtxNodes(a) + CtxNodes(b)
  {
    if b == [] {
      assert a + b == a;
    } else {
      ConcatLast(a, b);
      ConcatNodes(a, b[..|b| - 1]);
    }
  }

  lemma {:induction false} ConcatSep(a: seq<Frame>, b: seq<Frame>, s: set<Node>)
    ensures SepCtx(a + b, s) <==> SepCtx(b, s) && SepCtx(a, s + CtxNodes(b))
  {
    if b == [] {
      assert a + b == a && s + CtxNodes(b) == s;
    } else {
      var f, up := b[|b| - 1], b[..|b| - 1];
      assert (a + b)[..|a + b| - 1] == a + up;
      ConcatSep(a, up, s + {f.node} + Nodes(f.sib));
      assert s + {f.node} + Nodes(f.sib) + CtxNodes(up) == s + CtxNodes(b);
    }
  }

  lemma {:induction false} ConcatRep(n: Node?, a: seq<Frame>, m: Node?, b: seq<Frame>, hole: Node?)
    requires RepCtx(n, a, m) && RepCtx(m, b, hole)
    ensures RepCtx(n, a + b, hole)
  {
    if b == [] {
      assert a + b == a;
    } else {
      var f, up := b[|b| - 1], b[..|b| - 1];
      assert (a + b)[..|a + b| - 1] == a + up;
      ConcatRep(n, a, m, up, f.node);
    }
  }

  lemma {:induction false} SplitRep(n: Node?, a: seq<Frame>, b: seq<Frame>, hole: Node?)
    requires RepCtx(n, a + b, hole) && b != []
    ensures RepCtx(n, a, b[0].node) && RepCtx(b[0].node, b, hole)
  {
    var f, up := b[|b| - 1], b[..|b| - 1];
    assert (a + b)[..|a + b| - 1] == a + up;
    if up == [] {
      assert a + up == a;
    } else {
      SplitRep(n, a, up, f.node);
    }
  }

  /** Every turn on the path is to the left. */
  ghost predicate Lefts(b: seq<Frame>) {
    forall i :: 0 <= i < |b| ==> b[i].goLeft
  }

  lemma {:induction false} LeftsBefore(b: seq<Frame>)
    requires Lefts(b)
    ensures Before(b) == []
  {
    if b != [] {
      LeftsBefore(b[..|b| - 1]);
    }
  }

  /** What lies after a path of left turns that ends in a childless node: first that node. */
  lemma LeftsAfter(b: seq<Frame>, last: Frame)
    requires last.goLeft && last.sib.Leaf?
    ensures After(b + [last]) == [last.node] + After(b)
  {
    assert (b + [last])[..|b|] == b;
  }

  lemma TurnOrder(ctx: seq<Frame>, f: Frame, b: seq<Frame>)
    requires !f.goLeft && Lefts(b)
    ensures Before(ctx + [f] + b) == Before(ctx) + Inorder(f.sib) + [f.node]
    ensures After(ctx + [f] + b) == After(b) + After(ctx)
  {
    ConcatOrder(ctx + [f], b);
    LeftsBefore(b);
    assert (ctx + [f])[..|ctx|] == ctx;
    assert Before(ctx + [f]) == Before(ctx) + (Inorder(f.sib) + [f.node]);
  }

  /** The exchange drops exactly the removed node from the order. */
  lemma SwapOrder(ctx: seq<Frame>, fn: Frame, b: seq<Frame>, last: Frame)
    requires !fn.goLeft && last.sib.Leaf? && last.goLeft && Lefts(b)
    ensures var c, c' := ctx + [fn] + (b + [last]), ctx + [fn.(node := last.node)] + b;
      WithoutOne(Before(c) + After(c), fn.node, Before(c') + After(c'))
  {
    var head, tail := Before(ctx) + Inorder(fn.sib), [last.node] + (After(b) + After(ctx));
    var c, c' := ctx + [fn] + (b + [last]), ctx + [fn.(node := last.node)] + b;
    TurnOrder(ctx, fn, b + [last]);
    TurnOrder(ctx, fn.(node := last.node), b);
    LeftsAfter(b, last);
    assert Before(c) + After(c) == head + [fn.node] + tail;
    assert Before(c') + After(c') == head + tail;
    Without(head, fn.node, tail);
  }

  lemma LeafRight(t: Tree)
    requires t.T? && LL(t) && t.left.Leaf?
    ensures t.right.Leaf?
  {
  }

  /** The exchange keeps the shape. */
  lemma SwapShape(ctx: seq<Frame>, fn: Frame, b: seq<Frame>, last: Frame)
    requires !fn.goLeft && last.goLeft
    requires var t := PlugAll(ctx + [fn] + (b + [last]), Leaf); LL(t) && !IsRed(t)
    ensures last.sib.Leaf?
    ensures var c', leaf' := ctx + [fn.(node := last.node)] + b, T(Leaf, fn.node, last.red, Leaf);
      LL(PlugAll(c', leaf')) && !IsRed(PlugAll(c', leaf'))
  {
    var fs, leaf, leaf' := fn.(node := last.node), Plug(last, Leaf), T(Leaf, fn.node, last.red, Leaf);
    var r, r' := PlugAll(b, leaf), PlugAll(b, leaf');
    ConcatPlug(ctx + [fn], b + [last], Leaf);
    ConcatOne(b, last, Leaf);
    ConcatOne(ctx, fn, r);
    LLPlugAll(ctx, Plug(fn, r));
    LLPlugAll(b, leaf);
    LeafRight(leaf);
    LLReplace(b, leaf, leaf');
    LLReplace(ctx, Plug(fn, r), Plug(fs, r'));
    ConcatPlug(ctx + [fs], b, leaf');
    ConcatOne(ctx, fs, r');
  }

  /** Disjointness of a path through a node to its successor, piece by piece. */
  lemma SwapParts(ctx: seq<Frame>, fn: Frame, b: seq<Frame>, last: Frame)
    requires SepCtx(ctx + [fn] + (b + [last]), {})
    ensures SepCtx(b, {}) && CtxNodes(b) !! {last.node} + Nodes(last.sib) && last.node !in Nodes(last.sib)
    ensures ({fn.node} + Nodes(fn.sib)) !! (CtxNodes(b) + {last.node} + Nodes(last.sib))
    ensures fn.node !in Nodes(fn.sib) && Sep(fn.sib)
    ensures SepCtx(ctx, CtxNodes(b) + {last.node} + Nodes(last.sib) + {fn.node} + Nodes(fn.sib))
  {
    var lefts := b + [last];
    ConcatSep(ctx + [fn], lefts, {});
    ConcatSep(b, [last], {});
    SepCtxDisjoint(b, {} + CtxNodes([last]));
    SepCtxShrink(b, {} + CtxNodes([last]), {});
    ConcatSep(ctx, [fn], {} + CtxNodes(lefts));
    ConcatNodes(b, [last]);
    assert CtxNodes([last]) == {last.node} + Nodes(last.sib) && CtxNodes([fn]) == {fn.node} + Nodes(fn.sib);
    assert {} + CtxNodes(lefts) + CtxNodes([fn])
        == CtxNodes(b) + {last.node} + Nodes(last.sib) + {fn.node} + Nodes(fn.sib);
  }

  lemma SepPush(ctx: seq<Frame>, f: Frame, s: set<Node>)
    requires f.node !in s && f.node !in Nodes(f.sib) && Nodes(f.sib) !! s && Sep(f.sib)
    requires SepCtx(ctx, s + {f.node} + Nodes(f.sib))
    ensures SepCtx(ctx + [f], s)
  {
    assert (ctx + [f])[..|ctx|] == ctx;
  }

  lemma SwapSep(ctx: seq<Frame>, fn: Frame, b: seq<Frame>, last: Frame)
    requires SepCtx(ctx + [fn] + (b + [last]), {})
    ensures SepCtx(ctx + [fn.(node := last.node)] + b, {})
  {
    SwapParts(ctx, fn, b, last);
    var fs, s := fn.(node := last.node), {} + CtxNodes(b);
    SepCtxShrink(ctx, CtxNodes(b) + {last.node} + Nodes(last.sib) + {fn.node} + Nodes(fn.sib), s + {last.node}
        + Nodes(fn.sib));
    SepPush(ctx, fs, s);
    ConcatSep(ctx + [fs], b, {});
  }

  lemma SwapWithin(ctx: seq<Frame>, fn: Frame, b: seq<Frame>, last: Frame)
    ensures CtxNodes(ctx + [fn.(node := last.node)] + b) <= CtxNodes(ctx + [fn] + (b + [last]))
  {
    var fs := fn.(node := last.node);
    SwapNodes(ctx, fn, b, last);
    ConcatNodes(ctx + [fs], b);
    assert (ctx + [fs])[..|ctx|] == ctx;
  }

  lemma SwapNodes(ctx: seq<Frame>, fn: Frame, b: seq<Frame>, last: Frame)
    ensures var s := CtxNodes(ctx + [fn] + (b + [last]));
      CtxNodes(ctx) <= s && CtxNodes(b) <= s && Nodes(fn.sib) <= s && fn.node in s && last.node in s
  {
    ConcatNodes(ctx + [fn], b + [last]);
    assert (ctx + [fn])[..|ctx|] == ctx && (b + [last])[..|b|] == b;
  }

  /** The nodes that the exchange writes to are not among those whose links it relies on. */
  ghost predicate Apart(ctx: seq<Frame>, fn: Frame, b: seq<Frame>, last: Frame) {
    && fn.node != last.node
    && fn.node !in CtxNodes(ctx) && fn.node !in CtxNodes(b) && fn.node !in Nodes(fn.sib)
    && last.node !in CtxNodes(ctx) && last.node !in CtxNodes(b) && last.node !in Nodes(fn.sib)
    && CtxNodes(b) !! CtxNodes(ctx) && Nodes(fn.sib) !! CtxNodes(ctx) && SepCtx(ctx, {})
  }

  lemma SwapApart(ctx: seq<Frame>, fn: Frame, b: seq<Frame>, last: Frame)
    requires SepCtx(ctx + [fn] + (b + [last]), {})
    ensures Apart(ctx, fn, b, last)
  {
    SwapParts(ctx, fn, b, last);
    var all := CtxNodes(b) + {last.node} + Nodes(last.sib) + {fn.node} + Nodes(fn.sib);
    SepCtxDisjoint(ctx, all);
    SepCtxShrink(ctx, all, {});
  }

  lemma SwapPointers(n: Node?, ctx: seq<Frame>, fn: Frame, b: seq<Frame>, last: Frame)
    requires RepCtx(n, ctx + [fn] + (b + [last]), null) && !fn.goLeft
    ensures RepCtx(n, ctx, fn.node) && RepFrame(fn) && RepFrame(last) && RepCtx(fn.node.right, b, last.node)
  {
    SplitRep(n, ctx + [fn], b + [last], null);
    assert (ctx + [fn])[..|ctx|] == ctx && (b + [last])[..|b|] == b;
  }

  lemma SwapDone(n: Node?, ctx: seq<Frame>, fs: Frame, b: seq<Frame>)
    requires RepCtx(n, ctx, fs.node) && RepFrame(fs) && !fs.goLeft && RepCtx(fs.node.right, b, fs.node)
    ensures OpenCtx(n, ctx + [fs] + b)
  {
    assert (ctx + [fs])[..|ctx|] == ctx;
    if b == [] {
      assert ctx + [fs] + b == ctx + [fs];
    } else {
      ConcatRep(n, ctx + [fs], fs.node.right, b, fs.node);
    }
  }

  /** The successor takes the node's colour and children, the node the successor's colour. */
  method TakePlace(node: Node, succ: Node, ghost n: Node?, ghost ctx: seq<Frame>, ghost fn: Frame, ghost b: seq<Frame>,
      ghost last: Frame)
    requires fn.node == node && last.node == succ && !fn.goLeft && Apart(ctx, fn, b, last)
    requires RepCtx(n, ctx, node) && RepFrame(fn) && RepFrame(last) && RepCtx(node.right, b, succ)
    modifies node, succ
    ensures var fs := fn.(node := succ);
      RepFrame(fs) && RepCtx(n, ctx, node) && RepCtx(succ.right, b, succ) && node.red == last.red
  {
    hide CtxNodes, SepCtx, Nodes;
    var tred := succ.red;
    succ.red := node.red;
    succ.left := node.left;
    // If succ is node's right child this is wrong for now, and put right when succ is reached on the way up.
    succ.right := node.right;
    node.red := tred;
  }

  lemma PathEnds(path: seq<PathEntry>, ctx: seq<Frame>, fn: Frame, b: seq<Frame>, last: Frame)
    requires PathIs(path, ctx + [fn] + (b + [last]))
    ensures path[|ctx|].node == fn.node && path[|ctx| + 1 + |b|].node == last.node
  {
    var c := ctx + [fn] + (b + [last]);
    assert c[|ctx|] == fn && c[|ctx| + 1 + |b|] == last;
  }

  lemma SwapPath(path0: seq<PathEntry>, path: seq<PathEntry>, ctx: seq<Frame>, fn: Frame, b: seq<Frame>, last: Frame)
    requires PathIs(path0, ctx + [fn] + (b + [last])) && |path| == |path0| && last.node != fn.node
    requires var d, k := |ctx|, |ctx| + 1 + |b|;
      path == path0[d := path0[d].(node := last.node)][k := path0[k].(node := fn.node)]
    ensures PathIs(path, ctx + [fn.(node := last.node)] + b) && PathIs(path, ctx)
  {
    var c, c' := ctx + [fn] + (b + [last]), ctx + [fn.(node := last.node)] + b;
    assert forall i :: 0 <= i < |c'| && i != |ctx| ==> c'[i] == c[i];
    assert forall i :: 0 <= i < |ctx| ==> ctx[i] == c[i];
  }
}
