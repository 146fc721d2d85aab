/**
 The shape of the left-leaning red-black trees that rb.h generates, as values: the tree a set of linked
 nodes represents, the path from the root to a point in it, and what one unwinding step of insert and
 of remove makes of the subtree it is at.  Module RbTree runs the loops of rb.h on linked nodes and ties
 them to these functions.
 */
module RbShape {

  import opened Machine

  /** One linked node (rb_node).  Keys stand for what the comparison function orders. */
  class Node {
    const key: int
    var left: Node?
    var right: Node?
    var red: bool

    constructor (key: int)
      ensures this.key == key
    {
      this.key := key;
      left, right, red := null, null, false;
    }
  }

  /** The tree below a node pointer; Leaf is the black sentinel rbt_nil. */
  datatype Tree = Leaf | T(left: Tree, node: Node, red: bool, right: Tree)

  /** One entry of the path array: a node on the path, the side taken, and the subtree not taken. */
  datatype Frame = Frame(node: Node, red: bool, goLeft: bool, sib: Tree)

  ghost function Nodes(t: Tree): set<Node> {
    match t
    case Leaf => {}
    case T(l, x, _, r) => Nodes(l) + {x} + Nodes(r)
  }

  ghost function Inorder(t: Tree): seq<Node> {
    match t
    case Leaf => []
    case T(l, x, _, r) => Inorder(l) + [x] + Inorder(r)
  }

  ghost predicate Sorted(s: seq<Node>) {
    forall i, j :: 0 <= i < j < |s| ==> s[i].key < s[j].key
  }

  ghost predicate IsRed(t: Tree) {
    t.T? && t.red
  }

  /** Number of black nodes on the leftmost path; LL makes every other path agree with it. */
  ghost function BlackHeight(t: Tree): nat {
    match t
    case Leaf => 0
    case T(l, _, red, _) => BlackHeight(l) + if red then 0 else 1
  }

  /** The balance invariant: equal black heights, no red right child, no two reds in a row. */
  ghost predicate LL(t: Tree) {
    match t
    case Leaf => true
    case T(l, _, red, r) =>
      LL(l) && LL(r) && BlackHeight(l) == BlackHeight(r) && !IsRed(r) && (red ==> !IsRed(l))
  }

  ghost function Height(t: Tree): nat {
    match t
    case Leaf => 0
    case T(l, _, _, r) => 1 + if Height(l) < Height(r) then Height(r) else Height(l)
  }

  /** A balanced tree is shallow: height <= 2 * blackheight (+1 under a red root), and 2^blackheight - 1 nodes exist. */
  lemma {:induction false} HeightByBlackHeight(t: Tree)
    requires LL(t)
    ensures Height(t) <= 2 * BlackHeight(t) + if IsRed(t) then 1 else 0
    ensures Pow2(BlackHeight(t)) <= |Inorder(t)| + 1
  {
    match t
    case Leaf =>
    case T(l, _, _, r) =>
      HeightByBlackHeight(l);
      HeightByBlackHeight(r);
  }

  /** height <= 2*lg(n+1): a tree of fewer than 2^b nodes is at most 2b high. */
  lemma {:induction false} HeightBound(t: Tree, b: nat)
    requires LL(t) && !IsRed(t) && |Inorder(t)| + 1 < Pow2(b + 1)
    ensures Height(t) <= 2 * b
  {
    HeightByBlackHeight(t);
    if b < BlackHeight(t) {
      Pow2Monotone(b + 1, BlackHeight(t));
      assert false;
    }
  }

  // ----- Paths

  ghost function Plug(f: Frame, t: Tree): Tree {
    if f.goLeft then T(t, f.node, f.red, f.sib) else T(f.sib, f.node, f.red, t)
  }

  /** The whole tree, from the path to a subtree (root first) and the subtree. */
  ghost function PlugAll(ctx: seq<Frame>, t: Tree): Tree {
    if ctx == [] then t else PlugAll(ctx[..|ctx| - 1], Plug(ctx[|ctx| - 1], t))
  }

  ghost function Before(ctx: seq<Frame>): seq<Node> {
    if ctx == [] then []
    else
      var f := ctx[|ctx| - 1];
      Before(ctx[..|ctx| - 1]) + if f.goLeft then [] else Inorder(f.sib) + [f.node]
  }

  ghost function After(ctx: seq<Frame>): seq<Node> {
    if ctx == [] then []
    else
      var f := ctx[|ctx| - 1];
      (if f.goLeft then [f.node] + Inorder(f.sib) else []) + After(ctx[..|ctx| - 1])
  }

  lemma {:induction false} InorderPlugAll(ctx: seq<Frame>, t: Tree)
    ensures Inorder(PlugAll(ctx, t)) == Before(ctx) + Inorder(t) + After(ctx)
  {
    if ctx != [] {
      InorderPlugAll(ctx[..|ctx| - 1], Plug(ctx[|ctx| - 1], t));
    }
  }

  lemma {:induction false} NodesInorder(t: Tree)
    ensures forall x :: x in Nodes(t) <==> x in Inorder(t)
  {
    match t
    case Leaf =>
    case T(l, _, _, r) =>
      NodesInorder(l);
      NodesInorder(r);
  }

  lemma {:induction false} LLPlugAll(ctx: seq<Frame>, t: Tree)
    requires LL(PlugAll(ctx, t))
    ensures LL(t)
    ensures ctx != [] ==> LL(Plug(ctx[|ctx| - 1], t)) && LL(PlugAll(ctx[..|ctx| - 1], Plug(ctx[|ctx| - 1], t)))
  {
    if ctx != [] {
      LLPlugAll(ctx[..|ctx| - 1], Plug(ctx[|ctx| - 1], t));
    }
  }

  /** A black-rooted subtree can take the place of any subtree of the same black height. */
  lemma {:induction false} LLReplace(ctx: seq<Frame>, t0: Tree, t: Tree)
    requires LL(PlugAll(ctx, t0)) && LL(t) && BlackHeight(t) == BlackHeight(t0)
    requires IsRed(t) ==> IsRed(t0)
    ensures LL(PlugAll(ctx, t)) && BlackHeight(PlugAll(ctx, t)) == BlackHeight(PlugAll(ctx, t0))
    ensures IsRed(PlugAll(ctx, t)) ==> IsRed(PlugAll(ctx, t0))
  {
    LLPlugAll(ctx, t0);
    if ctx != [] {
      var f := ctx[|ctx| - 1];
      LLReplace(ctx[..|ctx| - 1], Plug(f, t0), Plug(f, t));
    }
  }

  /** A path is no longer than the tree is high. */
  lemma {:induction false} PathLength(ctx: seq<Frame>, t: Tree)
    ensures |ctx| + Height(t) <= Height(PlugAll(ctx, t))
  {
    if ctx != [] {
      PathLength(ctx[..|ctx| - 1], Plug(ctx[|ctx| - 1], t));
    }
  }

  // ----- One unwinding step of insert

  /** What a subtree that was t0 may look like while an insertion below it is being undone level by level. */
  ghost predicate Inserted(t0: Tree, t: Tree) {
    && BlackHeight(t) == BlackHeight(t0)
    && if IsRed(t0) && t.T? && t.red then
         LL(t.left) && LL(t.right) && BlackHeight(t.left) == BlackHeight(t.right) && !IsRed(t.right)
       else LL(t)
  }

  /** The step at frame f when the subtree below came back with a red root. */
  ghost function InsertFix(f: Frame, t: Tree): Tree
    requires IsRed(t)
  {
    if f.goLeft then
      if IsRed(t.left) then T(t.left.(red := false), t.node, t.red, T(t.right, f.node, f.red, f.sib))
      else Plug(f, t)
    else if IsRed(f.sib) then T(f.sib.(red := false), f.node, true, t.(red := false))
    else T(T(f.sib, f.node, true, t.left), t.node, f.red, t.right)
  }

  lemma InsertFixCorrect(f: Frame, t0: Tree, t: Tree)
    requires LL(Plug(f, t0)) && Inserted(t0, t) && IsRed(t)
    ensures Inserted(Plug(f, t0), InsertFix(f, t))
    ensures Inorder(InsertFix(f, t)) == Inorder(Plug(f, t))
    ensures Nodes(InsertFix(f, t)) == Nodes(t) + {f.node} + Nodes(f.sib)
  {
    InsertFixInorder(f, t);
    InsertFixInserted(f, t0, t);
  }

  lemma InsertFixInserted(f: Frame, t0: Tree, t: Tree)
    requires LL(Plug(f, t0)) && Inserted(t0, t) && IsRed(t)
    ensures Inserted(Plug(f, t0), InsertFix(f, t))
  {
    if f.goLeft && IsRed(t.left) {
      assert LL(t.left.(red := false));
    } else if !f.goLeft && IsRed(f.sib) {
      assert LL(f.sib.(red := false));
    }
  }

  lemma InsertFixInorder(f: Frame, t: Tree)
    requires IsRed(t)
    ensures Inorder(InsertFix(f, t)) == Inorder(Plug(f, t))
    ensures Nodes(InsertFix(f, t)) == Nodes(t) + {f.node} + Nodes(f.sib)
  {
    if f.goLeft && IsRed(t.left) {
      assert Inorder(t.left.(red := false)) == Inorder(t.left);
      assert Inorder(InsertFix(f, t)) == Inorder(Plug(f, t));
    } else if !f.goLeft && !IsRed(f.sib) {
      assert Inorder(InsertFix(f, t)) == Inorder(Plug(f, t));
    }
  }

  // ----- One unwinding step of remove

  /** A subtree that was t0 and came back one black level short. */
  ghost predicate Deficient(t0: Tree, t: Tree) {
    LL(t) && !IsRed(t) && BlackHeight(t) + 1 == BlackHeight(t0)
  }

  /** The nodes that the step below follows through the sibling are there. */
  ghost predicate Fixable(f: Frame) {
    f.sib.T? && (!f.goLeft && IsRed(f.sib) ==> f.sib.right.T?)
  }

  /** The step of remove at frame f; done says that balance is restored and unwinding stops. */
  datatype Fixed = Fixed(t: Tree, done: bool)

  ghost function RemoveFix(f: Frame, t: Tree): Fixed
    requires Fixable(f)
  {
    if f.goLeft then
      var rl := f.sib.left;
      if IsRed(rl) then
        Fixed(T(T(t, f.node, false, rl.left), rl.node, f.red, T(rl.right, f.sib.node, f.sib.red, f.sib.right)), true)
      else
        Fixed(T(T(t, f.node, true, rl), f.sib.node, f.sib.red, f.sib.right), f.red)
    else if IsRed(f.sib) then
      var lr := f.sib.right;
      if IsRed(lr.left) then
        Fixed(T(T(f.sib.left, f.sib.node, f.sib.red, lr.left.(red := false)), lr.node, lr.red,
                T(lr.right, f.node, f.red, t)), true)
      else
        Fixed(T(f.sib.left, f.sib.node, false, T(lr.(red := true), f.node, f.red, t)), true)
    else if IsRed(f.sib.left) then
      Fixed(T(f.sib.left.(red := false), f.sib.node, f.red, T(f.sib.right, f.node, false, t)), true)
    else
      Fixed(T(f.sib.(red := true), f.node, false, t), f.red)
  }

  lemma RemoveFixFixable(f: Frame, t0: Tree, t: Tree)
    requires LL(Plug(f, t0)) && Deficient(t0, t)
    ensures Fixable(f)
  {
    assert BlackHeight(f.sib) == BlackHeight(t0) > 0;
    if IsRed(f.sib) {
      assert BlackHeight(f.sib.right) == BlackHeight(f.sib) > 0;
    }
  }

  lemma RemoveFixBalance(f: Frame, t0: Tree, t: Tree)
    requires LL(Plug(f, t0)) && Deficient(t0, t) && Fixable(f)
    ensures var r := RemoveFix(f, t);
      if r.done then LL(r.t) && BlackHeight(r.t) == BlackHeight(Plug(f, t0)) && (IsRed(r.t) ==> f.red)
      else Deficient(Plug(f, t0), r.t)
  {
    assert LL(f.sib) && LL(f.sib.left) && LL(f.sib.right);
    if f.goLeft {
      if IsRed(f.sib.left) {
        assert LL(f.sib.left.left) && LL(f.sib.left.right);
      }
    } else if IsRed(f.sib) {
      assert LL(f.sib.right.left) && LL(f.sib.right.right);
      if IsRed(f.sib.right.left) {
        assert LL(f.sib.right.left.(red := false));
      } else {
        assert LL(f.sib.right.(red := true));
      }
    } else if IsRed(f.sib.left) {
      assert LL(f.sib.left.(red := false));
    } else {
      assert LL(f.sib.(red := true));
    }
  }

  lemma RemoveFixInorder(f: Frame, t: Tree)
    requires Fixable(f)
    ensures Inorder(RemoveFix(f, t).t) == Inorder(Plug(f, t))
    ensures Nodes(RemoveFix(f, t).t) == Nodes(t) + {f.node} + Nodes(f.sib)
  {
    var r := RemoveFix(f, t).t;
    if f.goLeft {
      if IsRed(f.sib.left) {
        BlackSiblingInorder(f, t);
        BlackSiblingNodes(f, t);
      } else {
        assert Inorder(r) == Inorder(Plug(f, t));
      }
    } else if IsRed(f.sib) {
      if IsRed(f.sib.right.left) {
        RedSiblingInorder1(f, t);
      } else {
        RedSiblingInorder2(f, t);
      }
    } else if IsRed(f.sib.left) {
      assert Inorder(f.sib.left.(red := false)) == Inorder(f.sib.left);
      assert Inorder(r) == Inorder(Plug(f, t));
    } else {
      assert Inorder(r) == Inorder(Plug(f, t));
    }
  }

  lemma BlackSiblingInorder(f: Frame, t: Tree)
    requires Fixable(f) && f.goLeft && IsRed(f.sib.left)
    ensures Inorder(RemoveFix(f, t).t) == Inorder(Plug(f, t))
  {
    hide Nodes, Inorder;
    var b, rl := f.sib, f.sib.left;
    InorderT(t, f.node, false, rl.left);
    InorderT(rl.right, b.node, b.red, b.right);
    InorderT(T(t, f.node, false, rl.left), rl.node, f.red, T(rl.right, b.node, b.red, b.right));
    InorderT(rl.left, rl.node, rl.red, rl.right);
    InorderT(b.left, b.node, b.red, b.right);
    InorderT(t, f.node, f.red, b);
    Regroup(Inorder(t) + [f.node], Inorder(rl.left), [rl.node], Inorder(rl.right), [b.node] + Inorder(b.right));
  }

  lemma InorderT(l: Tree, x: Node, red: bool, r: Tree)
    ensures Inorder(T(l, x, red, r)) == Inorder(l) + [x] + Inorder(r)
  {
  }

  lemma Regroup(a: seq<Node>, b: seq<Node>, c: seq<Node>, d: seq<Node>, e: seq<Node>)
    ensures a + b + c + (d + e) == a + (b + c + d + e)
  {
  }

  lemma BlackSiblingNodes(f: Frame, t: Tree)
    requires Fixable(f) && f.goLeft && IsRed(f.sib.left)
    ensures Nodes(RemoveFix(f, t).t) == Nodes(t) + {f.node} + Nodes(f.sib)
  {
    hide Inorder;
  }

  lemma RedSiblingInorder1(f: Frame, t: Tree)
    requires Fixable(f) && !f.goLeft && IsRed(f.sib) && IsRed(f.sib.right.left)
    ensures Inorder(RemoveFix(f, t).t) == Inorder(Plug(f, t))
    ensures Nodes(RemoveFix(f, t).t) == Nodes(t) + {f.node} + Nodes(f.sib)
  {
    var lr, r := f.sib.right, RemoveFix(f, t).t;
    var lrl := lr.left.(red := false);
    assert Inorder(lrl) == Inorder(lr.left) && Nodes(lrl) == Nodes(lr.left);
    assert r == T(T(f.sib.left, f.sib.node, true, lrl), lr.node, lr.red, T(lr.right, f.node, f.red, t));
    assert Inorder(r) == (Inorder(f.sib.left) + [f.sib.node] + Inorder(lrl)) + [lr.node]
                         + (Inorder(lr.right) + [f.node] + Inorder(t));
    assert Inorder(f.sib) == Inorder(f.sib.left) + [f.sib.node] + (Inorder(lr.left) + [lr.node] + Inorder(lr.right));
  }

  lemma RedSiblingInorder2(f: Frame, t: Tree)
    requires Fixable(f) && !f.goLeft && IsRed(f.sib) && !IsRed(f.sib.right.left)
    ensures Inorder(RemoveFix(f, t).t) == Inorder(Plug(f, t))
    ensures Nodes(RemoveFix(f, t).t) == Nodes(t) + {f.node} + Nodes(f.sib)
  {
    var lr, r := f.sib.right.(red := true), RemoveFix(f, t).t;
    assert Inorder(lr) == Inorder(f.sib.right) && Nodes(lr) == Nodes(f.sib.right);
    assert r == T(f.sib.left, f.sib.node, false, T(lr, f.node, f.red, t));
    assert Inorder(r) == Inorder(f.sib.left) + [f.sib.node] + (Inorder(lr) + [f.node] + Inorder(t));
  }
}
