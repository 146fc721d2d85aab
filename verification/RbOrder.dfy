/**
 Search order: what lies to the left and to the right of a path, and what that says of the keys.
 */
module RbOrder {
  import opened RbShape
  import opened RbPaths

  /** Three-way comparison, the interface the generated code expects of a_cmp. */
  function Compare(a: int, b: int): int {
    if a < b then -1 else if a > b then 1 else 0
  }

  /** The search key lies between what the path leaves to its left and to its right. */
  ghost predicate Between(ctx: seq<Frame>, key: int) {
    (forall x :: x in Before(ctx) ==> x.key < key) && (forall x :: x in After(ctx) ==> key < x.key)
  }

  lemma SameInorder(ctx: seq<Frame>, t: Tree, t': Tree)
    requires Inorder(t) == Inorder(t')
    ensures Inorder(PlugAll(ctx, t)) == Inorder(PlugAll(ctx, t'))
  {
    InorderPlugAll(ctx, t);
    InorderPlugAll(ctx, t');
  }

  lemma SortedAround(a: seq<Node>, x: Node, b: seq<Node>)
    requires Sorted(a + [x] + b)
    ensures forall y :: y in a ==> y.key < x.key
    ensures forall y :: y in b ==> x.key < y.key
  {
    var s := a + [x] + b;
    assert s[|a|] == x;
    assert forall i :: 0 <= i < |a| ==> s[i] == a[i];
    assert forall i :: 0 <= i < |b| ==> s[|a| + 1 + i] == b[i];
  }

  lemma InorderAround(ctx: seq<Frame>, sub: Tree)
    requires sub.T?
    ensures Inorder(PlugAll(ctx, sub))
        == (Before(ctx) + Inorder(sub.left)) + [sub.node] + (Inorder(sub.right) + After(ctx))
  {
    InorderPlugAll(ctx, sub);
  }

  /** Nodes of a sorted tree are split by each of its nodes. */
  lemma SortedAt(ctx: seq<Frame>, sub: Tree)
    requires sub.T? && Sorted(Inorder(PlugAll(ctx, sub)))
    ensures forall y :: y in Before(ctx) ==> y.key < sub.node.key
    ensures forall y :: y in Inorder(sub.left) ==> y.key < sub.node.key
    ensures forall y :: y in Inorder(sub.right) ==> sub.node.key < y.key
    ensures forall y :: y in After(ctx) ==> sub.node.key < y.key
    ensures sub.node in Inorder(PlugAll(ctx, sub))
  {
    var a, b := Before(ctx) + Inorder(sub.left), Inorder(sub.right) + After(ctx);
    InorderAround(ctx, sub);
    SortedAround(a, sub.node, b);
    assert forall y :: y in Before(ctx) || y in Inorder(sub.left) ==> y in a;
    assert forall y :: y in Inorder(sub.right) || y in After(ctx) ==> y in b;
  }

  /** Going left below a greater key, or right below a smaller one, keeps the key between the two sides. */
  lemma DescendBetween(ctx: seq<Frame>, f: Frame, key: int)
    requires Between(ctx, key) && (if f.goLeft then key < f.node.key else f.node.key < key)
    requires f.goLeft ==> forall y :: y in Inorder(f.sib) ==> f.node.key < y.key
    requires !f.goLeft ==> forall y :: y in Inorder(f.sib) ==> y.key < f.node.key
    ensures Between(ctx + [f], key)
  {
    assert (ctx + [f])[..|ctx|] == ctx;
  }

  /** One level down towards a key that is not at this node. */
  lemma SearchStep(n: Node?, ctx: seq<Frame>, x: Node, sub: Tree, t: Tree, key: int) returns (f: Frame, below: Tree)
    requires AtPoint(n, ctx, x, sub, t) && Sorted(Inorder(t)) && Between(ctx, key) && x.key != key
    ensures sub.T? && f == Frame(x, sub.red, key < x.key, if key < x.key then sub.right else sub.left)
    ensures below == if key < x.key then sub.left else sub.right
    ensures AtPoint(n, ctx + [f], if key < x.key then x.left else x.right, below, t) && Between(ctx + [f], key)
  {
    f, below := Descend(n, ctx, x, sub, t, key < x.key);
    SortedAt(ctx, sub);
    DescendBetween(ctx, f, key);
  }

  lemma FindStep(ctx: seq<Frame>, x: Node, sub: Tree, node: Node)
    requires sub.T? && sub.node == x && node in Nodes(sub) && Sorted(Inorder(PlugAll(ctx, sub)))
    ensures node.key < x.key ==> node in Nodes(sub.left)
    ensures node.key > x.key ==> node in Nodes(sub.right)
    ensures node.key == x.key ==> node == x
  {
    SortedAt(ctx, sub);
    NodesInorder(sub.left);
    NodesInorder(sub.right);
  }

  lemma SortedInsert(a: seq<Node>, x: Node, b: seq<Node>)
    requires Sorted(a + b)
    requires forall y :: y in a ==> y.key < x.key
    requires forall y :: y in b ==> x.key < y.key
    ensures Sorted(a + [x] + b)
  {
    var s := a + [x] + b;
    forall i, j | 0 <= i < j < |s|
      ensures s[i].key < s[j].key
    {
      var i', j' := if i <= |a| then i else i - 1, if j <= |a| then j else j - 1;
      if i == |a| {
        assert s[j] in b;
      } else if j == |a| {
        assert s[i] in a;
      } else {
        assert s[i] == (a + b)[i'] && s[j] == (a + b)[j'];
      }
    }
  }

  ghost predicate WithoutOne(s: seq<Node>, x: Node, s': seq<Node>) {
    exists k :: 0 <= k < |s| && s[k] == x && s' == s[..k] + s[k + 1..]
  }

  lemma Without(a: seq<Node>, x: Node, b: seq<Node>)
    ensures WithoutOne(a + [x] + b, x, a + b)
  {
    var s := a + [x] + b;
    assert s[|a|] == x && s[..|a|] == a && s[|a| + 1..] == b;
  }

  lemma SortedWithout(s: seq<Node>, x: Node, s': seq<Node>)
    requires Sorted(s) && WithoutOne(s, x, s')
    ensures Sorted(s') && |s'| < |s|
  {
    var k :| 0 <= k < |s| && s[k] == x && s' == s[..k] + s[k + 1..];
    forall i, j | 0 <= i < j < |s'|
      ensures s'[i].key < s'[j].key
    {
      var p, q := if i < k then i else i + 1, if j < k then j else j + 1;
      assert s'[i] == s[p] && s'[j] == s[q];
    }
  }

  lemma OnlyLeftOrder(ctx: seq<Frame>, sub: Tree)
    requires sub.T? && sub.right.Leaf?
    ensures WithoutOne(Inorder(PlugAll(ctx, sub)), sub.node, Before(ctx) + Inorder(sub.left) + After(ctx))
  {
    InorderPlugAll(ctx, sub);
    Without(Before(ctx) + Inorder(sub.left), sub.node, After(ctx));
    assert Inorder(sub) == Inorder(sub.left) + [sub.node];
    hide *;
    Associative(Before(ctx), Inorder(sub.left), [sub.node]);
  }

  lemma Associative<T>(a: seq<T>, b: seq<T>, c: seq<T>)
    ensures a + (b + c) == a + b + c
  {
  }

  /** r is the least element of s whose key is not below the given one, null if there is none. */
  ghost predicate LeastFrom(s: seq<Node>, key: int, r: Node?) {
    && (r != null ==> r in s && key <= r.key && forall x :: x in s && key <= x.key ==> r.key <= x.key)
    && (r == null ==> forall x :: x in s ==> x.key < key)
  }

  /** ret is what comes first after the point the path leads to, null if nothing does. */
  ghost predicate HeadAfter(ctx: seq<Frame>, ret: Node?) {
    if After(ctx) == [] then ret == null else ret == After(ctx)[0]
  }

  lemma HeadAfterStep(ctx: seq<Frame>, f: Frame, ret: Node?)
    requires HeadAfter(ctx, ret)
    ensures HeadAfter(ctx + [f], if f.goLeft then f.node else ret)
  {
    assert (ctx + [f])[..|ctx|] == ctx;
  }

  lemma LeastAfter(a: seq<Node>, b: seq<Node>, key: int)
    requires Sorted(a + b) && (forall x :: x in a ==> x.key < key) && (forall x :: x in b ==> key < x.key)
    ensures b != [] ==> forall x :: x in a + b && key <= x.key ==> b[0].key <= x.key
  {
    if b != [] {
      forall x | x in a + b && key <= x.key
        ensures b[0].key <= x.key
      {
        var i :| 0 <= i < |a + b| && (a + b)[i] == x;
        assert i < |a| ==> x in a;
        assert (a + b)[|a|] == b[0];
      }
    }
  }

  lemma NSearchHit(ctx: seq<Frame>, sub: Tree, key: int)
    requires sub.T? && sub.node.key == key
    ensures LeastFrom(Inorder(PlugAll(ctx, sub)), key, sub.node)
  {
    InorderAround(ctx, sub);
  }

  lemma NSearchMiss(ctx: seq<Frame>, key: int, ret: Node?)
    requires HeadAfter(ctx, ret) && Between(ctx, key) && Sorted(Inorder(PlugAll(ctx, Leaf)))
    ensures LeastFrom(Inorder(PlugAll(ctx, Leaf)), key, ret)
  {
    InorderPlugAll(ctx, Leaf);
    assert Inorder(PlugAll(ctx, Leaf)) == Before(ctx) + After(ctx);
    LeastAfter(Before(ctx), After(ctx), key);
  }

  /** r is the element after x in s, null if x is the last. */
  ghost predicate Follows(s: seq<Node>, x: Node, r: Node?) {
    exists k :: 0 <= k < |s| && s[k] == x && r == if k + 1 < |s| then s[k + 1] else null
  }

  lemma FollowsAt(s: seq<Node>, k: nat)
    requires k < |s|
    ensures Follows(s, s[k], if k + 1 < |s| then s[k + 1] else null)
  {
  }

  lemma FollowsBelow(ctx: seq<Frame>, sub: Tree)
    requires sub.T? && Inorder(sub.right) != []
    ensures Follows(Inorder(PlugAll(ctx, sub)), sub.node, Inorder(sub.right)[0])
  {
    InorderAround(ctx, sub);
    var s, k := Inorder(PlugAll(ctx, sub)), |Before(ctx) + Inorder(sub.left)|;
    assert s[k] == sub.node && s[k + 1] == (Inorder(sub.right) + After(ctx))[0];
  }

  lemma FollowsAbove(ctx: seq<Frame>, sub: Tree, ret: Node?)
    requires sub.T? && sub.right.Leaf? && HeadAfter(ctx, ret)
    ensures Follows(Inorder(PlugAll(ctx, sub)), sub.node, ret)
  {
    InorderAround(ctx, sub);
    assert Inorder(sub.right) + After(ctx) == After(ctx);
    var a, b := Before(ctx) + Inorder(sub.left), After(ctx);
    var s := a + [sub.node] + b;
    assert s[|a|] == sub.node && (b != [] ==> s[|a| + 1] == b[0]);
    assert Inorder(PlugAll(ctx, sub)) == s;
    FollowsAt(s, |a|);
  }

  /** r is the element before x in s, null if x is the first. */
  ghost predicate Precedes(s: seq<Node>, r: Node?, x: Node) {
    exists k :: 0 <= k < |s| && s[k] == x && r == if k > 0 then s[k - 1] else null
  }

  lemma PrecedesAt(s: seq<Node>, k: nat)
    requires k < |s|
    ensures Precedes(s, if k > 0 then s[k - 1] else null, s[k])
  {
  }

  /** ret is what comes last before the point the path leads to, null if nothing does. */
  ghost predicate LastBefore(ctx: seq<Frame>, ret: Node?) {
    if Before(ctx) == [] then ret == null else ret == Before(ctx)[|Before(ctx)| - 1]
  }

  lemma LastBeforeStep(ctx: seq<Frame>, f: Frame, ret: Node?)
    requires LastBefore(ctx, ret)
    ensures LastBefore(ctx + [f], if f.goLeft then ret else f.node)
  {
    assert (ctx + [f])[..|ctx|] == ctx;
  }

  lemma PrecedesBelow(ctx: seq<Frame>, sub: Tree)
    requires sub.T? && Inorder(sub.left) != []
    ensures Precedes(Inorder(PlugAll(ctx, sub)), Inorder(sub.left)[|Inorder(sub.left)| - 1], sub.node)
  {
    InorderAround(ctx, sub);
    var s, k := Inorder(PlugAll(ctx, sub)), |Before(ctx) + Inorder(sub.left)|;
    assert s[k] == sub.node && s[k - 1] == (Before(ctx) + Inorder(sub.left))[k - 1];
  }

  lemma PrecedesAbove(ctx: seq<Frame>, sub: Tree, ret: Node?)
    requires sub.T? && sub.left.Leaf? && LastBefore(ctx, ret)
    ensures Precedes(Inorder(PlugAll(ctx, sub)), ret, sub.node)
  {
    InorderAround(ctx, sub);
    assert Before(ctx) + Inorder(sub.left) == Before(ctx);
    var a, b := Before(ctx), Inorder(sub.right) + After(ctx);
    var s := a + [sub.node] + b;
    assert s[|a|] == sub.node && (a != [] ==> s[|a| - 1] == a[|a| - 1]);
    assert Inorder(PlugAll(ctx, sub)) == s;
    PrecedesAt(s, |a|);
  }
}
