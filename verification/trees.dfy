/** Pre-order traversal of a finite tree: `GetAllElements(getChildFunc)` of
    ObjectExtensions.cs for a single root, and the forest overload of
    EnumerableExtensions.cs. The child function is the tree's own children. */
module Trees {
  datatype Tree<T> = Node(value: T, children: seq<Tree<T>>)

  /** The number of nodes. */
  function Size<T>(t: Tree<T>): nat
    decreases t
  {
    1 + ForestSize(t.children)
  }

  function ForestSize<T>(ts: seq<Tree<T>>): nat
    decreases ts
  {
    if |ts| == 0 then 0 else Size(ts[0]) + ForestSize(ts[1..])
  }

  /** Single-root `GetAllElements`: the root, then the traversal of each
      child in child order. */
  function PreOrder<T>(t: Tree<T>): (r: seq<Tree<T>>)
    ensures |r| >= 1 && r[0] == t
    decreases t
  {
    [t] + ForestPreOrder(t.children)
  }

  /** Forest `GetAllElements`: the traversals of the roots, concatenated. */
  function ForestPreOrder<T>(ts: seq<Tree<T>>): seq<Tree<T>>
    decreases ts
  {
    if |ts| == 0 then [] else PreOrder(ts[0]) + ForestPreOrder(ts[1..])
  }

  /** A node with no children yields exactly itself. */
  lemma LeafYieldsItself<T>(v: T)
    ensures PreOrder(Node(v, [])) == [Node(v, [])]
  {
  }

  /** The traversal visits every node once: its length is the node count. */
  lemma {:induction false} PreOrderLength<T>(t: Tree<T>)
    ensures |PreOrder(t)| == Size(t)
    decreases t
  {
    ForestPreOrderLength(t.children);
  }

  lemma {:induction false} ForestPreOrderLength<T>(ts: seq<Tree<T>>)
    ensures |ForestPreOrder(ts)| == ForestSize(ts)
    decreases ts
  {
    if |ts| > 0 {
      PreOrderLength(ts[0]);
      ForestPreOrderLength(ts[1..]);
    }
  }

  /** Traversing a forest distributes over concatenation of forests. */
  lemma {:induction false} ForestPreOrderAppend<T>(xs: seq<Tree<T>>, ys: seq<Tree<T>>)
    ensures ForestPreOrder(xs + ys) == ForestPreOrder(xs) + ForestPreOrder(ys)
    decreases |xs|
  {
    if |xs| > 0 {
      assert (xs + ys)[0] == xs[0];
      assert (xs + ys)[1..] == xs[1..] + ys;
      ForestPreOrderAppend(xs[1..], ys);
    } else {
      assert xs + ys == ys;
    }
  }
}
