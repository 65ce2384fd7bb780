/**
 * The abstract value of pfp::binary_tree<int>: an unbalanced binary search
 * tree without rebalancing and without deletion. `Leaf` stands for a null
 * child pointer; `Node(left, val, right)` for a heap node and its subtrees.
 *
 * `Insert` follows node::insert step by step: an equal value stops, a greater
 * value goes right, every other value goes left, and a missing child becomes a
 * new leaf. The lemmas state what the header promises about it.
 */
module SearchTree {

  datatype Tree = Leaf | Node(left: Tree, val: int, right: Tree)

  /** The set of values stored in a tree. */
  function Elements(t: Tree): set<int>
  {
    match t
    case Leaf => {}
    case Node(l, x, r) => Elements(l) + {x} + Elements(r)
  }

  /** The number of nodes of a tree. */
  function Size(t: Tree): nat
  {
    match t
    case Leaf => 0
    case Node(l, _, r) => Size(l) + 1 + Size(r)
  }

  /**
   * The ordering invariant: every value in a node's left subtree is smaller
   * than the node's value and every value in its right subtree is larger.
   */
  ghost predicate IsSearchTree(t: Tree)
  {
    match t
    case Leaf => true
    case Node(l, x, r) =>
      IsSearchTree(l) && IsSearchTree(r) &&
      (forall y :: y in Elements(l) ==> y < x) &&
      (forall y :: y in Elements(r) ==> x < y)
  }

  /** node::insert on the value of a tree (binary_tree::insert for a null root). */
  function Insert(t: Tree, v: int): (r: Tree)
    ensures r.Node?
    ensures t.Node? ==> r.val == t.val
  {
    match t
    case Leaf => Node(Leaf, v, Leaf)
    case Node(l, x, r) =>
      if v == x then t
      else if v > x then Node(l, x, Insert(r, v))
      else Node(Insert(l, v), x, r)
  }

  /** Inserting adds exactly the inserted value to the contents. */
  lemma {:induction false} InsertElements(t: Tree, v: int)
    ensures Elements(Insert(t, v)) == Elements(t) + {v}
  {
    match t
    case Leaf =>
    case Node(l, x, r) =>
      if v == x {
      } else if v > x {
        InsertElements(r, v);
      } else {
        InsertElements(l, v);
      }
  }

  /** Inserting keeps the ordering invariant. */
  lemma {:induction false} InsertKeepsSearchTree(t: Tree, v: int)
    requires IsSearchTree(t)
    ensures IsSearchTree(Insert(t, v))
  {
    match t
    case Leaf =>
    case Node(l, x, r) =>
      if v == x {
      } else if v > x {
        InsertElements(r, v);
        InsertKeepsSearchTree(r, v);
      } else {
        InsertElements(l, v);
        InsertKeepsSearchTree(l, v);
      }
  }

  /**
   * In a search tree, the search path for a stored value ends at that value,
   * so inserting it again leaves the tree as it was.
   */
  lemma {:induction false} InsertPresent(t: Tree, v: int)
    requires IsSearchTree(t) && v in Elements(t)
    ensures Insert(t, v) == t
  {
    match t
    case Node(l, x, r) =>
      if v == x {
      } else if v > x {
        InsertPresent(r, v);
      } else {
        InsertPresent(l, v);
      }
  }

  /**
   * Inserting the same value twice has the effect of inserting it once, on
   * every tree: the second insertion follows the path the first one made.
   */
  lemma {:induction false} InsertIdempotent(t: Tree, v: int)
    ensures Insert(Insert(t, v), v) == Insert(t, v)
  {
    match t
    case Leaf =>
    case Node(l, x, r) =>
      if v == x {
      } else if v > x {
        InsertIdempotent(r, v);
      } else {
        InsertIdempotent(l, v);
      }
  }

  /**
   * An insertion adds one node when the value is new and none when it is
   * already stored.
   */
  lemma {:induction false} InsertSize(t: Tree, v: int)
    requires IsSearchTree(t)
    ensures Size(Insert(t, v)) == Size(t) + if v in Elements(t) then 0 else 1
  {
    match t
    case Leaf =>
    case Node(l, x, r) =>
      if v == x {
      } else if v > x {
        assert v !in Elements(l);
        InsertSize(r, v);
      } else {
        assert v !in Elements(r);
        InsertSize(l, v);
      }
  }

  /**
   * A search tree holds at most one node per distinct value: its number of
   * nodes is the number of values it stores.
   */
  lemma {:induction false} SizeIsCardinality(t: Tree)
    requires IsSearchTree(t)
    ensures Size(t) == |Elements(t)|
  {
    match t
    case Leaf =>
    case Node(l, x, r) =>
      SizeIsCardinality(l);
      SizeIsCardinality(r);
      var el, er := Elements(l), Elements(r);
      assert x !in el && x !in er;
      assert el * er == {} by {
        forall y | y in el ensures y !in er {
          assert y < x;
        }
      }
      assert |el + {x}| == |el| + 1;
      assert (el + {x}) * er == {};
      assert |el + {x} + er| == |el| + 1 + |er|;
  }

  /**
   * Membership in a search tree is decided by one branch: a value greater
   * than the node's can only be on the right, a smaller one only on the left.
   */
  lemma SearchOneBranch(t: Tree, v: int)
    requires IsSearchTree(t) && t.Node?
    ensures v > t.val ==> (v in Elements(t) <==> v in Elements(t.right))
    ensures v < t.val ==> (v in Elements(t) <==> v in Elements(t.left))
  {
  }
}
