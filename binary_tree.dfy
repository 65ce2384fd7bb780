/**
 * The heap structure of pfp::binary_tree<int>: a tree object owning a root
 * pointer, and nodes owning a value and two child pointers. Each object
 * carries a ghost `Model` (its abstract value, a SearchTree.Tree) and a ghost
 * `Repr` (the nodes it owns). `Valid()` ties the pointers to the model and
 * keeps the owned node sets disjoint, so the structure is a finite tree.
 */
module Pfp {
  import ST = SearchTree

  class Node {
    const val: int
    var left: Node?
    var right: Node?

    ghost var Model: ST.Tree
    ghost var Repr: set<object>

    /** The abstract value of a possibly null child pointer. */
    static ghost function ModelOf(n: Node?): ST.Tree
      reads n
    {
      if n == null then ST.Leaf else n.Model
    }

    ghost predicate Valid()
      reads this, Repr
      decreases Repr
    {
      this in Repr &&
      (left != null ==>
        left in Repr && left.Repr <= Repr && this !in left.Repr && left.Valid()) &&
      (right != null ==>
        right in Repr && right.Repr <= Repr && this !in right.Repr && right.Valid()) &&
      (left != null && right != null ==> left.Repr !! right.Repr) &&
      Model == ST.Node(ModelOf(left), val, ModelOf(right))
    }

    /** A new leaf holding `value`. */
    constructor (value: int)
      ensures Valid() && fresh(Repr)
      ensures val == value && left == null && right == null
      ensures Model == ST.Node(ST.Leaf, value, ST.Leaf)
    {
      val := value;
      left := null;
      right := null;
      Model := ST.Node(ST.Leaf, value, ST.Leaf);
      Repr := {this};
    }

    /**
     * Ensures `value` is in the subtree rooted here, allocating at most one
     * new leaf at the end of the search path.
     */
    method Insert(value: int)
      requires Valid()
      modifies Repr
      ensures Valid() && fresh(Repr - old(Repr))
      ensures Model == ST.Insert(old(Model), value)
      ensures Model == old(Model) ==> Repr == old(Repr)
      decreases Repr
    {
      if val == value {
        return;
      }
      if value > val {
        if right == null {
          right := new Node(value);
        } else {
          right.Insert(value);
        }
        Repr := Repr + right.Repr;
      } else {
        if left == null {
          left := new Node(value);
        } else {
          left.Insert(value);
        }
        Repr := Repr + left.Repr;
      }
      Model := ST.Node(ModelOf(left), val, ModelOf(right));
    }

    /** Looks for `value` in the subtree rooted here, following one branch. */
    function Query(value: int): (found: bool)
      reads this, Repr
      requires Valid() && ST.IsSearchTree(Model)
      ensures found <==> value in ST.Elements(Model)
      decreases Repr
    {
      if value == val then true
      else if value > val then (if right != null then right.Query(value) else false)
      else (if left != null then left.Query(value) else false)
    }
  }

  class BinaryTree {
    var root: Node?

    ghost var Model: ST.Tree
    ghost var Repr: set<object>

    ghost predicate Valid()
      reads this, Repr
    {
      this in Repr &&
      (root == null ==> Model == ST.Leaf) &&
      (root != null ==>
        root in Repr && root.Repr <= Repr && this !in root.Repr && root.Valid() &&
        Model == root.Model) &&
      ST.IsSearchTree(Model)
    }

    /** The set of values the tree holds. */
    ghost function Contents(): set<int>
      reads this
    {
      ST.Elements(Model)
    }

    /** An empty tree: the root is null. */
    constructor ()
      ensures Valid() && fresh(Repr)
      ensures root == null && Model == ST.Leaf && Contents() == {}
    {
      root := null;
      Model := ST.Leaf;
      Repr := {this};
    }

    /** Inserts `value`; a value already present creates no duplicate. */
    method Insert(value: int)
      requires Valid()
      modifies Repr
      ensures Valid() && fresh(Repr - old(Repr))
      ensures Model == ST.Insert(old(Model), value)
      ensures Contents() == old(Contents()) + {value}
      ensures value in old(Contents()) ==> Model == old(Model) && Repr == old(Repr)
      ensures ST.Size(Model) == ST.Size(old(Model)) + if value in old(Contents()) then 0 else 1
    {
      ST.InsertElements(Model, value);
      ST.InsertKeepsSearchTree(Model, value);
      ST.InsertSize(Model, value);
      if value in ST.Elements(Model) {
        ST.InsertPresent(Model, value);
      }
      if root == null {
        root := new Node(value);
      } else {
        root.Insert(value);
      }
      Repr := Repr + root.Repr;
      Model := root.Model;
    }

    /** The number of occurrences of `value`: 1 if it is present, else 0. */
    function Count(value: int): (n: int)
      reads this, Repr
      requires Valid()
      ensures n == if value in Contents() then 1 else 0
      ensures 0 <= n <= 1
      ensures root == null ==> n == 0
    {
      if root != null then (if root.Query(value) then 1 else 0) else 0
    }
  }
}
