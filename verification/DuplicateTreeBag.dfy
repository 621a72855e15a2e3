/** The tree bag that keeps duplicates, inserting through a pointer to a link,
    and its iterative search (pracprac/drPractice/lvl_00/00_subject/polyset/TreeBag.cpp
    and searchable_tree_bag.cpp). */
module DuplicateTreeBag {
  import opened SearchTree
  import opened TreeShape

  /** A pointer to one of the links of a bag: the root link or a link of a node. */
  datatype Cursor = AtRoot | AtLeft(node: Node) | AtRight(node: Node)

  class Bag {
    var root: Node?
    ghost var shape: Shape

    ghost predicate Valid()
      reads this, Nodes(shape)
    {
      Linked(shape, root) && Unshared(shape) && Ordered(Skeleton(shape))
    }

    /** The items of the bag with their number of occurrences. */
    ghost function Items(): multiset<int>
      reads this
    {
      multiset(InOrder(Skeleton(shape)))
    }

    constructor ()
      ensures Valid() && shape == Nil
    {
      root := null;
      shape := Nil;
    }

    constructor Copy(other: Bag)
      requires other.Valid()
      ensures Valid() && fresh(Nodes(shape)) && Skeleton(shape) == Skeleton(other.shape)
    {
      var copy, s := CopyNode(other.root, other.shape);
      root, shape := copy, s;
    }

    static method CopyNode(node: Node?, ghost s: Shape) returns (newNode: Node?, ghost t: Shape)
      requires Linked(s, node) && Unshared(s)
      ensures Linked(t, newNode) && Unshared(t)
      ensures fresh(Nodes(t)) && Skeleton(t) == Skeleton(s)
      decreases s
    {
      if node == null {
        return null, Nil;
      }
      LinkedChildren(s, node);
      NodesExist(s);
      var n := new Node(node.value);
      ghost var left, right;
      n.l, left := CopyNode(node.l, s.left);
      NodesExist(left);
      n.r, right := CopyNode(node.r, s.right);
      LinkedJoin(left, n, right);
      return n, Bin(left, n, right);
    }

    method Assign(other: Bag)
      requires Valid() && other.Valid()
      modifies this
      ensures Valid() && Skeleton(shape) == old(Skeleton(other.shape))
      ensures if this == other then shape == old(shape) else fresh(Nodes(shape))
    {
      if this != other {
        NodesExist(other.shape);
        Clear();
        root, shape := CopyNode(other.root, other.shape);
      }
    }

    /** What the link under the cursor points to. */
    function Deref(c: Cursor): Node?
      reads this, if c.AtRoot? then {} else {c.node}
    {
      match c
      case AtRoot => root
      case AtLeft(n) => n.l
      case AtRight(n) => n.r
    }

    /** Inserts a value, equal values going to the right. */
    method Insert(value: int)
      requires Valid()
      modifies this, Nodes(shape)
      ensures Valid()
      ensures Items() == old(Items()) + multiset{value}
      ensures Skeleton(shape) == SearchTree.Insert(old(Skeleton(shape)), value)
      ensures exists n: Node :: fresh(n) && n.value == value && shape == Hang(old(shape), value, n) &&
                                Nodes(shape) == old(Nodes(shape)) + {n}
    {
      var current := AtRoot;
      ghost var sub := shape;
      while Deref(current) != null
        invariant Linked(sub, Deref(current)) && Unshared(sub)
        invariant shape == old(shape) && Valid()
        invariant current.AtRoot? ==> sub == shape
        invariant !current.AtRoot? ==>
          && current.node in Nodes(shape)
          && (current.AtLeft? <==> value < current.node.value)
          && shape.Bin? && Last(shape, value) == if sub.Nil? then current.node else Last(sub, value)
        invariant Nodes(sub) <= Nodes(shape)
        decreases sub
      {
        LinkedChildren(sub, Deref(current));
        if value < Deref(current).value {
          current, sub := AtLeft(Deref(current)), sub.left;
        } else {
          current, sub := AtRight(Deref(current)), sub.right;
        }
      }
      NodesExist(shape);
      var node := new Node(value);
      InsertAddsOne(Skeleton(shape), value);
      Store(current, node, value);
    }

    /** Writes the new node through the cursor. */
    method Store(current: Cursor, node: Node, value: int)
      requires Valid() && node !in Nodes(shape) && node.value == value && node.l == null && node.r == null
      requires current.AtRoot? ==> shape == Nil
      requires !current.AtRoot? ==>
        && current.node in Nodes(shape) && shape.Bin? && Last(shape, value) == current.node
        && (current.AtLeft? <==> value < current.node.value)
      modifies this, if current.AtRoot? then {} else {current.node}
      ensures Valid() && shape == Hang(old(shape), value, node)
      ensures Nodes(shape) == old(Nodes(shape)) + {node}
      ensures Skeleton(shape) == SearchTree.Insert(old(Skeleton(shape)), value)
    {
      HangInserts(shape, value, node);
      InsertKeepsOrder(Skeleton(shape), value);
      HungIsLeaf(shape, value, node);
      HangNodes(shape, value, node);
      forall x | x in Nodes(shape)
        ensures LeftLink(Hang(shape, value, node), x) == if current == AtLeft(x) then node else x.l
        ensures RightLink(Hang(shape, value, node), x) == if current == AtRight(x) then node else x.r
      {
        HangLinks(shape, value, node, x);
      }
      match current {
        case AtRoot => root := node;
        case AtLeft(n) => n.l := node;
        case AtRight(n) => n.r := node;
      }
      shape := Hang(shape, value, node);
    }

    method InsertArray(items: seq<int>)
      requires Valid()
      modifies this, Nodes(shape)
      ensures Valid()
      ensures Items() == old(Items()) + multiset(items)
      ensures fresh(Nodes(shape) - old(Nodes(shape)))
    {
      var i := 0;
      while i < |items|
        invariant 0 <= i <= |items|
        invariant Valid()
        invariant Items() == old(Items()) + multiset(items[..i])
        invariant fresh(Nodes(shape) - old(Nodes(shape)))
      {
        ghost var before := Nodes(shape);
        OneMore(items, i);
        Insert(items[i]);
        assert fresh(Nodes(shape) - before);
        i := i + 1;
      }
      assert items[..i] == items;
    }

    method Clear()
      modifies this
      ensures Valid() && shape == Nil && Items() == multiset{}
    {
      root := null;
      shape := Nil;
    }

    /** The iterative search answers whether the bag holds the value at least once. */
    method Has(value: int) returns (found: bool)
      requires Valid()
      ensures found <==> value in Items()
    {
      InOrderElems(Skeleton(shape), value);
      var current := root;
      ghost var sub, held := shape, value in Items();
      while current != null
        invariant Linked(sub, current) && Unshared(sub) && Ordered(Skeleton(sub))
        invariant value in Elems(Skeleton(sub)) <==> held
        decreases sub
      {
        LinkedChildren(sub, current);
        if current.value == value {
          return true;
        } else if current.value > value {
          current, sub := current.l, sub.left;
        } else {
          current, sub := current.r, sub.right;
        }
      }
      return false;
    }

    static lemma OneMore(items: seq<int>, i: nat)
      requires i < |items|
      ensures multiset(items[..i + 1]) == multiset(items[..i]) + multiset{items[i]}
    {
      assert items[..i + 1] == items[..i] + [items[i]];
    }

    /** Reading the tree from left to right lists the items in ascending order. */
    lemma ReadsSorted()
      requires Valid()
      ensures Sorted(InOrder(Skeleton(shape)))
    {
      OrderedReadsSorted(Skeleton(shape));
    }
  }
}
