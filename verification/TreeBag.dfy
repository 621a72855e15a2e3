/** The bag over a binary search tree that never inserts an item twice, with its
    search (pracprac/practice05/level0/polyset/tree_bag.cpp and
    searchable_tree_bag.cpp). */
module TreeBag {
  import opened SearchTree
  import opened TreeShape

  class Bag {
    var tree: Node?
    ghost var shape: Shape  // the nodes reached from `tree`

    ghost predicate Valid()
      reads this, Nodes(shape)
    {
      Linked(shape, tree) && Unshared(shape) && StrictlyOrdered(Skeleton(shape))
    }

    /** The items of the bag. */
    ghost function Items(): set<int>
      reads this
    {
      Elems(Skeleton(shape))
    }

    constructor ()
      ensures Valid() && shape == Nil
    {
      tree := null;
      shape := Nil;
    }

    /** The copy constructor: same tree, no node in common. */
    constructor Copy(src: Bag)
      requires src.Valid()
      ensures Valid() && fresh(Nodes(shape)) && Skeleton(shape) == Skeleton(src.shape)
    {
      var copy, s := CopyNode(src.tree, src.shape);
      tree, shape := copy, s;
    }

    static method CopyNode(current: Node?, ghost s: Shape) returns (copy: Node?, ghost t: Shape)
      requires Linked(s, current) && Unshared(s)
      ensures Linked(t, copy) && Unshared(t)
      ensures fresh(Nodes(t)) && Skeleton(t) == Skeleton(s)
      decreases s
    {
      if current == null {
        return null, Nil;
      }
      LinkedChildren(s, current);
      NodesExist(s);
      var node := new Node(current.value);
      ghost var left, right;
      node.l, left := CopyNode(current.l, s.left);
      NodesExist(left);
      node.r, right := CopyNode(current.r, s.right);
      LinkedJoin(left, node, right);
      return node, Bin(left, node, right);
    }

    /** Assignment; assigning a bag to itself keeps it as it is. */
    method Assign(src: Bag)
      requires Valid() && src.Valid()
      modifies this
      ensures Valid() && Skeleton(shape) == old(Skeleton(src.shape))
      ensures if this == src then shape == old(shape) else fresh(Nodes(shape))
    {
      if this != src {
        tree, shape := CopyNode(src.tree, src.shape);
      }
    }

    /** Hands the tree over to the caller and leaves the bag empty. */
    method ExtractTree() returns (temp: Node?, ghost given: Shape)
      requires Valid()
      modifies this
      ensures Valid() && shape == Nil
      ensures given == old(shape) && Linked(given, temp)
    {
      temp, given := tree, shape;
      tree, shape := null, Nil;
    }

    /** Takes over a tree as it is and drops the old one; the bag is valid exactly if the tree is a search tree. */
    method SetTree(newTree: Node?, ghost given: Shape)
      requires Linked(given, newTree)
      modifies this
      ensures shape == given && tree == newTree
      ensures Valid() <==> Unshared(given) && StrictlyOrdered(Skeleton(given))
    {
      tree, shape := newTree, given;
    }

    /** Inserts an item. The node is made before the search; when the item turns
        out to be there already it is dropped again, and nothing changes. */
    method Insert(item: int)
      requires Valid()
      modifies this, Nodes(shape)
      ensures Valid()
      ensures Items() == old(Items()) + {item}
      ensures item in old(Items()) ==> shape == old(shape)
      ensures item !in old(Items()) ==>
        exists n: Node :: fresh(n) && n.value == item && shape == Hang(old(shape), item, n) &&
                          Nodes(shape) == old(Nodes(shape)) + {n}
      ensures Skeleton(shape) ==
        if item in old(Items()) then old(Skeleton(shape)) else SearchTree.Insert(old(Skeleton(shape)), item)
    {
      NodesExist(shape);
      var newNode := new Node(item);
      InsertElems(Skeleton(shape), item);
      HangInserts(shape, item, newNode);
      if item !in Items() {
        InsertKeepsStrictOrder(Skeleton(shape), item);
      }
      if tree == null {
        tree := newNode;
        shape := Hang(shape, item, newNode);
        return;
      }
      var current := tree;
      ghost var sub := shape;
      while true
        invariant sub.Bin? && Linked(sub, current) && Unshared(sub) && StrictlyOrdered(Skeleton(sub))
        invariant Nodes(sub) <= Nodes(shape)
        invariant Last(sub, item) == Last(shape, item)
        invariant item in Elems(Skeleton(sub)) <==> item in Items()
        invariant shape == old(shape) && Valid() && newNode.l == null && newNode.r == null
        decreases sub
      {
        LinkedChildren(sub, current);
        if item < current.value {
          if current.l == null {
            LinkNewNode(current, newNode, item, true);
            break;
          } else {
            current, sub := current.l, sub.left;
          }
        } else if item > current.value {
          if current.r == null {
            LinkNewNode(current, newNode, item, false);
            break;
          } else {
            current, sub := current.r, sub.right;
          }
        } else {
          break;
        }
      }
    }

    /** The write that ends the search: one link of `current` is set. */
    method LinkNewNode(current: Node, newNode: Node, item: int, left: bool)
      requires Valid() && shape.Bin? && item !in Items()
      requires newNode !in Nodes(shape) && newNode.value == item && newNode.l == null && newNode.r == null
      requires current == Last(shape, item) && current in Nodes(shape) && current.value != item
      requires left <==> item < current.value
      modifies this, current
      ensures Valid() && shape == Hang(old(shape), item, newNode)
    {
      HangInserts(shape, item, newNode);
      InsertKeepsStrictOrder(Skeleton(shape), item);
      HungIsLeaf(shape, item, newNode);
      HangNodes(shape, item, newNode);
      forall x | x in Nodes(shape)
        ensures LeftLink(Hang(shape, item, newNode), x) == if x == current && left then newNode else x.l
        ensures RightLink(Hang(shape, item, newNode), x) == if x == current && !left then newNode else x.r
      {
        HangLinks(shape, item, newNode, x);
      }
      if left {
        current.l := newNode;
      } else {
        current.r := newNode;
      }
      shape := Hang(shape, item, newNode);
    }

    method InsertArray(items: seq<int>)
      requires Valid()
      modifies this, Nodes(shape)
      ensures Valid()
      ensures Items() == old(Items()) + set x | x in items
      ensures fresh(Nodes(shape) - old(Nodes(shape)))
    {
      var i := 0;
      while i < |items|
        invariant 0 <= i <= |items|
        invariant Valid()
        invariant Items() == old(Items()) + set x | x in items[..i]
        invariant fresh(Nodes(shape) - old(Nodes(shape)))
      {
        assert items[..i + 1] == items[..i] + [items[i]];
        Insert(items[i]);
        i := i + 1;
      }
      assert items[..i] == items;
    }

    /** What is printed: the items from left to right, but never the item 0. */
    method Print() returns (out: seq<int>)
      requires Valid()
      ensures out == NonZero(InOrder(Skeleton(shape)))
      ensures out == InOrder(Skeleton(shape)) <==> 0 !in Items()
    {
      out := PrintNode(tree, shape, []);
      assert [] + out == out;
      NonZeroIsAllIff(InOrder(Skeleton(shape)));
      InOrderElems(Skeleton(shape), 0);
    }

    static method PrintNode(current: Node?, ghost s: Shape, before: seq<int>) returns (out: seq<int>)
      requires Linked(s, current) && Unshared(s)
      ensures out == before + NonZero(InOrder(Skeleton(s)))
      decreases s
    {
      out := before;
      if current != null {
        LinkedChildren(s, current);
        NodesExist(s);
        NonZeroBetween(before, InOrder(Skeleton(s.left)), current.value, InOrder(Skeleton(s.right)));
        out := PrintNode(current.l, s.left, out);
        if current.value != 0 {
          out := out + [current.value];
        }
        out := PrintNode(current.r, s.right, out);
      }
    }

    method Clear()
      modifies this
      ensures Valid() && shape == Nil && Items() == {}
    {
      tree := null;
      shape := Nil;
    }

    /** A bag that holds just the item 0 prints like the empty bag. */
    static method PrintsNothing() returns (bag: Bag, out: seq<int>)
      ensures fresh(bag) && bag.Valid() && bag.Items() == {0} && out == []
    {
      bag := new Bag();
      bag.Insert(0);
      out := bag.Print();
    }

    /** The search is right: it answers whether the item is in the subtree. */
    static function Search(node: Node?, value: int, ghost s: Shape): (found: bool)
      requires Linked(s, node) && Unshared(s) && StrictlyOrdered(Skeleton(s))
      reads Nodes(s)
      ensures found <==> value in Elems(Skeleton(s))
      decreases s
    {
      if node == null then false
      else
        LinkedChildren(s, node);
        if node.value == value then true
        else if value < node.value then Search(node.l, value, s.left)
        else Search(node.r, value, s.right)
    }

    function Has(value: int): (found: bool)
      requires Valid()
      reads this, Nodes(shape)
      ensures found <==> value in Items()
    {
      Search(tree, value, shape)
    }
  }
}
