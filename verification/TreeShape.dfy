/** Linked tree nodes on the heap, and the ghost shape that says which nodes
    make up a tree and how. A shape is a value: only `Linked` reads the heap. */
module TreeShape {
  import opened SearchTree

  /** A node gets its value when it is made; only its links change later. */
  class Node {
    const value: int
    var l: Node?
    var r: Node?

    constructor (value: int)
      ensures this.value == value && l == null && r == null
    {
      this.value := value;
      l, r := null, null;
    }
  }

  datatype Shape = Nil | Bin(left: Shape, node: Node, right: Shape)

  ghost function Nodes(s: Shape): set<Node> {
    match s
    case Nil => {}
    case Bin(l, n, r) => Nodes(l) + {n} + Nodes(r)
  }

  /** The nodes of a shape one holds exist, so a node made later is none of them. */
  lemma {:induction false} NodesExist(s: Shape)
    ensures forall n :: n in Nodes(s) ==> allocated(n)
  {
    match s
    case Nil =>
    case Bin(l, n, r) =>
      NodesExist(l);
      NodesExist(r);
  }

  /** No node occurs twice, so the structure is a tree: acyclic and unshared. */
  ghost predicate Unshared(s: Shape) {
    match s
    case Nil => true
    case Bin(l, n, r) =>
      && Unshared(l) && Unshared(r)
      && n !in Nodes(l) && n !in Nodes(r) && Nodes(l) !! Nodes(r)
  }

  function Root(s: Shape): Node? {
    if s.Nil? then null else s.node
  }

  /** The left link the shape asks of its node `x`. */
  ghost function LeftLink(s: Shape, x: Node): Node? {
    match s
    case Nil => null
    case Bin(l, n, r) => if x == n then Root(l) else if x in Nodes(l) then LeftLink(l, x) else LeftLink(r, x)
  }

  ghost function RightLink(s: Shape, x: Node): Node? {
    match s
    case Nil => null
    case Bin(l, n, r) => if x == n then Root(r) else if x in Nodes(l) then RightLink(l, x) else RightLink(r, x)
  }

  /** The links in the heap, followed from `p`, form exactly the shape. */
  ghost predicate Linked(s: Shape, p: Node?)
    reads Nodes(s)
  {
    && p == Root(s)
    && forall n :: n in Nodes(s) ==> n.l == LeftLink(s, n) && n.r == RightLink(s, n)
  }

  /** The links of a subtree are those of the tree it belongs to. */
  lemma LinkedChildren(s: Shape, p: Node?)
    requires s.Bin? && Unshared(s) && Linked(s, p)
    ensures Linked(s.left, s.node.l) && Linked(s.right, s.node.r)
  {
  }

  /** Two linked subtrees without a common node make a linked tree. */
  lemma LinkedJoin(l: Shape, n: Node, r: Shape)
    requires Unshared(Bin(l, n, r)) && Linked(l, n.l) && Linked(r, n.r)
    ensures Linked(Bin(l, n, r), n)
  {
  }

  /** The tree value a shape stands for. */
  ghost function Skeleton(s: Shape): Tree {
    match s
    case Nil => Leaf
    case Bin(l, n, r) => Fork(Skeleton(l), n.value, Skeleton(r))
  }

  /** The shape after a new node is hung where the search for `item` falls off. */
  ghost function Hang(s: Shape, item: int, n: Node): Shape {
    match s
    case Nil => Bin(Nil, n, Nil)
    case Bin(l, m, r) => if item < m.value then Bin(Hang(l, item, n), m, r) else Bin(l, m, Hang(r, item, n))
  }

  /** The last node on the search path of `item`. */
  ghost function Last(s: Shape, item: int): Node
    requires s.Bin?
  {
    if item < s.node.value then
      if s.left.Nil? then s.node else Last(s.left, item)
    else
      if s.right.Nil? then s.node else Last(s.right, item)
  }

  lemma {:induction false} LastIsNode(s: Shape, item: int)
    requires s.Bin?
    ensures Last(s, item) in Nodes(s)
  {
    if item < s.node.value {
      if s.left.Bin? { LastIsNode(s.left, item); }
    } else {
      if s.right.Bin? { LastIsNode(s.right, item); }
    }
  }

  /** Hanging a fresh node adds it to the tree and does to the value what insertion does. */
  lemma {:induction false} HangInserts(s: Shape, item: int, n: Node)
    requires Unshared(s) && n !in Nodes(s) && n.value == item
    ensures Unshared(Hang(s, item, n))
    ensures Nodes(Hang(s, item, n)) == Nodes(s) + {n}
    ensures Skeleton(Hang(s, item, n)) == Insert(Skeleton(s), item)
  {
    match s
    case Nil =>
    case Bin(l, m, r) =>
      if item < m.value {
        HangInserts(l, item, n);
      } else {
        HangInserts(r, item, n);
      }
  }

  /** Hanging a node asks for one changed link: that of the last node on the search path. */
  lemma {:induction false} HangLinks(s: Shape, item: int, n: Node, x: Node)
    requires s.Bin? && Unshared(s) && n !in Nodes(s) && x in Nodes(s)
    requires Nodes(Hang(s, item, n)) == Nodes(s) + {n}
    ensures LeftLink(Hang(s, item, n), x) == if x == Last(s, item) && item < x.value then n else LeftLink(s, x)
    ensures RightLink(Hang(s, item, n), x) == if x == Last(s, item) && item >= x.value then n else RightLink(s, x)
  {
    LastIsNode(s, item);
    var Bin(l, m, r) := s;
    if item < m.value {
      HangNodes(l, item, n);
      if l.Bin? {
        LastIsNode(l, item);
        if x in Nodes(l) {
          HangLinks(l, item, n, x);
        }
      }
    } else {
      HangNodes(r, item, n);
      if r.Bin? {
        LastIsNode(r, item);
        if x in Nodes(r) {
          HangLinks(r, item, n, x);
        }
      }
    }
  }

  lemma {:induction false} HangNodes(s: Shape, item: int, n: Node)
    ensures Nodes(Hang(s, item, n)) == Nodes(s) + {n}
    ensures Root(Hang(s, item, n)) == if s.Nil? then n else Root(s)
  {
    if s.Nil? {
    } else {
      HangNodes(s.left, item, n);
      HangNodes(s.right, item, n);
    }
  }

  /** The hung node itself is a leaf. */
  lemma {:induction false} HungIsLeaf(s: Shape, item: int, n: Node)
    requires n !in Nodes(s)
    requires Nodes(Hang(s, item, n)) == Nodes(s) + {n}
    ensures LeftLink(Hang(s, item, n), n) == null && RightLink(Hang(s, item, n), n) == null
  {
    if s.Nil? {
    } else {
      if item < s.node.value {
        HangNodes(s.left, item, n);
        HungIsLeaf(s.left, item, n);
      } else {
        HangNodes(s.right, item, n);
        HungIsLeaf(s.right, item, n);
      }
    }
  }
}
