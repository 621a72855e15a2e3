/** Binary search trees as values: what the two tree bags hold, independent of
    the heap. Equal items are sent to the right, so one definition serves the
    bag that keeps duplicates and the bag that never inserts one. */
module SearchTree {

  datatype Tree = Leaf | Fork(left: Tree, value: int, right: Tree)

  ghost function Elems(t: Tree): set<int> {
    match t
    case Leaf => {}
    case Fork(l, v, r) => Elems(l) + {v} + Elems(r)
  }

  ghost function InOrder(t: Tree): seq<int> {
    match t
    case Leaf => []
    case Fork(l, v, r) => InOrder(l) + [v] + InOrder(r)
  }

  /** Left below the root, right at or above it. */
  ghost predicate Ordered(t: Tree) {
    match t
    case Leaf => true
    case Fork(l, v, r) =>
      && Ordered(l) && Ordered(r)
      && (forall x :: x in Elems(l) ==> x < v)
      && (forall x :: x in Elems(r) ==> v <= x)
  }

  /** Left strictly below, right strictly above: no item occurs twice. */
  ghost predicate StrictlyOrdered(t: Tree) {
    match t
    case Leaf => true
    case Fork(l, v, r) =>
      && StrictlyOrdered(l) && StrictlyOrdered(r)
      && (forall x :: x in Elems(l) ==> x < v)
      && (forall x :: x in Elems(r) ==> v < x)
  }

  ghost function Insert(t: Tree, item: int): Tree {
    match t
    case Leaf => Fork(Leaf, item, Leaf)
    case Fork(l, v, r) => if item < v then Fork(Insert(l, item), v, r) else Fork(l, v, Insert(r, item))
  }

  ghost predicate Sorted(s: seq<int>) {
    forall i, j :: 0 <= i < j < |s| ==> s[i] <= s[j]
  }

  ghost predicate StrictlySorted(s: seq<int>) {
    forall i, j :: 0 <= i < j < |s| ==> s[i] < s[j]
  }

  lemma {:induction false} InOrderElems(t: Tree, x: int)
    ensures x in InOrder(t) <==> x in Elems(t)
  {
    match t
    case Leaf =>
    case Fork(l, v, r) =>
      InOrderElems(l, x);
      InOrderElems(r, x);
  }

  /** An ordered tree reads sorted from left to right. */
  lemma {:induction false} OrderedReadsSorted(t: Tree)
    requires Ordered(t)
    ensures Sorted(InOrder(t))
  {
    match t
    case Leaf =>
    case Fork(l, v, r) =>
      OrderedReadsSorted(l);
      OrderedReadsSorted(r);
      forall i | 0 <= i < |InOrder(l)| ensures InOrder(l)[i] < v { InOrderElems(l, InOrder(l)[i]); }
      forall i | 0 <= i < |InOrder(r)| ensures v <= InOrder(r)[i] { InOrderElems(r, InOrder(r)[i]); }
  }

  lemma {:induction false} StrictReadsStrictlySorted(t: Tree)
    requires StrictlyOrdered(t)
    ensures StrictlySorted(InOrder(t))
  {
    match t
    case Leaf =>
    case Fork(l, v, r) =>
      StrictReadsStrictlySorted(l);
      StrictReadsStrictlySorted(r);
      forall i | 0 <= i < |InOrder(l)| ensures InOrder(l)[i] < v { InOrderElems(l, InOrder(l)[i]); }
      forall i | 0 <= i < |InOrder(r)| ensures v < InOrder(r)[i] { InOrderElems(r, InOrder(r)[i]); }
  }

  /** The items without the zeros, in the same order. */
  ghost function NonZero(s: seq<int>): (t: seq<int>)
    ensures |t| <= |s|
  {
    if s == [] then []
    else if s[0] != 0 then [s[0]] + NonZero(s[1..])
    else NonZero(s[1..])
  }

  lemma {:induction false} NonZeroJoin(a: seq<int>, b: seq<int>)
    ensures NonZero(a + b) == NonZero(a) + NonZero(b)
  {
    if a == [] {
      assert a + b == b;
    } else {
      assert (a + b)[1..] == a[1..] + b;
      NonZeroJoin(a[1..], b);
    }
  }

  lemma NonZeroAround(a: seq<int>, v: int, b: seq<int>)
    ensures NonZero(a + [v] + b) == (NonZero(a) + if v != 0 then [v] else []) + NonZero(b)
  {
    NonZeroJoin(a + [v], b);
    NonZeroJoin(a, [v]);
    assert [v][1..] == [];
  }

  lemma NonZeroBetween(before: seq<int>, a: seq<int>, v: int, b: seq<int>)
    ensures before + NonZero(a + [v] + b) ==
            (if v != 0 then before + NonZero(a) + [v] else before + NonZero(a)) + NonZero(b)
  {
    NonZeroAround(a, v, b);
    Regroup(before, NonZero(a), if v != 0 then [v] else [], NonZero(b));
  }

  lemma Regroup(a: seq<int>, b: seq<int>, c: seq<int>, d: seq<int>)
    ensures a + ((b + c) + d) == (a + b + c) + d
  {
  }

  /** Nothing is left out exactly when there is no zero. */
  lemma {:induction false} NonZeroIsAllIff(s: seq<int>)
    ensures NonZero(s) == s <==> 0 !in s
  {
    if s == [] {
    } else {
      NonZeroIsAllIff(s[1..]);
      assert s == [s[0]] + s[1..];
    }
  }

  lemma {:induction false} InsertElems(t: Tree, item: int)
    ensures Elems(Insert(t, item)) == Elems(t) + {item}
  {
    match t
    case Leaf =>
    case Fork(l, v, r) =>
      InsertElems(l, item);
      InsertElems(r, item);
  }

  /** Insertion keeps the order. */
  lemma {:induction false} InsertKeepsOrder(t: Tree, item: int)
    requires Ordered(t)
    ensures Ordered(Insert(t, item))
  {
    match t
    case Leaf =>
    case Fork(l, v, r) =>
      if item < v {
        InsertKeepsOrder(l, item);
        InsertElems(l, item);
      } else {
        InsertKeepsOrder(r, item);
        InsertElems(r, item);
      }
  }

  ghost function Items(t: Tree): multiset<int> {
    match t
    case Leaf => multiset{}
    case Fork(l, v, r) => Items(l) + multiset{v} + Items(r)
  }

  lemma {:induction false} ReadsItems(t: Tree)
    ensures multiset(InOrder(t)) == Items(t)
  {
    match t
    case Leaf =>
    case Fork(l, v, r) =>
      ReadsItems(l);
      ReadsItems(r);
  }

  /** Insertion adds exactly one occurrence of the item. */
  lemma InsertAddsOne(t: Tree, item: int)
    ensures multiset(InOrder(Insert(t, item))) == multiset(InOrder(t)) + multiset{item}
  {
    ReadsItems(t);
    ReadsItems(Insert(t, item));
    ItemsGrow(t, item);
  }

  lemma {:induction false} ItemsGrow(t: Tree, item: int)
    ensures Items(Insert(t, item)) == Items(t) + multiset{item}
  {
    match t
    case Leaf =>
    case Fork(l, v, r) =>
      if item < v {
        ItemsGrow(l, item);
      } else {
        ItemsGrow(r, item);
      }
  }

  /** Inserting an item that is not there yet keeps the tree free of duplicates. */
  lemma {:induction false} InsertKeepsStrictOrder(t: Tree, item: int)
    requires StrictlyOrdered(t) && item !in Elems(t)
    ensures StrictlyOrdered(Insert(t, item))
  {
    match t
    case Leaf =>
    case Fork(l, v, r) =>
      if item < v {
        InsertKeepsStrictOrder(l, item);
        InsertElems(l, item);
      } else {
        InsertKeepsStrictOrder(r, item);
        InsertElems(r, item);
      }
  }
}
