/** The set wrapper over either searchable bag
    (pracprac/practice05/level0/polyset/set.cpp), and what holds of the bags and
    the wrapper over whole sequences of operations. */
module Polyset {
  import opened SearchTree
  import opened TreeShape
  import TreeBag
  import ArrayBag

  /** A reference to a searchable bag, whose virtual calls go to one of the two
      implementations. */
  datatype SearchableBag = OverTree(linked: TreeBag.Bag) | OverArray(flat: ArrayBag.Bag) {

    ghost function Footprint(): set<object>
      reads if OverTree? then {linked as object} else {flat as object}
    {
      match this
      case OverTree(t) => {t as object} + Nodes(t.shape)
      case OverArray(a) => a.Footprint()
    }

    ghost predicate Valid()
      reads Footprint()
    {
      match this
      case OverTree(t) => t.Valid()
      case OverArray(a) => a.Valid()
    }

    /** The items the bag holds, however often. */
    ghost function Items(): set<int>
      reads Footprint()
    {
      match this
      case OverTree(t) => t.Items()
      case OverArray(a) => set x | x in a.Contents()
    }

    /** No item is stored twice. For a tree this is part of being valid. */
    ghost predicate NoDuplicates()
      reads Footprint()
    {
      match this
      case OverTree(t) => StrictlySorted(InOrder(Skeleton(t.shape)))
      case OverArray(a) => forall i, j :: 0 <= i < j < |a.Contents()| ==> a.Contents()[i] != a.Contents()[j]
    }

    /** Everything in the footprint exists, so calls elsewhere leave it alone. */
    lemma FootprintExists()
      ensures forall o :: o in Footprint() ==> allocated(o)
    {
      if OverTree? {
        NodesExist(linked.shape);
      }
    }

    method Has(value: int) returns (found: bool)
      requires Valid()
      ensures found <==> value in Items()
    {
      match this {
        case OverTree(t) => found := t.Has(value);
        case OverArray(a) => found := a.Has(value);
      }
    }

    method Insert(item: int)
      requires Valid()
      modifies Footprint()
      ensures Valid() && fresh(Footprint() - old(Footprint()))
      ensures Items() == old(Items()) + {item}
      ensures old(NoDuplicates()) && item !in old(Items()) ==> NoDuplicates()
    {
      match this {
        case OverTree(t) =>
          t.Insert(item);
          StrictReadsStrictlySorted(Skeleton(t.shape));
        case OverArray(a) =>
          a.Insert(item);
      }
    }

    method InsertArray(items: seq<int>)
      requires Valid()
      modifies Footprint()
      ensures Valid() && fresh(Footprint() - old(Footprint()))
      ensures Items() == old(Items()) + set x | x in items
    {
      match this {
        case OverTree(t) => t.InsertArray(items);
        case OverArray(a) => a.InsertArray(items);
      }
    }

    method Clear()
      requires Valid()
      modifies Footprint()
      ensures Valid() && fresh(Footprint() - old(Footprint()))
      ensures Items() == {} && NoDuplicates()
    {
      match this {
        case OverTree(t) => t.Clear();
        case OverArray(a) => a.Clear();
      }
    }

    method Perform(op: Op)
      requires Valid()
      modifies Footprint()
      ensures Valid() && fresh(Footprint() - old(Footprint()))
      ensures Items() == Effect(op, old(Items()))
    {
      match op {
        case Add(x) => Insert(x);
        case AddAll(xs) => InsertArray(xs);
        case Reset => Clear();
      }
    }

    /** Runs a sequence of operations on the bag itself, without the wrapper. */
    method Run(ops: seq<Op>)
      requires Valid()
      modifies Footprint()
      ensures Valid() && fresh(Footprint() - old(Footprint()))
      ensures Items() == After(ops, old(Items()))
    {
      var i := 0;
      while i < |ops|
        invariant 0 <= i <= |ops|
        invariant Valid() && fresh(Footprint() - old(Footprint()))
        invariant Items() == After(ops[..i], old(Items()))
      {
        assert ops[..i + 1][..i] == ops[..i];
        Perform(ops[i]);
        i := i + 1;
      }
      assert ops[..i] == ops;
    }
  }

  /** One call on a bag or a set that changes it. */
  datatype Op = Add(x: int) | AddAll(xs: seq<int>) | Reset

  ghost predicate Adds(op: Op, x: int) {
    match op
    case Add(y) => x == y
    case AddAll(ys) => x in ys
    case Reset => false
  }

  ghost function Effect(op: Op, items: set<int>): set<int> {
    match op
    case Add(x) => items + {x}
    case AddAll(xs) => items + set x | x in xs
    case Reset => {}
  }

  /** The items held after a sequence of operations. */
  ghost function After(ops: seq<Op>, items: set<int>): set<int> {
    if ops == [] then items
    else
      Effect(ops[|ops| - 1], After(ops[..|ops| - 1], items))
  }

  /** No reset happens from the `k`-th operation on. */
  ghost predicate NoResetFrom(ops: seq<Op>, k: nat) {
    forall m :: k <= m < |ops| ==> !ops[m].Reset?
  }

  ghost predicate AddedSinceReset(ops: seq<Op>, x: int) {
    exists k :: 0 <= k < |ops| && Adds(ops[k], x) && NoResetFrom(ops, k)
  }

  /** An item is held exactly if it was added, or held from the start, with no reset since. */
  lemma {:induction false} HeldIffAddedSinceReset(ops: seq<Op>, items: set<int>, x: int)
    ensures x in After(ops, items) <==> AddedSinceReset(ops, x) || (x in items && NoResetFrom(ops, 0))
  {
    if ops == [] {
    } else {
      var n := |ops| - 1;
      HeldIffAddedSinceReset(ops[..n], items, x);
      LastOperationDecides(ops, x);
      assert NoResetFrom(ops, 0) <==> NoResetFrom(ops[..n], 0) && !ops[n].Reset?;
    }
  }

  lemma LastOperationDecides(ops: seq<Op>, x: int)
    requires ops != []
    ensures AddedSinceReset(ops, x) <==>
      Adds(ops[|ops| - 1], x) || (!ops[|ops| - 1].Reset? && AddedSinceReset(ops[..|ops| - 1], x))
  {
    var n := |ops| - 1;
    if AddedSinceReset(ops[..n], x) && !ops[n].Reset? {
      var k :| 0 <= k < n && Adds(ops[..n][k], x) && NoResetFrom(ops[..n], k);
      assert Adds(ops[k], x);
      forall m | k <= m < |ops| ensures !ops[m].Reset? {
        if m < n { assert ops[..n][m] == ops[m]; }
      }
      assert NoResetFrom(ops, k);
    }
    if AddedSinceReset(ops, x) && !Adds(ops[n], x) {
      var k :| 0 <= k < |ops| && Adds(ops[k], x) && NoResetFrom(ops, k);
      assert Adds(ops[..n][k], x) && NoResetFrom(ops[..n], k);
    }
    if Adds(ops[n], x) {
      assert NoResetFrom(ops, n);
    }
  }

  /** The wrapper: it holds a reference to a bag and inserts only what is not there. */
  class Set {
    const bag: SearchableBag

    constructor (bag: SearchableBag)
      ensures this.bag == bag
    {
      this.bag := bag;
    }

    method Has(value: int) returns (found: bool)
      requires bag.Valid()
      ensures found <==> value in bag.Items()
    {
      found := bag.Has(value);
    }

    method Insert(value: int)
      requires bag.Valid()
      modifies bag.Footprint()
      ensures bag.Valid() && fresh(bag.Footprint() - old(bag.Footprint()))
      ensures bag.Items() == old(bag.Items()) + {value}
      ensures old(bag.NoDuplicates()) ==> bag.NoDuplicates()
    {
      bag.FootprintExists();
      var present := Has(value);
      if !present {
        bag.Insert(value);
      }
    }

    method InsertArray(data: seq<int>)
      requires bag.Valid()
      modifies bag.Footprint()
      ensures bag.Valid() && fresh(bag.Footprint() - old(bag.Footprint()))
      ensures bag.Items() == old(bag.Items()) + set x | x in data
      ensures old(bag.NoDuplicates()) ==> bag.NoDuplicates()
    {
      var i := 0;
      while i < |data|
        invariant 0 <= i <= |data|
        invariant bag.Valid() && fresh(bag.Footprint() - old(bag.Footprint()))
        invariant bag.Items() == old(bag.Items()) + set x | x in data[..i]
        invariant old(bag.NoDuplicates()) ==> bag.NoDuplicates()
      {
        assert data[..i + 1] == data[..i] + [data[i]];
        Insert(data[i]);
        i := i + 1;
      }
      assert data[..i] == data;
    }

    method Clear()
      requires bag.Valid()
      modifies bag.Footprint()
      ensures bag.Valid() && fresh(bag.Footprint() - old(bag.Footprint()))
      ensures bag.Items() == {} && bag.NoDuplicates()
    {
      bag.Clear();
    }

    method Perform(op: Op)
      requires bag.Valid()
      modifies bag.Footprint()
      ensures bag.Valid() && fresh(bag.Footprint() - old(bag.Footprint()))
      ensures bag.Items() == Effect(op, old(bag.Items()))
      ensures old(bag.NoDuplicates()) ==> bag.NoDuplicates()
    {
      match op {
        case Add(x) => Insert(x);
        case AddAll(xs) => InsertArray(xs);
        case Reset => Clear();
      }
    }

    method Run(ops: seq<Op>)
      requires bag.Valid()
      modifies bag.Footprint()
      ensures bag.Valid() && fresh(bag.Footprint() - old(bag.Footprint()))
      ensures bag.Items() == After(ops, old(bag.Items()))
      ensures old(bag.NoDuplicates()) ==> bag.NoDuplicates()
    {
      var i := 0;
      while i < |ops|
        invariant 0 <= i <= |ops|
        invariant bag.Valid() && fresh(bag.Footprint() - old(bag.Footprint()))
        invariant bag.Items() == After(ops[..i], old(bag.Items()))
        invariant old(bag.NoDuplicates()) ==> bag.NoDuplicates()
      {
        assert ops[..i + 1][..i] == ops[..i];
        Perform(ops[i]);
        i := i + 1;
      }
      assert ops[..i] == ops;
    }
  }

  /** Two sets over separate bags with the same items answer alike after the same
      operations, whichever implementations they wrap. */
  method SetsAgree(a: Set, b: Set, ops: seq<Op>, value: int) returns (inA: bool, inB: bool)
    requires a.bag.Valid() && b.bag.Valid() && a.bag.Footprint() !! b.bag.Footprint()
    requires a.bag.Items() == b.bag.Items()
    modifies a.bag.Footprint(), b.bag.Footprint()
    ensures a.bag.Items() == b.bag.Items() && inA == inB
    ensures inA <==> value in After(ops, old(a.bag.Items()))
  {
    b.bag.FootprintExists();
    a.Run(ops);
    a.bag.FootprintExists();
    b.Run(ops);
    a.bag.FootprintExists();
    b.bag.FootprintExists();
    inA := a.Has(value);
    inB := b.Has(value);
  }

  /** The same for the bare bags, although only the array bag stores duplicates. */
  method BagsAgree(a: SearchableBag, b: SearchableBag, ops: seq<Op>, value: int) returns (inA: bool, inB: bool)
    requires a.Valid() && b.Valid() && a.Footprint() !! b.Footprint() && a.Items() == b.Items()
    modifies a.Footprint(), b.Footprint()
    ensures a.Items() == b.Items() && inA == inB
  {
    b.FootprintExists();
    a.Run(ops);
    a.FootprintExists();
    b.Run(ops);
    a.FootprintExists();
    b.FootprintExists();
    inA := a.Has(value);
    inB := b.Has(value);
  }

  /** One call on a bag or on the copy of it. */
  datatype Call = OnCopy(op: Op) | OnSource(op: Op)

  /** The calls on the copy, or those on the source, in order. */
  ghost function CallsOn(calls: seq<Call>, copy: bool): seq<Op> {
    if calls == [] then []
    else
      var earlier, last := CallsOn(calls[..|calls| - 1], copy), calls[|calls| - 1];
      if last.OnCopy? == copy then earlier + [last.op] else earlier
  }

  lemma OneCallMore(calls: seq<Call>, i: nat, copy: bool, items: set<int>)
    requires i < |calls|
    ensures After(CallsOn(calls[..i + 1], copy), items) ==
            if calls[i].OnCopy? == copy then Effect(calls[i].op, After(CallsOn(calls[..i], copy), items))
            else After(CallsOn(calls[..i], copy), items)
  {
    assert calls[..i + 1][..i] == calls[..i];
    var earlier := CallsOn(calls[..i], copy);
    assert (earlier + [calls[i].op])[..|earlier|] == earlier;
  }

  /** An operation on one bag does not show in another that shares nothing with it. */
  method PerformBeside(bag: SearchableBag, op: Op, other: SearchableBag)
    requires bag.Valid() && other.Valid() && bag.Footprint() !! other.Footprint()
    modifies bag.Footprint()
    ensures bag.Valid() && fresh(bag.Footprint() - old(bag.Footprint()))
    ensures bag.Items() == Effect(op, old(bag.Items()))
    ensures other.Valid() && other.Items() == old(other.Items()) && other.Footprint() == old(other.Footprint())
    ensures bag.Footprint() !! other.Footprint()
  {
    other.FootprintExists();
    bag.Perform(op);
  }

  /** After copying a tree bag, whatever is done to either bag, in whatever order, does not show in the other. */
  method CopyIsIndependent(source: TreeBag.Bag, calls: seq<Call>) returns (copy: TreeBag.Bag)
    requires source.Valid()
    modifies source, Nodes(source.shape)
    ensures fresh(copy) && copy.Valid() && source.Valid()
    ensures copy.Items() == After(CallsOn(calls, true), old(source.Items()))
    ensures source.Items() == After(CallsOn(calls, false), old(source.Items()))
  {
    NodesExist(source.shape);
    copy := new TreeBag.Bag.Copy(source);
    var a, b := OverTree(copy), OverTree(source);
    RunBoth(a, b, calls);
  }

  ghost function Both(a: SearchableBag, b: SearchableBag): set<object>
    reads a.Footprint(), b.Footprint()
  {
    a.Footprint() + b.Footprint()
  }

  method RunBoth(a: SearchableBag, b: SearchableBag, calls: seq<Call>)
    requires a.Valid() && b.Valid() && a.Footprint() !! b.Footprint()
    modifies Both(a, b)
    ensures a.Valid() && a.Items() == After(CallsOn(calls, true), old(a.Items()))
    ensures b.Valid() && b.Items() == After(CallsOn(calls, false), old(b.Items()))
  {
    var i := 0;
    while i < |calls|
      invariant 0 <= i <= |calls|
      invariant a.Valid() && b.Valid() && a.Footprint() !! b.Footprint()
      invariant fresh(Both(a, b) - old(Both(a, b)))
      invariant a.Items() == After(CallsOn(calls[..i], true), old(a.Items()))
      invariant b.Items() == After(CallsOn(calls[..i], false), old(b.Items()))
    {
      OneCallMore(calls, i, true, old(a.Items()));
      OneCallMore(calls, i, false, old(b.Items()));
      PerformOne(a, b, calls[i]);
      i := i + 1;
    }
    assert calls[..i] == calls;
  }

  method PerformOne(a: SearchableBag, b: SearchableBag, call: Call)
    requires a.Valid() && b.Valid() && a.Footprint() !! b.Footprint()
    modifies Both(a, b)
    ensures a.Valid() && b.Valid() && a.Footprint() !! b.Footprint()
    ensures fresh(Both(a, b) - old(Both(a, b)))
    ensures a.Items() == if call.OnCopy? then Effect(call.op, old(a.Items())) else old(a.Items())
    ensures b.Items() == if call.OnCopy? then old(b.Items()) else Effect(call.op, old(b.Items()))
  {
    match call
    case OnCopy(op) => PerformBeside(a, op, b);
    case OnSource(op) => PerformBeside(b, op, a);
  }
}
