/** The bag over an array that is copied on every insertion, with its linear
    search (pracprac/practice05/level0/polyset/array_bag.cpp and
    searchable_array_bag.cpp). */
module ArrayBag {

  class Bag {
    var data: array?<int>
    var size: nat

    ghost predicate Valid()
      reads this
    {
      if data == null then size == 0 else data.Length == size
    }

    /** The items in insertion order; the bag keeps duplicates. */
    ghost function Contents(): seq<int>
      reads this, if data == null then {} else {data}
    {
      if data == null then [] else data[..]
    }

    ghost function Footprint(): set<object>
      reads this
    {
      {this} + if data == null then {} else {data}
    }

    constructor ()
      ensures Valid() && Contents() == [] && data == null
    {
      size := 0;
      data := null;
    }

    constructor Copy(src: Bag)
      requires src.Valid()
      ensures Valid() && fresh(Footprint()) && Contents() == src.Contents()
    {
      var copy := CopyOf(src);
      data := copy;
      size := src.size;
      new;
      assert Contents() == copy[..];
    }

    /** The element by element copy both the copy constructor and assignment make. */
    static method CopyOf(src: Bag) returns (copy: array<int>)
      requires src.Valid()
      ensures fresh(copy) && copy[..] == src.Contents()
    {
      copy := new int[src.size];
      var i := 0;
      while i < src.size
        invariant 0 <= i <= src.size
        invariant copy[..i] == src.Contents()[..i]
      {
        copy[i] := src.data[i];
        i := i + 1;
      }
    }

    method Assign(src: Bag)
      requires Valid() && src.Valid()
      modifies this
      ensures Valid() && Contents() == old(src.Contents())
      ensures this != src ==> data != null && fresh(data)
    {
      if this != src {
        data := CopyOf(src);
        size := src.size;
      }
    }

    method Insert(item: int)
      requires Valid()
      modifies this
      ensures Valid() && Contents() == old(Contents()) + [item]
      ensures data != null && fresh(data)
    {
      var newData := new int[size + 1];
      var i := 0;
      while i < size
        invariant 0 <= i <= size
        invariant newData[..i] == Contents()[..i]
        modifies newData
      {
        newData[i] := data[i];
        i := i + 1;
      }
      newData[size] := item;
      assert newData[..size] == Contents();
      data := newData;
      size := size + 1;
    }

    method InsertArray(items: seq<int>)
      requires Valid()
      modifies this
      ensures Valid() && Contents() == old(Contents()) + items
      ensures data != null && fresh(data)
    {
      var newData := new int[size + |items|];
      var i := 0;
      while i < size
        invariant 0 <= i <= size
        invariant newData[..i] == Contents()[..i]
        modifies newData
      {
        newData[i] := data[i];
        i := i + 1;
      }
      i := 0;
      while i < |items|
        invariant 0 <= i <= |items|
        invariant newData[..size] == Contents()
        invariant newData[size..size + i] == items[..i]
        modifies newData
      {
        newData[size + i] := items[i];
        i := i + 1;
      }
      assert newData[..] == newData[..size] + newData[size..size + i];
      data := newData;
      size := size + |items|;
    }

    method Clear()
      modifies this
      ensures Valid() && Contents() == [] && data == null
    {
      data := null;
      size := 0;
    }

    method Has(value: int) returns (found: bool)
      requires Valid()
      ensures found <==> value in Contents()
    {
      var i := 0;
      while i < size
        invariant 0 <= i <= size
        invariant value !in Contents()[..i]
      {
        if data[i] == value {
          return true;
        }
        i := i + 1;
      }
      assert Contents()[..i] == Contents();
      return false;
    }
  }
}
