/**
 * The growable vector: a count of items in use and an array of slots that
 * grows by one block of sixteen slots whenever an append finds it full.
 */
module Vectors {
  import opened Wrappers

  const ItemsPerBlock := 16

  class Vector<T(0)> {
    var count: nat
    var elements: array<T>

    /** The items in use fit the slots, which come in whole blocks. */
    ghost predicate Valid()
      reads this
    {
      count <= elements.Length && elements.Length >= ItemsPerBlock && elements.Length % ItemsPerBlock == 0
    }

    /** The items in use, in index order. */
    ghost function Items(): seq<T>
      reads this, elements
      requires Valid()
    {
      elements[..count]
    }

    /** A new vector is empty, with one block of slots. */
    constructor()
      ensures Valid() && fresh(elements)
      ensures Items() == [] && elements.Length == ItemsPerBlock
    {
      count := 0;
      elements := new T[ItemsPerBlock];
    }

    predicate IsFull()
      reads this
    {
      count >= elements.Length
    }

    /** Adds `blocks` blocks of slots, keeping the items. */
    method IncreaseSize(blocks: nat)
      requires Valid()
      modifies this
      ensures Valid() && fresh(elements)
      ensures elements.Length == old(elements.Length) + blocks * ItemsPerBlock
      ensures count == old(count) && Items() == old(Items())
    {
      var grown := new T[elements.Length + blocks * ItemsPerBlock];
      forall i | 0 <= i < elements.Length {
        grown[i] := elements[i];
      }
      assert grown[..count] == elements[..count];
      elements := grown;
    }

    /** Appends an item, growing the slots when they are full; the item's index is the old count. */
    method Append(item: T) returns (index: int)
      requires Valid()
      modifies this, elements
      ensures Valid() && (elements == old(elements) || fresh(elements))
      ensures index == old(count)
      ensures Items() == old(Items()) + [item]
      ensures old(IsFull()) ==> elements.Length == old(elements.Length) + ItemsPerBlock
      ensures !old(IsFull()) ==> elements == old(elements)
    {
      if IsFull() {
        IncreaseSize(1);
      }
      count := count + 1;
      index := count - 1;
      var ok := Set(index, item);
      if !ok {
        index := -1;
      }
    }

    /** Removes the item at `index`, shifting the later ones down; None when the index is out of bounds. */
    method Remove(index: int) returns (removed: Option<T>)
      requires Valid()
      modifies this, elements
      ensures Valid() && elements == old(elements)
      ensures InBounds(old(count), index) ==>
        removed == Some(old(Items())[index]) && Items() == old(Items())[..index] + old(Items())[index + 1..]
      ensures !InBounds(old(count), index) ==> removed == None && Items() == old(Items())
    {
      if !InBounds(count, index) {
        return None;
      }
      removed := Some(elements[index]);
      forall i | index <= i < count - 1 {
        elements[i] := elements[i + 1];
      }
      count := count - 1;
    }

    /** Forgets every item; the slots stay allocated. */
    method Clear()
      requires Valid()
      modifies this
      ensures Valid() && elements == old(elements) && Items() == []
    {
      count := 0;
    }

    /** The item at `index`, or None when the index is out of bounds. */
    method Get(index: int) returns (item: Option<T>)
      requires Valid()
      ensures item.Some? <==> InBounds(count, index)
      ensures item.Some? ==> item.value == Items()[index]
    {
      if InBounds(count, index) {
        item := Some(elements[index]);
      } else {
        item := None;
      }
    }

    /** Replaces the item at `index` if the index is in bounds; otherwise changes nothing. */
    method Set(index: int, item: T) returns (ok: bool)
      requires Valid()
      modifies elements
      ensures Valid()
      ensures ok <==> InBounds(count, index)
      ensures ok ==> Items() == old(Items())[index := item]
      ensures !ok ==> Items() == old(Items())
    {
      ok := InBounds(count, index);
      if ok {
        elements[index] := item;
      }
    }

    method Count() returns (n: nat)
      requires Valid()
      ensures n == |Items()|
    {
      n := count;
    }
  }

  /** The bounds check: the vector is not empty and the index lies within the count. */
  predicate InBounds(count: nat, index: int) {
    count > 0 && index < count && index >= 0
  }

  /** Appending items one by one indexes them in order, and each has the index it was appended at. */
  method AppendAll<T(0)>(items: seq<T>) returns (v: Vector<T>, indices: seq<int>)
    ensures v.Valid() && v.Items() == items
    ensures |indices| == |items| && forall i :: 0 <= i < |items| ==> indices[i] == i
  {
    v := new Vector<T>();
    indices := [];
    var i := 0;
    while i < |items|
      invariant 0 <= i <= |items|
      invariant fresh(v) && fresh(v.elements)
      invariant v.Valid() && v.Items() == items[..i]
      invariant |indices| == i && forall j :: 0 <= j < i ==> indices[j] == j
    {
      var index := v.Append(items[i]);
      indices := indices + [index];
      i := i + 1;
    }
  }

  /** Removing from the back yields the items in reverse order of appending and empties the vector. */
  method DrainFromBack<T(0)>(v: Vector<T>) returns (drained: seq<T>)
    requires v.Valid()
    modifies v, v.elements
    ensures v.Valid() && v.Items() == []
    ensures |drained| == |old(v.Items())|
    ensures forall j :: 0 <= j < |drained| ==> drained[j] == old(v.Items())[|drained| - 1 - j]
  {
    ghost var original := v.Items();
    drained := [];
    var n := v.Count();
    while n > 0
      invariant v.Valid() && v.elements == old(v.elements)
      invariant n == |v.Items()| && v.Items() == original[..n]
      invariant |drained| == |original| - n
      invariant forall j :: 0 <= j < |drained| ==> drained[j] == original[|original| - 1 - j]
      decreases n
    {
      var removed := v.Remove(n - 1);
      drained := drained + [removed.value];
      n := v.Count();
    }
  }
}
