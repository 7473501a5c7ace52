/**
 * The LIFO stack: a singly linked chain of items, each pointing at the one
 * pushed before it, and a count.
 */
module Stacks {
  import opened Wrappers

  /** One link of the chain. Links are never changed after they are made. */
  class StackItem<T> {
    const data: T
    const prior: StackItem?<T>
    /** The data of this link and of every link below it, this one first. */
    ghost const items: seq<T>

    ghost predicate Valid()
      decreases |items|
    {
      && |items| > 0 && items[0] == data
      && (prior == null ==> items == [data])
      && (prior != null ==> prior.items == items[1..] && prior.Valid())
    }

    constructor(data: T, prior: StackItem?<T>)
      requires prior != null ==> prior.Valid()
      ensures Valid() && this.data == data && this.prior == prior
      ensures items == [data] + (if prior == null then [] else prior.items)
    {
      this.data := data;
      this.prior := prior;
      this.items := [data] + (if prior == null then [] else prior.items);
    }
  }

  class Stack<T> {
    var top: StackItem?<T>
    var count: nat
    /** The stacked items, the most recently pushed first. */
    ghost var contents: seq<T>

    ghost predicate Valid()
      reads this
    {
      && (top == null <==> contents == [])
      && (top != null ==> top.Valid() && top.items == contents)
      && count == |contents|
    }

    /** A new stack is empty. */
    constructor()
      ensures Valid() && contents == []
    {
      top := null;
      count := 0;
      contents := [];
    }

    /** The item becomes the top; everything else stays below it. */
    method Push(item: T)
      requires Valid()
      modifies this
      ensures Valid() && contents == [item] + old(contents)
    {
      top := new StackItem(item, top);
      count := count + 1;
      contents := [item] + contents;
    }

    /** Takes the top item off; on an empty stack reports failure and changes nothing. */
    method Pop() returns (ok: bool, item: Option<T>)
      requires Valid()
      modifies this
      ensures Valid()
      ensures ok <==> old(contents) != []
      ensures ok ==> item == Some(old(contents)[0]) && contents == old(contents)[1..]
      ensures !ok ==> item == None && contents == old(contents)
    {
      var empty := IsEmpty();
      if empty {
        return false, None;
      }
      item := Some(top.data);
      assert top.Valid();
      assert top.prior != null ==> top.prior.Valid() && |top.prior.items| > 0;
      top := top.prior;
      count := count - 1;
      contents := contents[1..];
      ok := true;
    }

    /** The most recently pushed item, or None on an empty stack. */
    method GetTopItem() returns (item: Option<T>)
      requires Valid()
      ensures item.None? <==> contents == []
      ensures item.Some? ==> item.value == contents[0]
    {
      item := None;
      if top != null {
        item := Some(top.data);
      }
    }

    method Count() returns (n: nat)
      requires Valid()
      ensures n == |contents|
    {
      n := count;
    }

    method IsEmpty() returns (empty: bool)
      requires Valid()
      ensures empty <==> contents == []
    {
      empty := count == 0;
    }
  }

  /** Pushing a sequence and popping everything gives it back in reverse; a further pop fails. */
  method PushAllPopAll<T>(items: seq<T>) returns (popped: seq<T>, lastPop: bool)
    ensures |popped| == |items|
    ensures forall j :: 0 <= j < |items| ==> popped[j] == items[|items| - 1 - j]
    ensures !lastPop
  {
    var s := new Stack<T>();
    var i := 0;
    while i < |items|
      invariant 0 <= i <= |items|
      invariant s.Valid() && |s.contents| == i
      invariant forall j :: 0 <= j < i ==> s.contents[j] == items[i - 1 - j]
    {
      s.Push(items[i]);
      i := i + 1;
    }
    popped := [];
    while i > 0
      invariant 0 <= i <= |items|
      invariant s.Valid() && |s.contents| == i
      invariant forall j :: 0 <= j < i ==> s.contents[j] == items[i - 1 - j]
      invariant |popped| == |items| - i
      invariant forall j :: 0 <= j < |popped| ==> popped[j] == items[|items| - 1 - j]
    {
      var ok, item := s.Pop();
      popped := popped + [item.value];
      i := i - 1;
    }
    var ok, item := s.Pop();
    lastPop := ok;
  }
}
