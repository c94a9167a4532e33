/** The singly linked lists of usb.c (`struct usb_device_list`, `struct usb_partition_list`):
    a chain of cells, each holding an item pointer and a `next` pointer. A new list is one zeroed
    cell whose item pointer is NULL; the first item is stored in that cell, later ones in cells
    appended at the tail. Both lists share this code, so it is written once, generically. */
module LinkedList {

  datatype Option<T> = None | Some(value: T)

  /** One cell: the item (None for the NULL pointer of an empty head) and the next cell. */
  class Node<T> {
    var item: Option<T>
    var next: Node?<T>

    /** `usb_device_list_new` / `usb_partition_list_new`: a zero-filled cell. */
    constructor ()
      ensures item == None && next == null
    {
      item := None;
      next := null;
    }
  }

  /** A list, reached through its head cell. `nodes` are the cells in chain order and
      `contents` the items they hold. */
  class List<T> {
    var head: Node<T>
    ghost var nodes: seq<Node<T>>
    ghost var contents: seq<T>
    ghost var Repr: set<object>

    ghost predicate Valid()
      reads this, Repr
    {
      && this in Repr
      && |nodes| == (if contents == [] then 1 else |contents|)
      && (forall i :: 0 <= i < |nodes| ==> nodes[i] in Repr)
      && (forall i, j :: 0 <= i < j < |nodes| ==> nodes[i] != nodes[j])
      && nodes[0] == head
      && (forall i :: 0 <= i < |nodes| - 1 ==> nodes[i].next == nodes[i + 1])
      && (forall i :: 0 <= i < |nodes| - 1 ==> nodes[i].next != null)
      && nodes[|nodes| - 1].next == null
      && (contents == [] ==> head.item == None)
      && (forall i :: 0 <= i < |contents| ==> nodes[i].item == Some(contents[i]))
    }

    /** A new, empty list: one zeroed head cell. */
    constructor ()
      ensures Valid() && fresh(Repr)
      ensures contents == []
    {
      var cell := new Node();
      head := cell;
      nodes := [cell];
      contents := [];
      Repr := {this, cell};
    }

    /** `usb_device_list_add` / `usb_partition_list_add`: an empty head cell takes the item;
        otherwise the chain is walked to its last cell and a new cell holding the item is linked
        after it. Either way the item ends up last and the earlier items are untouched. */
    method Add(x: T)
      requires Valid()
      modifies Repr
      ensures Valid() && fresh(Repr - old(Repr))
      ensures contents == old(contents) + [x]
      ensures head == old(head)
    {
      if !head.item.Some? {
        head.item := Some(x);
        contents := [x];
      } else {
        var last := head;
        ghost var k := 0;
        while last.next != null
          invariant 0 <= k < |nodes| && last == nodes[k]
          invariant forall i :: 0 <= i < |nodes| - 1 ==> nodes[i].next == nodes[i + 1]
          invariant forall i :: 0 <= i < |nodes| - 1 ==> nodes[i].next != null
          decreases |nodes| - k
        {
          last := last.next;
          k := k + 1;
        }
        assert k == |nodes| - 1;
        var cell := new Node();
        last.next := cell;
        cell.item := Some(x);
        nodes := nodes + [cell];
        contents := contents + [x];
        Repr := Repr + {cell};
      }
    }

    /** `usb_device_list_size`: walks the cells while there is a cell holding an item, counting
        them; the count is the number of items. */
    method Size() returns (n: nat)
      requires Valid()
      ensures n == |contents|
    {
      n := 0;
      var cell: Node?<T> := head;
      while cell != null && cell.item.Some?
        invariant n <= |nodes|
        invariant n < |nodes| ==> cell == nodes[n]
        invariant n == |nodes| ==> cell == null
        invariant contents == [] ==> n == 0
        decreases |nodes| - n
      {
        n := n + 1;
        cell := cell.next;
      }
    }
  
    /** The items, read off the cells in chain order. */
    method Items() returns (xs: seq<T>)
      requires Valid()
      ensures xs == contents
    {
      xs := [];
      var cell: Node?<T> := head;
      while cell != null && cell.item.Some?
        invariant |xs| <= |nodes|
        invariant |xs| < |nodes| ==> cell == nodes[|xs|]
        invariant |xs| == |nodes| ==> cell == null
        invariant contents == [] ==> xs == []
        invariant xs == contents[..|xs|]
        decreases |nodes| - |xs|
      {
        xs := xs + [cell.item.value];
        cell := cell.next;
      }
      assert |xs| == |contents|;
    }
  }
}
