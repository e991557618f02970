/** The packet queue of src/queue.c: a singly linked heap list with head and tail pointers. */
module Fifo {
  import opened Bytes

  class Item {
    const data: seq<byte>
    var next: Item?

    /** malloc leaves `next` uninitialised, so the constructor says nothing about it. */
    constructor (data: seq<byte>)
      ensures this.data == data
    {
      this.data := data;
    }
  }

  ghost function Payloads(items: seq<Item>): seq<seq<byte>> {
    seq(|items|, i requires 0 <= i < |items| => items[i].data)
  }

  class Queue {
    var head: Item?
    var tail: Item?
    // a uint16_t
    var depth: nat
    ghost var items: seq<Item>

    /** Nothing is assumed about the last item's `next`. */
    ghost predicate Valid()
      reads this, items
    {
      && (items == [] ==> head == null && tail == null)
      && (items != [] ==> head == items[0] && tail == items[|items| - 1])
      && (forall i :: 0 <= i < |items| - 1 ==> items[i].next == items[i + 1])
      && (forall i, j :: 0 <= i < j < |items| ==> items[i] != items[j])
      && depth == |items| % 0x1_0000
    }

    ghost function Contents(): seq<seq<byte>>
      reads this
    {
      Payloads(items)
    }

    constructor ()
      ensures Valid() && items == [] && Contents() == []
    {
      head, tail, depth, items := null, null, 0, [];
    }

    /** queue_push, with the copy of the payload it makes. */
    method Push(data: seq<byte>)
      requires Valid()
      modifies this, items
      ensures Valid() && |items| == |old(items)| + 1
      ensures items[..|old(items)|] == old(items) && fresh(items[|old(items)|])
      ensures Contents() == old(Contents()) + [data]
    {
      var item := new Item(data);
      if head == null && tail == null {
        head, tail := item, item;
      } else {
        tail.next := item;
        tail := item;
      }
      items := items + [item];
      depth := (depth + 1) % 0x1_0000;
    }

    /** The first critical section of send_packet. */
    method Peek() returns (item: Item?)
      requires Valid()
      ensures item == null <==> Contents() == []
      ensures item != null ==> item == head && item.data == Contents()[0]
    {
      item := head;
    }

    /** The second critical section of send_packet: unlinks the head. */
    method Pop()
      requires Valid() && head != null
      modifies this
      ensures Valid() && items == old(items)[1..]
      ensures Contents() == old(Contents())[1..]
    {
      if head == tail {
        head, tail := null, null;
      } else {
        head := head.next;
      }
      items := items[1..];
      depth := (depth + 0xFFFF) % 0x1_0000;
    }
  }
}
