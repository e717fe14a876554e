/** The linked message queue of the sockets, with a head and a tail pointer. */
module FifoQueue {
  class Entry<T> {
    const value: T
    var next: Entry?<T>

    constructor (value: T)
      ensures this.value == value && next == null
    {
      this.value := value;
      next := null;
    }
  }

  class Queue<T> {
    var head: Entry?<T>
    var tail: Entry?<T>
    ghost var entries: seq<Entry<T>>

    /** head and tail are the ends of a chain without repetitions. */
    ghost predicate Valid()
      reads this, entries
    {
      && (entries == [] ==> head == null && tail == null)
      && (entries != [] ==> head == entries[0] && tail == entries[|entries| - 1] && tail.next == null)
      && (forall i :: 0 <= i < |entries| - 1 ==> entries[i].next == entries[i + 1])
      && (forall i, j :: 0 <= i < j < |entries| ==> entries[i] != entries[j])
    }

    ghost function Contents(): (s: seq<T>)
      reads this, entries
      ensures |s| == |entries|
    {
      seq(|entries|, i requires 0 <= i < |entries| reads this, entries => entries[i].value)
    }

    constructor ()
      ensures Valid() && Contents() == [] && entries == []
    {
      head, tail := null, null;
      entries := [];
    }

    /** queue_pop: the caller has seen that the queue is not empty. */
    method Pop() returns (value: T)
      requires Valid() && Contents() != []
      modifies this
      ensures Valid() && old(Contents()) == [value] + Contents()
      ensures entries == old(entries)[1..]
    {
      var entry := head;
      if head != tail {
        head := entry.next;
      } else {
        assert |entries| == 1;
        head, tail := null, null;
      }
      value := entry.value;
      entries := entries[1..];
    }

    method Push(value: T)
      requires Valid()
      modifies this, entries
      ensures Valid() && Contents() == old(Contents()) + [value]
      ensures |entries| == |old(entries)| + 1 && old(entries) == entries[..|entries| - 1]
      ensures fresh(entries[|entries| - 1])
    {
      var entry := new Entry(value);
      if head != null && tail != null {
        tail.next := entry;
        tail := entry;
      } else {
        head, tail := entry, entry;
      }
      entries := entries + [entry];
    }

    /** The pollers' and readers' test. */
    predicate Empty()
      requires Valid()
      reads this, entries
      ensures Empty() <==> Contents() == []
    {
      head == null
    }
  }
}
