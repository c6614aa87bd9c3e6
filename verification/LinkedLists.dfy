/** The linked lists of utlist.h, described by the sequence of their nodes. */
module LinkedLists {
  import opened Common

  /** A list element: its payload never changes, its links do. The last three fields are those of a UT_hash_handle. */
  class Node<D> {
    const data: D
    var next: Node?<D>
    var prev: Node?<D>
    var hhNext: Node?<D>
    var hhPrev: Node?<D>
    var hashv: nat

    constructor (data: D)
      ensures this.data == data && next == null && prev == null
    {
      this.data := data;
      next, prev, hhNext, hhPrev, hashv := null, null, null, null, 0;
    }
  }

  /** The nodes `s[lo..hi]` still lead to their successors; the last node of all leads to `end`. */
  ghost predicate Links<D>(s: seq<Node<D>>, lo: int, hi: int, end: Node?<D>)
    reads s`next
  {
    forall i {:trigger s[i].next} :: 0 <= lo <= i < hi <= |s| ==> s[i].next == if i + 1 < |s| then s[i + 1] else end
  }

  ghost predicate BackLinks<D>(s: seq<Node<D>>)
    reads s`prev
  {
    forall i {:trigger s[i].prev} :: 0 < i < |s| ==> s[i].prev == s[i - 1]
  }

  /** The singly linked list of utlist.h. */
  ghost predicate SinglyLinked<D>(head: Node?<D>, s: seq<Node<D>>)
    reads s`next
  {
    if s == [] then head == null
    else head == s[0] && Distinct(s) && Links(s, 0, |s|, null)
  }

  /** The doubly linked list of utlist.h: NULL at the end, and the head's `prev` is the tail. */
  ghost predicate DoublyLinked<D>(head: Node?<D>, s: seq<Node<D>>)
    reads s
  {
    if s == [] then head == null
    else
      && head == s[0] && Distinct(s) && Links(s, 0, |s|, null) && BackLinks(s)
      && s[0].prev == s[|s| - 1]
  }

  /** The circular list of utlist.h. */
  ghost predicate Ring<D>(head: Node?<D>, s: seq<Node<D>>)
    reads s
  {
    if s == [] then head == null
    else
      && head == s[0] && Distinct(s) && Links(s, 0, |s|, s[0]) && BackLinks(s)
      && s[0].prev == s[|s| - 1]
  }

  /** The application order of a hash table: NULL at both ends. */
  ghost predicate NullEnded<D>(head: Node?<D>, tail: Node?<D>, s: seq<Node<D>>)
    reads s
  {
    if s == [] then head == null
    else
      && head == s[0] && tail == s[|s| - 1] && Distinct(s) && Links(s, 0, |s|, null) && BackLinks(s)
      && s[0].prev == null
  }

  // ----- DL_APPEND2 and DL_DELETE2

  /** Append a node that is not in the list. */
  method DlAppend<D>(head0: Node?<D>, add: Node<D>, ghost s: seq<Node<D>>) returns (head: Node<D>)
    requires DoublyLinked(head0, s) && add !in s
    modifies s, add
    ensures DoublyLinked(head, s + [add])
  {
    if head0 != null {
      head := head0;
      add.prev := head.prev;
      assert head.prev == s[|s| - 1];
      head.prev.next := add;
      head.prev := add;
      add.next := null;
    } else {
      head := add;
      head.prev := head;
      head.next := null;
    }
  }

  /** Unlink the node at position `i`. */
  method DlDelete<D>(head0: Node<D>, del: Node<D>, ghost s: seq<Node<D>>, ghost i: nat) returns (head: Node?<D>)
    requires DoublyLinked(head0, s) && i < |s| && del == s[i]
    modifies s
    ensures DoublyLinked(head, s[..i] + s[i + 1..])
  {
    ghost var t := s[..i] + s[i + 1..];
    assert s[i].prev == if i == 0 then s[|s| - 1] else s[i - 1];
    assert s[i].next == if i + 1 < |s| then s[i + 1] else null;
    head := head0;
    if del.prev == del {
      head := null;
    } else if del == head {
      del.next.prev := del.prev;
      head := del.next;
    } else {
      del.prev.next := del.next;
      if del.next != null {
        del.next.prev := del.prev;
      } else {
        head.prev := del.prev;
      }
    }
    forall k | 0 <= k < |t| ensures t[k].next == if k + 1 < |t| then t[k + 1] else null {
      var m := if k < i then k else k + 1;
      assert t[k] == s[m] && (k + 1 < |t| ==> t[k + 1] == s[if k + 1 < i then k + 1 else k + 2]);
    }
    forall k | 0 < k < |t| ensures t[k].prev == t[k - 1] {
      var m := if k < i then k else k + 1;
      assert t[k] == s[m] && t[k - 1] == s[if k - 1 < i then k - 1 else k];
    }
  }
}
