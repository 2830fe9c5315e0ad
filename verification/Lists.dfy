/** include/list.h: circular doubly linked lists threaded through the records they hold. */
module Lists {

  class Link {
    const owner: nat  // stands for container_of: which record this link is embedded in
    var next: Link?
    var prev: Link?

    constructor (owner: nat)
      ensures this.owner == owner && next == null && prev == null
    {
      this.owner := owner;
      next, prev := null, null;
    }
  }

  /** list_add: puts `item` behind `after`. */
  method ListAdd(item: Link, after: Link)
    requires after.next != null && item != after && item != after.next
    modifies item, after, after.next
    ensures after.next == item && item.prev == after && item.next == old(after.next)
    ensures old(after.next).prev == item
    ensures old(after.next) != after ==> after.prev == old(after.prev) && old(after.next).next == old(after.next.next)
  {
    after.next.prev := item;
    item.next := after.next;
    item.prev := after;
    after.next := item;
  }

  /** list_del: takes `item` out of whatever ring it is in. */
  method ListDel(item: Link)
    requires item.next != null && item.prev != null && item.prev != item && item.next != item
    modifies item, item.prev, item.next
    ensures item.next == null && item.prev == null
    ensures old(item.prev).next == old(item.next) && old(item.next).prev == old(item.prev)
    ensures old(item.prev) != old(item.next) ==>
              old(item.prev).prev == old(item.prev.prev) && old(item.next).next == old(item.next.next)
  {
    item.prev.next := item.next;
    item.next.prev := item.prev;
    item.next := null;
    item.prev := null;
  }

  class ListHeader {
    var items: int
    const head: Link
    ghost var nodes: seq<Link>

    /** The head and the nodes form one ring in both directions, and the count is right. */
    ghost predicate Valid()
      reads this, head, nodes
    {
      && items == |nodes| && head !in nodes
      && (forall i, j :: 0 <= i < j < |nodes| ==> nodes[i] != nodes[j])
      && head.next == (if nodes == [] then head else nodes[0])
      && head.prev == (if nodes == [] then head else nodes[|nodes| - 1])
      && (forall i {:trigger nodes[i].next} :: 0 <= i < |nodes| ==>
          nodes[i].next == if i + 1 < |nodes| then nodes[i + 1] else head)
      && (forall i {:trigger nodes[i].prev} :: 0 <= i < |nodes| ==>
          nodes[i].prev == if i > 0 then nodes[i - 1] else head)
    }

    /** init_list_header. */
    constructor ()
      ensures Valid() && nodes == [] && fresh(head)
    {
      items, nodes := 0, [];
      head := new Link(0);
      new;
      head.next := head;
      head.prev := head;
    }

    predicate Empty()
      reads this
    {
      items == 0
    }

    method AddTail(item: Link)
      requires Valid() && item != head && item !in nodes
      modifies this, head, nodes, item
      ensures Valid() && nodes == old(nodes) + [item]
    {
      ghost var was := nodes;
      ListAdd(item, head.prev);
      items := items + 1;
      nodes := nodes + [item];
    }

    method Pop() returns (item: Link)
      requires Valid() && nodes != []
      modifies this, head, nodes
      ensures Valid() && item == old(nodes)[0] && nodes == old(nodes)[1..]
      ensures item.next == null && item.prev == null
    {
      item := head.next;
      ListDel(item);
      items := items - 1;
      nodes := nodes[1..];
    }

    /** Takes out the node at position k. */
    method Remove(item: Link, ghost k: nat)
      requires Valid() && k < |nodes| && nodes[k] == item
      modifies this, head, nodes
      ensures Valid() && nodes == old(nodes)[..k] + old(nodes)[k + 1..]
      ensures item.next == null && item.prev == null
    {
      ListDel(item);
      items := items - 1;
      nodes := nodes[..k] + nodes[k + 1..];
    }
  }

  /** A list stays well-formed while none of its nodes is written. */
  twostate lemma Untouched(l: ListHeader)
    requires old(l.Valid()) && unchanged(l) && unchanged(l.head) && forall n :: n in l.nodes ==> unchanged(n)
    ensures l.Valid()
  {
    forall i | 0 <= i < |l.nodes| ensures unchanged(l.nodes[i]) { assert l.nodes[i] in l.nodes; }
  }
}
