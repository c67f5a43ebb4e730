/** The doubly linked list of allocated segments of `reference/tm.c`. */
module ReferenceList {

  class SegmentNode {
    var prev: SegmentNode?
    var next: SegmentNode?

    constructor ()
      ensures prev == null && next == null
    {
      prev, next := null, null;
    }
  }

  /** The node at position `j`, or null outside the list. */
  function At(nodes: seq<SegmentNode>, j: int): SegmentNode? {
    if 0 <= j < |nodes| then nodes[j] else null
  }

  /** `prev` and `next` follow the sequence in both directions, and no node appears twice. */
  ghost predicate Linked(nodes: seq<SegmentNode>)
    reads nodes
  {
    && (forall j {:trigger nodes[j].next} :: 0 <= j < |nodes| ==> nodes[j].next == At(nodes, j + 1))
    && (forall j {:trigger nodes[j].prev} :: 0 <= j < |nodes| ==> nodes[j].prev == At(nodes, j - 1))
    && (forall i, j :: 0 <= i < j < |nodes| ==> nodes[i] != nodes[j])
  }

  /** In a linked list the two pointers are inverse to each other, and `next` never leads back. */
  lemma PointersAreInverse(nodes: seq<SegmentNode>, j: nat)
    requires j < |nodes| && Linked(nodes)
    ensures nodes[j].next != null ==> nodes[j].next.prev == nodes[j]
    ensures nodes[j].prev != null ==> nodes[j].prev.next == nodes[j]
    ensures forall i :: 0 <= i <= j ==> nodes[j].next != nodes[i]
  {
    if j + 1 < |nodes| {
      assert nodes[j + 1].prev == At(nodes, j);
    }
    if j > 0 {
      assert nodes[j - 1].next == At(nodes, j);
    }
  }

  /** A node in front of a list, linked in both directions. */
  lemma ConsIsLinked(sn: SegmentNode, nodes: seq<SegmentNode>)
    requires sn !in nodes && sn.prev == null && sn.next == At(nodes, 0)
    requires forall j {:trigger nodes[j].next} :: 0 <= j < |nodes| ==> nodes[j].next == At(nodes, j + 1)
    requires forall j {:trigger nodes[j].prev} :: 0 <= j < |nodes| ==>
      nodes[j].prev == if j == 0 then sn else nodes[j - 1]
    requires forall i, j :: 0 <= i < j < |nodes| ==> nodes[i] != nodes[j]
    ensures Linked([sn] + nodes)
  {
    var all := [sn] + nodes;
    forall j {:trigger all[j].next} | 0 <= j < |all| ensures all[j].next == At(all, j + 1) {
      assert j > 0 ==> all[j] == nodes[j - 1] && nodes[j - 1].next == At(nodes, j);
    }
    forall j {:trigger all[j].prev} | 0 <= j < |all| ensures all[j].prev == At(all, j - 1) {
      assert j > 0 ==> all[j] == nodes[j - 1] && nodes[j - 1].prev == if j - 1 == 0 then sn else nodes[j - 2];
    }
  }

  /** Without node `j`, once its neighbours link to each other. */
  lemma CutIsLinked(nodes: seq<SegmentNode>, j: nat)
    requires j < |nodes|
    requires forall i {:trigger nodes[i].next} :: 0 <= i < |nodes| && i != j ==>
      nodes[i].next == At(nodes, if i + 1 == j then j + 1 else i + 1)
    requires forall i {:trigger nodes[i].prev} :: 0 <= i < |nodes| && i != j ==>
      nodes[i].prev == At(nodes, if i == j + 1 then j - 1 else i - 1)
    requires forall i, i' :: 0 <= i < i' < |nodes| ==> nodes[i] != nodes[i']
    ensures Linked(nodes[..j] + nodes[j + 1..])
  {
    var rest := nodes[..j] + nodes[j + 1..];
    forall i {:trigger rest[i].next} | 0 <= i < |rest| ensures rest[i].next == At(rest, i + 1) {
      var k := if i < j then i else i + 1;
      assert rest[i] == nodes[k] && nodes[k].next == At(nodes, if k + 1 == j then j + 1 else k + 1);
    }
    forall i {:trigger rest[i].prev} | 0 <= i < |rest| ensures rest[i].prev == At(rest, i - 1) {
      var k := if i < j then i else i + 1;
      assert rest[i] == nodes[k] && nodes[k].prev == At(nodes, if k == j + 1 then j - 1 else k - 1);
    }
  }

  class Region {
    var allocs: SegmentNode?
    ghost var nodes: seq<SegmentNode>
    ghost var issued: set<SegmentNode>  // by `tm_alloc`, so far
    ghost var freed: set<SegmentNode>      // by `tm_free` or `tm_destroy`, so far

    /** The list holds what was issued and not freed. */
    ghost predicate Valid()
      reads this, nodes
    {
      && allocs == At(nodes, 0) && Linked(nodes) && freed <= issued
      && (forall n :: n in nodes ==> n in issued && n !in freed)
      && (forall n :: n in issued && n !in freed ==> n in nodes)
    }

    constructor ()
      ensures Valid() && nodes == [] && issued == {} && freed == {}
    {
      allocs, nodes, issued, freed := null, [], {}, {};
    }

    /** `tm_alloc`: the new segment becomes the head of the list. */
    method Alloc() returns (sn: SegmentNode)
      requires Valid()
      modifies this, nodes
      ensures Valid() && fresh(sn) && nodes == [sn] + old(nodes)
      ensures issued == old(issued) + {sn} && freed == old(freed)
    {
      sn := new SegmentNode();
      sn.prev := null;
      sn.next := allocs;
      if sn.next != null {
        sn.next.prev := sn;
      }
      allocs := sn;
      ConsIsLinked(sn, nodes);
      nodes, issued := [sn] + nodes, issued + {sn};
    }

    /** `tm_free` of a live segment. */
    method Free(sn: SegmentNode)
      requires Valid() && sn in nodes
      modifies this, nodes
      ensures Valid() && issued == old(issued) && freed == old(freed) + {sn}
      ensures exists j :: 0 <= j < |old(nodes)| && old(nodes)[j] == sn && nodes == old(nodes)[..j] + old(nodes)[j + 1..]
    {
      ghost var j :| 0 <= j < |nodes| && nodes[j] == sn;
      Unlink(sn, j);
      nodes, freed := nodes[..j] + nodes[j + 1..], freed + {sn};
    }

    method Unlink(sn: SegmentNode, ghost j: nat)
      requires allocs == At(nodes, 0) && Linked(nodes) && j < |nodes| && nodes[j] == sn
      modifies this`allocs, nodes
      ensures Linked(nodes[..j] + nodes[j + 1..]) && allocs == At(nodes[..j] + nodes[j + 1..], 0)
    {
      assert sn.prev == At(nodes, j - 1) && sn.next == At(nodes, j + 1);
      if sn.prev != null {
        sn.prev.next := sn.next;
      } else {
        allocs := sn.next;
      }
      if sn.next != null {
        sn.next.prev := sn.prev;
      }
      CutIsLinked(nodes, j);
    }

    /** `tm_destroy`: frees each live segment once, in list order; `order` lists the calls of `free`. */
    method Destroy() returns (ghost order: seq<SegmentNode>)
      requires Valid()
      modifies this
      ensures allocs == null && freed == issued == old(issued)
      ensures order == old(nodes) && forall n :: n in order <==> n in old(issued) && n !in old(freed)
    {
      order := [];
      ghost var j := 0;
      while allocs != null
        invariant j <= |nodes| && allocs == At(nodes, j) && order == nodes[..j]
        invariant nodes == old(nodes) && issued == old(issued)
        invariant forall n :: n in freed <==> n in old(freed) || n in order
        decreases |nodes| - j
      {
        var tail := allocs.next;
        order, freed := order + [allocs], freed + {allocs};
        allocs := tail;
        j := j + 1;
      }
      assert nodes[..j] == nodes;
    }
  }
}
