/** The singly linked list of `415640/ll.c`: allocated segments, collected per transaction and handed to the
    shared list on commit. */
module SegmentList {

  type Data = int  // a pointer to a segment

  const NULL: Data := 0

  class Node {
    const data: Data
    var next: Node?

    constructor (data: Data)
      ensures this.data == data && next == null
    {
      this.data := data;
      next := null;
    }
  }

  /** The node at position `j`, or null past the end. */
  function At(nodes: seq<Node>, j: nat): Node? {
    if j < |nodes| then nodes[j] else null
  }

  function Last(nodes: seq<Node>): Node? {
    if |nodes| == 0 then null else nodes[|nodes| - 1]
  }

  /** The nodes are linked in order, each once. */
  ghost predicate Linked(nodes: seq<Node>)
    reads nodes`next
  {
    && (forall j {:trigger nodes[j].next} :: 0 <= j < |nodes| ==> nodes[j].next == At(nodes, j + 1))
    && (forall i, j :: 0 <= i < j < |nodes| ==> nodes[i] != nodes[j])
  }

  /** `a` and `b` joined: each linked, and the last node of `a` linked to the first of `b`. */
  lemma JoinIsLinked(a: seq<Node>, b: seq<Node>)
    requires |a| > 0 && Linked(b)
    requires forall j {:trigger a[j].next} :: 0 <= j < |a| ==> a[j].next == if j + 1 < |a| then a[j + 1] else At(b, 0)
    requires forall i, j :: 0 <= i < j < |a| ==> a[i] != a[j]
    requires forall n :: n in a ==> n !in b
    ensures Linked(a + b)
  {
    var all := a + b;
    forall j {:trigger all[j].next} | 0 <= j < |all| ensures all[j].next == At(all, j + 1) {
      if j < |a| {
        assert all[j] == a[j] && a[j].next == if j + 1 < |a| then a[j + 1] else At(b, 0);
      } else {
        assert all[j] == b[j - |a|] && b[j - |a|].next == At(b, j - |a| + 1);
      }
    }
    forall i, j | 0 <= i < j < |all| ensures all[i] != all[j] {
      if i < |a| <= j {
        assert a[i] in a && b[j - |a|] in b;
      }
    }
  }

  /** Without node `j`, once the node before it links to the one behind it. */
  lemma CutIsLinked(nodes: seq<Node>, j: nat)
    requires j < |nodes|
    requires forall i {:trigger nodes[i].next} :: 0 <= i < |nodes| && i != j ==>
      nodes[i].next == At(nodes, if i + 1 == j then j + 1 else i + 1)
    requires forall i, i' :: 0 <= i < i' < |nodes| ==> nodes[i] != nodes[i']
    ensures Linked(nodes[..j] + nodes[j + 1..])
  {
    var rest := nodes[..j] + nodes[j + 1..];
    forall i {:trigger rest[i].next} | 0 <= i < |rest| ensures rest[i].next == At(rest, i + 1) {
      var k := if i < j then i else i + 1;
      assert rest[i] == nodes[k] && nodes[k].next == At(nodes, if k + 1 == j then j + 1 else k + 1);
    }
  }

  ghost function DataOf(nodes: seq<Node>): (d: seq<Data>)
    ensures |d| == |nodes| && forall j :: 0 <= j < |nodes| ==> d[j] == nodes[j].data
  {
    seq(|nodes|, j requires 0 <= j < |nodes| => nodes[j].data)
  }

  /** The position of the first match, or the length. */
  ghost function FirstMatch(d: seq<Data>, matches: Data -> bool): (p: nat)
    ensures p <= |d| && (p < |d| ==> matches(d[p]))
    ensures forall j :: 0 <= j < p ==> !matches(d[j])
  {
    if |d| == 0 || matches(d[0]) then 0 else 1 + FirstMatch(d[1..], matches)
  }

  /** The segments that `ll_destroy_nested` passes to the destructor. */
  ghost function NonNull(d: seq<Data>): seq<Data> {
    if |d| == 0 then []
    else NonNull(d[..|d| - 1]) + if d[|d| - 1] != NULL then [d[|d| - 1]] else []
  }

  /** That is, every segment as often as it is in the list. */
  lemma {:induction false} NonNullCounts(d: seq<Data>, x: Data)
    ensures multiset(NonNull(d))[x] == if x == NULL then 0 else multiset(d)[x]
  {
    if |d| > 0 {
      NonNullCounts(d[..|d| - 1], x);
      assert d == d[..|d| - 1] + [d[|d| - 1]];
    }
  }

  /** And in the order of the list. */
  lemma {:induction false} NonNullJoins(a: seq<Data>, b: seq<Data>)
    ensures NonNull(a + b) == NonNull(a) + NonNull(b)
  {
    if |b| == 0 {
      assert a + b == a;
    } else {
      NonNullJoins(a, b[..|b| - 1]);
      assert (a + b)[..|a + b| - 1] == a + b[..|b| - 1];
    }
  }

  class List {
    var head: Node?
    var tail: Node?
    var size: nat
    ghost var nodes: seq<Node>

    ghost predicate Valid()
      reads this, nodes`next
    {
      head == At(nodes, 0) && tail == Last(nodes) && size == |nodes| && Linked(nodes)
    }

    ghost function Contents(): seq<Data>
      reads this
    {
      DataOf(nodes)
    }

    /** `ll_init`. */
    constructor ()
      ensures Valid() && Contents() == []
    {
      head, tail, size, nodes := null, null, 0, [];
    }

    method Clear()
      modifies this
      ensures Valid() && nodes == []
    {
      head, tail, size, nodes := null, null, 0, [];
    }

    /** `ll_append`. */
    method Append(data: Data)
      requires Valid()
      modifies this, nodes`next
      ensures Valid() && Contents() == old(Contents()) + [data]
      ensures exists n :: nodes == old(nodes) + [n] && fresh(n)
    {
      var newNode := new Node(data);
      if head == null {
        head := newNode;
        tail := newNode;
      } else {
        tail.next := newNode;
        tail := newNode;
      }
      size := size + 1;
      nodes := nodes + [newNode];
    }

    /** `ll_concat_safe`: appends all of `other` in constant time and leaves it empty; a list is not appended
        to itself. */
    method Concat(other: List) returns (ok: bool)
      requires Valid() && other.Valid() && (this != other ==> forall n :: n in nodes ==> n !in other.nodes)
      modifies this, other, nodes`next
      ensures Valid() && other.Valid() && (ok <==> this != other)
      ensures if ok then nodes == old(nodes) + old(other.nodes) && other.nodes == [] else nodes == old(nodes)
      ensures ok ==> Contents() == old(Contents()) + old(other.Contents()) && other.Contents() == []
    {
      if this == other {
        return false;
      }
      if other.head == null {
        assert nodes + other.nodes == nodes;
        return true;
      }
      Take(other);
      other.Clear();
      ok := true;
    }

    /** Links the nodes of `other` behind this list's. */
    method Take(other: List)
      requires Valid() && other.Valid() && this != other && other.head != null
      requires forall n :: n in nodes ==> n !in other.nodes
      modifies this, nodes`next
      ensures Valid() && nodes == old(nodes) + other.nodes
    {
      if head == null {
        assert nodes + other.nodes == other.nodes;
        head := other.head;
        tail := other.tail;
        size := other.size;
      } else {
        assert tail == nodes[|nodes| - 1] && tail !in other.nodes;
        tail.next := other.head;
        assert Linked(other.nodes);
        tail := other.tail;
        size := size + other.size;
        JoinIsLinked(nodes, other.nodes);
      }
      nodes := nodes + other.nodes;
    }

    /** Unlinks `current`, the node behind `prev` or the first one. */
    method Unlink(prev: Node?, current: Node, ghost j: nat)
      requires Valid() && j < |nodes| && current == nodes[j] && if j == 0 then prev == null else prev == nodes[j - 1]
      modifies this, nodes`next
      ensures Valid() && nodes == old(nodes)[..j] + old(nodes)[j + 1..]
    {
      assert current.next == At(nodes, j + 1);
      if prev == null {
        head := current.next;
        if head == null {
          tail := null;
        }
      } else {
        prev.next := current.next;
        if current == tail {
          tail := prev;
        }
      }
      size := size - 1;
      CutIsLinked(nodes, j);
      nodes := nodes[..j] + nodes[j + 1..];
    }

    /** `ll_remove` and `ll_remove_cmp`: unlinks the first node whose data matches, if there is one. */
    method RemoveFirst(matches: Data -> bool) returns (removed: bool)
      requires Valid()
      modifies this, nodes`next
      ensures Valid()
      ensures var p := FirstMatch(old(Contents()), matches);
        && (removed <==> p < |old(nodes)|)
        && nodes == if removed then old(nodes)[..p] + old(nodes)[p + 1..] else old(nodes)
    {
      var current, prev := head, null;
      ghost var j := 0;
      while current != null
        invariant j <= |nodes| && current == At(nodes, j) && (if j == 0 then prev == null else prev == nodes[j - 1])
        invariant Valid() && nodes == old(nodes)
        invariant forall i :: 0 <= i < j ==> !matches(nodes[i].data)
        decreases |nodes| - j
      {
        if matches(current.data) {
          assert FirstMatch(Contents(), matches) == j;
          Unlink(prev, current, j);
          return true;
        }
        prev := current;
        current := current.next;
        j := j + 1;
      }
      removed := false;
    }

    /** `ll_destroy_nested`: frees every node once, front to back, and calls the destructor once for every
        segment; `freed` and `destroyed` list these calls. */
    method DestroyNested() returns (ghost freed: seq<Node>, ghost destroyed: seq<Data>)
      requires Valid()
      modifies this
      ensures Valid() && Contents() == []
      ensures freed == old(nodes) && destroyed == NonNull(old(Contents()))
    {
      var current := head;
      ghost var j := 0;
      freed, destroyed := [], [];
      while current != null
        invariant j <= |nodes| && current == At(nodes, j) && freed == nodes[..j]
        invariant destroyed == NonNull(Contents()[..j])
        decreases |nodes| - j
      {
        assert Contents()[..j + 1][..j] == Contents()[..j];
        var next := current.next;
        if current.data != NULL {
          destroyed := destroyed + [current.data];
        }
        freed := freed + [current];
        current := next;
        j := j + 1;
      }
      assert Contents()[..j] == Contents();
      Clear();
    }
  }
}
