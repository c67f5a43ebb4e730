/** The hash table of `415640/dict.c`: an array of chains of nodes. Nodes are never copied; growing the table
    relinks them in place. Keys stand for pointers, values for the pointers stored under them. */
module Dictionary {
  import Protocol

  type Key = int
  type Value = int

  const NULL: Value := 0

  /** `growth_factor`; the threshold 0.5 appears as the comparison `2 * count > length`, which is what the
      floating-point division decides for any two `int`s. */
  const GROWTH_FACTOR := 20

  class KeyNode {
    const key: Key
    var value: Value
    var next: KeyNode?

    constructor (key: Key)
      ensures this.key == key && value == NULL && next == null
    {
      this.key := key;
      value, next := NULL, null;
    }
  }

  // ---- chains and buckets

  /** The node at position `j` of a chain, or null past its end. */
  function At(chain: seq<KeyNode>, j: nat): KeyNode? {
    if j < |chain| then chain[j] else null
  }

  function Bucket(hash: Key -> nat, length: nat, key: Key): (i: nat)
    requires length > 0
    ensures i < length
  {
    hash(key) % length
  }

  /** `chains` holds exactly `nodes`, by key: chain `i` has the nodes of bucket `i`, each once. */
  ghost predicate Indexed(hash: Key -> nat, chains: seq<seq<KeyNode>>, nodes: map<Key, KeyNode>) {
    && |chains| > 0
    && (forall i, j :: 0 <= i < |chains| && 0 <= j < |chains[i]| ==>
          && chains[i][j].key in nodes && nodes[chains[i][j].key] == chains[i][j]
          && Bucket(hash, |chains|, chains[i][j].key) == i)
    && (forall i, j, j' :: 0 <= i < |chains| && 0 <= j < j' < |chains[i]| ==> chains[i][j] != chains[i][j'])
    && (forall k :: k in nodes ==> nodes[k].key == k && nodes[k] in chains[Bucket(hash, |chains|, k)])
  }

  ghost predicate Within(chains: seq<seq<KeyNode>>, all: set<KeyNode>) {
    forall i, n :: 0 <= i < |chains| && n in chains[i] ==> n in all
  }

  /** The nodes of a chain are linked in order. */
  ghost predicate Linked(chain: seq<KeyNode>)
    reads chain`next
  {
    forall j {:trigger chain[j].next} :: 0 <= j < |chain| ==> chain[j].next == At(chain, j + 1)
  }

  /** `n` empty buckets. */
  ghost function Empty(n: nat): (chains: seq<seq<KeyNode>>)
    ensures |chains| == n && forall i :: 0 <= i < n ==> chains[i] == []
  {
    seq(n, _ => [])
  }

  /** The nodes' value slots. */
  ghost predicate Stores(nodes: map<Key, KeyNode>, repr: set<KeyNode>, contents: map<Key, Value>)
    requires forall k :: k in nodes ==> k in contents
    reads repr`value
  {
    forall k :: k in nodes ==> nodes[k] in repr && nodes[k].value == contents[k]
  }

  lemma StoresGrows(nodes: map<Key, KeyNode>, nodes': map<Key, KeyNode>, repr: set<KeyNode>, contents: map<Key, Value>,
                    contents': map<Key, Value>, k2: KeyNode)
    requires (forall k :: k in contents <==> k in nodes)
    requires Stores(nodes, repr, contents) && k2.key !in nodes && k2.value == NULL
    requires nodes' == nodes[k2.key := k2] && contents' == contents[k2.key := NULL]
    ensures forall k :: k in contents' <==> k in nodes'
    ensures Stores(nodes', repr + {k2}, contents') && |contents'| == |contents| + 1
  {}

  lemma MovedWithin(hash: Key -> nat, chains: seq<seq<KeyNode>>, all: map<Key, KeyNode>, everyone: set<KeyNode>)
    requires Indexed(hash, chains, all) && forall k :: k in all ==> all[k] in everyone
    ensures Within(chains, everyone)
  {}

  lemma NodesAreWithin(hash: Key -> nat, chains: seq<seq<KeyNode>>, nodes: map<Key, KeyNode>, repr: set<KeyNode>)
    requires Indexed(hash, chains, nodes) && Within(chains, repr)
    ensures forall k :: k in nodes ==> nodes[k] in repr
  {}

  /** The table's chains in the heap. */
  ghost predicate Threaded(table: array<KeyNode?>, chains: seq<seq<KeyNode>>, repr: set<KeyNode>)
    reads table, repr`next
  {
    && |chains| == table.Length && Within(chains, repr)
    && (forall i :: 0 <= i < |chains| ==> table[i] == At(chains[i], 0))
    && forall i :: 0 <= i < |chains| ==> Linked(chains[i])
  }

  /** `k2` becomes the head of chain `n`; an empty bucket leaves its link alone. */
  method PutFirst(table: array<KeyNode?>, ghost chains: seq<seq<KeyNode>>, ghost repr: set<KeyNode>, k2: KeyNode,
                  n: nat)
    requires Threaded(table, chains, repr) && n < |chains| && k2 !in repr && k2.next == null
    modifies table, k2`next
    ensures Threaded(table, chains[n := [k2] + chains[n]], repr + {k2})
  {
    if table[n] == null {
      table[n] := k2;
    } else {
      k2.next := table[n];
      table[n] := k2;
    }
    ghost var chains' := chains[n := [k2] + chains[n]];
    assert Linked(chains[n]);
    assert Linked(chains'[n]);
    forall i | 0 <= i < |chains| && i != n ensures Linked(chains'[i]) {
      assert Linked(chains[i]);
    }
  }

  /** Two maps with the same nodes index the same chains. */
  lemma IndexDepends(hash: Key -> nat, chains: seq<seq<KeyNode>>, nodes: map<Key, KeyNode>, nodes': map<Key, KeyNode>)
    requires Indexed(hash, chains, nodes)
    requires forall k :: k in nodes ==> k in nodes' && nodes'[k] == nodes[k]
    requires forall k :: k in nodes' ==> k in nodes
    ensures Indexed(hash, chains, nodes')
  {}

  /** Every node of `repr` is in `nodes`. */
  ghost predicate Owned(nodes: map<Key, KeyNode>, repr: set<KeyNode>) {
    forall n :: n in repr ==> n.key in nodes && nodes[n.key] == n
  }

  lemma IndexGrows(hash: Key -> nat, chains: seq<seq<KeyNode>>, nodes: map<Key,
                   KeyNode>, repr: set<KeyNode>, k: KeyNode, n: nat)
    requires Indexed(hash, chains, nodes) && Owned(nodes, repr) && k.key !in nodes && n == Bucket(hash, |chains|, k.key)
    ensures Indexed(hash, chains[n := [k] + chains[n]], nodes[k.key := k]) && Owned(nodes[k.key := k], repr + {k})
    ensures k !in repr
  {
    var chains', nodes' := chains[n := [k] + chains[n]], nodes[k.key := k];
    forall key | key in nodes' ensures nodes'[key].key == key && nodes'[key] in chains'[Bucket(hash, |chains'|, key)] {
      if key == k.key {
        assert chains'[n][0] == k;
      } else {
        var i := Bucket(hash, |chains|, key);
        var j :| 0 <= j < |chains[i]| && chains[i][j] == nodes[key];
        assert i == n ==> chains'[n][j + 1] == nodes[key];
      }
    }
  }

  /** The node of `key` comes before position `j` of bucket `i`. */
  ghost predicate Before(hash: Key -> nat, chains: seq<seq<KeyNode>>, all: map<Key, KeyNode>, key: Key, i: nat, j: nat)
    requires |chains| > 0 && (i < |chains| ==> j <= |chains[i]|) && key in all
  {
    var b := Bucket(hash, |chains|, key);
    b < i || (b == i && all[key] in chains[i][..j])
  }

  /** `moved` is what `dic_resize` has moved after all of the buckets before `i` and `j` nodes of bucket `i`. */
  ghost predicate HasMoved(hash: Key -> nat, before: seq<seq<KeyNode>>, all: map<Key, KeyNode>, moved: map<Key,
                           KeyNode>,
                           i: nat, j: nat)
    requires |before| > 0 && (i < |before| ==> j <= |before[i]|)
  {
    && (forall k :: k in moved ==> k in all && moved[k] == all[k])
    && (forall k :: k in all ==> (k in moved <==> Before(hash, before, all, k, i, j)))
  }

  /** `nodes` with the nodes of a chain added in order. */
  ghost function Added(nodes: map<Key, KeyNode>, chain: seq<KeyNode>): map<Key, KeyNode> {
    if |chain| == 0 then nodes
    else Added(nodes, chain[..|chain| - 1])[chain[|chain| - 1].key := chain[|chain| - 1]]
  }

  /** The chain's keys are new to `nodes`, and different. */
  ghost predicate NewTo(nodes: map<Key, KeyNode>, chain: seq<KeyNode>) {
    && (forall j :: 0 <= j < |chain| ==> chain[j].key !in nodes)
    && (forall j, j' :: 0 <= j < j' < |chain| ==> chain[j].key != chain[j'].key)
  }

  lemma {:induction false} AddedKeys(nodes: map<Key, KeyNode>, chain: seq<KeyNode>, j: nat, k: Key)
    requires j <= |chain|
    ensures k in Added(nodes, chain[..j]) <==> k in nodes || exists j' :: 0 <= j' < j && chain[j'].key == k
  {
    if j > 0 {
      AddedKeys(nodes, chain, j - 1, k);
      assert chain[..j][..j - 1] == chain[..j - 1];
    }
  }

  lemma NextIsNew(nodes: map<Key, KeyNode>, chain: seq<KeyNode>, j: nat)
    requires NewTo(nodes, chain) && j < |chain|
    ensures chain[j].key !in Added(nodes, chain[..j])
    ensures Added(nodes, chain[..j + 1]) == Added(nodes, chain[..j])[chain[j].key := chain[j]]
  {
    AddedKeys(nodes, chain, j, chain[j].key);
    assert chain[..j + 1][..j] == chain[..j];
  }

  lemma BucketIsNew(hash: Key -> nat, before: seq<seq<KeyNode>>, all: map<Key, KeyNode>, moved: map<Key,
                    KeyNode>, i: nat)
    requires Indexed(hash, before, all) && i < |before| && HasMoved(hash, before, all, moved, i, 0)
    ensures NewTo(moved, before[i])
  {
    forall j | 0 <= j < |before[i]| ensures before[i][j].key !in moved {
      assert !Before(hash, before, all, before[i][j].key, i, 0);
    }
    forall j, j' | 0 <= j < j' < |before[i]| ensures before[i][j].key != before[i][j'].key {
      assert all[before[i][j].key] == before[i][j] && all[before[i][j'].key] == before[i][j'];
    }
  }

  lemma {:induction false} MovesChain(hash: Key -> nat, before: seq<seq<KeyNode>>, all: map<Key,
                                      KeyNode>, moved: map<Key, KeyNode>,
                                      i: nat, j: nat)
    requires Indexed(hash, before, all) && i < |before| && j <= |before[i]| && HasMoved(hash, before, all, moved, i, 0)
    ensures HasMoved(hash, before, all, Added(moved, before[i][..j]), i, j)
  {
    if j > 0 {
      MovesChain(hash, before, all, moved, i, j - 1);
      assert before[i][..j][..j - 1] == before[i][..j - 1];
      MovesOne(hash, before, all, Added(moved, before[i][..j - 1]), i, j - 1);
    }
  }

  lemma MovesOne(hash: Key -> nat, before: seq<seq<KeyNode>>, all: map<Key, KeyNode>, moved: map<Key,
                 KeyNode>, i: nat, j: nat)
    requires Indexed(hash, before, all) && i < |before| && j < |before[i]| && HasMoved(hash, before, all, moved, i, j)
    ensures HasMoved(hash, before, all, moved[before[i][j].key := before[i][j]], i, j + 1)
  {
    var n := before[i][j];
    assert before[i][..j + 1] == before[i][..j] + [n];
    assert n.key in all && all[n.key] == n && Bucket(hash, |before|, n.key) == i && n !in before[i][..j];
    forall k | k in all
      ensures k in moved[n.key := n] <==> Before(hash, before, all, k, i, j + 1)
    {
      assert all[k].key == k;
    }
  }

  lemma MovesBucket(hash: Key -> nat, before: seq<seq<KeyNode>>, all: map<Key, KeyNode>, moved: map<Key,
                    KeyNode>, i: nat)
    requires Indexed(hash, before, all) && i < |before| && HasMoved(hash, before, all, moved, i, 0)
    ensures HasMoved(hash, before, all, Added(moved, before[i]), i + 1, 0)
  {
    MovesChain(hash, before, all, moved, i, |before[i]|);
    assert before[i][..|before[i]|] == before[i];
    forall k | k in all ensures k in Added(moved, before[i]) <==> Before(hash, before, all, k, i + 1, 0) {
      assert all[k] in before[Bucket(hash, |before|, k)];
    }
  }

  lemma EverythingMoved(hash: Key -> nat, before: seq<seq<KeyNode>>, all: map<Key, KeyNode>, moved: map<Key, KeyNode>)
    requires |before| > 0 && HasMoved(hash, before, all, moved, |before|, 0)
    ensures forall k :: k in all ==> k in moved && moved[k] == all[k]
  {
    forall k | k in all ensures k in moved {
      assert Before(hash, before, all, k, |before|, 0);
    }
  }

  lemma BucketsAreApart(hash: Key -> nat, chains: seq<seq<KeyNode>>, all: map<Key, KeyNode>, i: nat)
    requires Indexed(hash, chains, all) && i < |chains|
    ensures forall i' :: 0 <= i' < |chains| && i' != i ==> Protocol.Elems(chains[i']) !! Protocol.Elems(chains[i])
  {
    forall i', n | 0 <= i' < |chains| && i' != i && n in chains[i'] ensures n !in chains[i] {
      assert Bucket(hash, |chains|, n.key) == i';
    }
  }

  // ---- iteration order

  /** All chains one after the other. */
  ghost function Flatten(chains: seq<seq<KeyNode>>): seq<KeyNode> {
    if |chains| == 0 then [] else chains[0] + Flatten(chains[1..])
  }

  ghost function KeysOf(order: seq<KeyNode>): (keys: seq<Key>)
    ensures |keys| == |order| && forall i :: 0 <= i < |order| ==> keys[i] == order[i].key
  {
    seq(|order|, i requires 0 <= i < |order| => order[i].key)
  }

  /** What `dic_forEach` does with a callback that carries a state: it shows it one node after the other until the
      callback answers false. */
  ghost function FoldUntil<S>(f: (S, Key, Value) -> (S, bool), s: S, order: seq<KeyNode>): S
    reads order`value
  {
    if |order| == 0 then s
    else
      var (s', go) := f(s, order[0].key, order[0].value);
      if go then FoldUntil(f, s', order[1..]) else s'
  }

  /** Where that stops: the position of the first node answered with false, or the end. */
  ghost function StopsAt<S>(f: (S, Key, Value) -> (S, bool), s: S, order: seq<KeyNode>): (p: nat)
    ensures p <= |order|
    reads order`value
  {
    if |order| == 0 then 0
    else
      var (s', go) := f(s, order[0].key, order[0].value);
      if go then 1 + StopsAt(f, s', order[1..]) else 0
  }

  /** The callback sees the nodes one by one, each with the state the one before has left, and says go on to all but
      the one at which that stops; the state it leaves last is the result. */
  lemma {:induction false} CallbackIsApplied<S>(f: (S, Key, Value) -> (S, bool), s: S, order: seq<KeyNode>)
    returns (states: seq<S>)
    ensures |states| == StopsAt(f, s, order) + 1 && states[0] == s
    ensures forall j :: 0 <= j < |states| - 1 ==> f(states[j], order[j].key, order[j].value) == (states[j + 1], true)
    ensures var p := StopsAt(f, s, order);
      if p == |order| then FoldUntil(f, s, order) == states[p]
      else f(states[p], order[p].key, order[p].value) == (FoldUntil(f, s, order), false)
    decreases |order|
  {
    if |order| == 0 {
      states := [s];
    } else {
      var (s', go) := f(s, order[0].key, order[0].value);
      states := [s];
      if go {
        var more := CallbackIsApplied(f, s', order[1..]);
        states := states + more;
      }
    }
  }

  lemma {:induction false} FlattenHas(chains: seq<seq<KeyNode>>, n: KeyNode)
    ensures n in Flatten(chains) <==> exists i :: 0 <= i < |chains| && n in chains[i]
  {
    if |chains| > 0 {
      FlattenHas(chains[1..], n);
      if n in Flatten(chains[1..]) {
        var i :| 0 <= i < |chains[1..]| && n in chains[1..][i];
        assert n in chains[i + 1];
      }
      if i :| 1 <= i < |chains| && n in chains[i] {
        assert n in chains[1..][i - 1];
      }
    }
  }

  /** The part of the order from bucket `i` on has different keys, all of buckets from `i` on. */
  lemma {:induction false} OrderFrom(hash: Key -> nat, chains: seq<seq<KeyNode>>, nodes: map<Key, KeyNode>, i: nat)
    requires Indexed(hash, chains, nodes) && i <= |chains|
    ensures Protocol.Distinct(KeysOf(Flatten(chains[i..])))
    ensures forall n :: n in Flatten(chains[i..]) ==> n.key in nodes && Bucket(hash, |chains|, n.key) >= i
    decreases |chains| - i
  {
    if i < |chains| {
      OrderFrom(hash, chains, nodes, i + 1);
      assert chains[i..][1..] == chains[i + 1..] && chains[i..][0] == chains[i];
      var a, b := chains[i], Flatten(chains[i + 1..]);
      var all: seq<KeyNode> := a + b;
      forall j, j' | 0 <= j < j' < |all| ensures all[j].key != all[j'].key {
        if j' < |a| {
          assert nodes[a[j].key] == a[j] && nodes[a[j'].key] == a[j'];
        } else if j < |a| {
          assert b[j' - |a|] in b && Bucket(hash, |chains|, a[j].key) == i;
        } else {
          assert KeysOf(b)[j - |a|] != KeysOf(b)[j' - |a|];
        }
      }
    }
  }

  /** Iteration visits every key of the table exactly once. */
  lemma OrderVisits(hash: Key -> nat, chains: seq<seq<KeyNode>>, nodes: map<Key, KeyNode>)
    requires Indexed(hash, chains, nodes)
    ensures Protocol.Distinct(KeysOf(Flatten(chains)))
    ensures forall k :: k in nodes <==> k in KeysOf(Flatten(chains))
  {
    OrderFrom(hash, chains, nodes, 0);
    assert chains[0..] == chains;
    forall k | k in nodes ensures k in KeysOf(Flatten(chains)) {
      FlattenHas(chains, nodes[k]);
      var j :| 0 <= j < |Flatten(chains)| && Flatten(chains)[j] == nodes[k];
      assert KeysOf(Flatten(chains))[j] == k;
    }
    forall k | k in KeysOf(Flatten(chains)) ensures k in nodes {
      var j :| 0 <= j < |KeysOf(Flatten(chains))| && KeysOf(Flatten(chains))[j] == k;
      assert Flatten(chains)[j] in Flatten(chains);
    }
  }

  /** A callback that acts on every key until it meets `stop`. */
  function Until<T>(act: (T, Key, Value) -> T, stop: Key): (T, Key, Value) -> (T, bool) {
    (t, k, v) => if k == stop then (t, false) else (act(t, k, v), true)
  }

  /** A second pass over the same order, up to the key where the first one stopped, acts on exactly the nodes
      the first one had accepted. */
  lemma {:induction false} SecondPassStops<S, T>(f: (S, Key, Value) -> (S, bool), s: S, act: (T, Key, Value) -> T, t: T,
                                                 order: seq<KeyNode>, stop: Key)
    requires Protocol.Distinct(KeysOf(order))
    requires StopsAt(f, s, order) < |order| && order[StopsAt(f, s, order)].key == stop
    ensures StopsAt(Until(act, stop), t, order) == StopsAt(f, s, order)
    decreases |order|
  {
    var (s', go) := f(s, order[0].key, order[0].value);
    if go {
      var rest := order[1..];
      assert KeysOf(order)[0] != KeysOf(order)[1 + StopsAt(f, s', rest)];
      forall j, j' | 0 <= j < j' < |rest| ensures KeysOf(rest)[j] != KeysOf(rest)[j'] {
        assert KeysOf(order)[j + 1] != KeysOf(order)[j' + 1];
      }
      SecondPassStops(f, s', act, act(t, order[0].key, order[0].value), rest, stop);
    }
  }

  lemma {:induction false} FlattenSplits(chains: seq<seq<KeyNode>>, i: nat)
    requires i < |chains|
    ensures multiset(Flatten(chains[..i + 1])) == multiset(Flatten(chains[..i])) + multiset(chains[i])
  {
    assert chains[..i + 1][0] == chains[0] && chains[..i + 1][1..] == chains[1..][..i];
    if i > 0 {
      assert chains[..i][0] == chains[0] && chains[..i][1..] == chains[1..][..i - 1];
      FlattenSplits(chains[1..], i - 1);
    }
  }

  /** `keynode_delete`: frees a node after the ones behind it; `freed` lists the calls of `free`. */
  method DeleteNode(node: KeyNode, ghost chain: seq<KeyNode>) returns (ghost freed: seq<KeyNode>)
    requires |chain| > 0 && chain[0] == node && Linked(chain)
    ensures multiset(freed) == multiset(chain)
    decreases |chain|
  {
    freed := [];
    assert chain == [node] + chain[1..] && node.next == At(chain, 1);
    if node.next != null {
      forall j {:trigger chain[1..][j].next} | 0 <= j < |chain[1..]|
        ensures chain[1..][j].next == At(chain[1..], j + 1)
      {
        assert chain[1..][j] == chain[j + 1] && chain[j + 1].next == At(chain, j + 2);
      }
      freed := DeleteNode(node.next, chain[1..]);
    }
    freed := freed + [node];
  }

  class Dictionary {
    const hash: Key -> nat  // `hash_pointer`
    var length: nat
    var count: nat
    var table: array<KeyNode?>
    var cursor: KeyNode?    // the node whose value slot `dic->value` points to
    ghost var chains: seq<seq<KeyNode>>
    ghost var nodes: map<Key, KeyNode>
    ghost var repr: set<KeyNode>
    ghost var contents: map<Key, Value>

    /** The table stands for the finite map `contents`. */
    ghost predicate Valid()
      reads this, table, repr
    {
      && length == table.Length && Holds() && Backed()
    }

    /** The nodes stand for `contents`. */
    ghost predicate Backed()
      reads this`count, this`nodes, this`repr, this`contents, repr`value
    {
      && count == |contents| && (forall k :: k in contents <==> k in nodes)
      && Stores(nodes, repr, contents)
    }

    /** The table holds exactly `nodes`, linked as `chains`. */
    ghost predicate Holds()
      reads this`table, this`chains, this`nodes, this`repr, table, repr`next
    {
      Indexed(hash, chains, nodes) && Owned(nodes, repr) && Threaded(table, chains, repr)
    }

    /** `dic_new`. */
    constructor (hash: Key -> nat, initialSize: nat)
      ensures Valid() && contents == map[] && repr == {} && this.hash == hash && fresh(table)
      ensures length == if initialSize == 0 then 1024 else initialSize
    {
      this.hash := hash;
      var size := if initialSize == 0 then 1024 else initialSize;
      length, count, cursor := size, 0, null;
      table := new KeyNode?[size](_ => null);
      chains, nodes, repr, contents := seq(size, _ => []), map[], {}, map[];
    }

    /** `dic_find`: moves the cursor to the key's value, if there is one. */
    method Find(key: Key) returns (found: bool)
      requires Valid()
      modifies this`cursor
      ensures Valid() && (found <==> key in contents)
      ensures if found then cursor == nodes[key] else cursor == old(cursor)
    {
      var n := hash(key) % length;
      var k := table[n];
      ghost var j := 0;
      while k != null
        invariant j <= |chains[n]| && k == At(chains[n], j)
        invariant forall j' :: 0 <= j' < j ==> chains[n][j'].key != key
        invariant cursor == old(cursor)
        decreases |chains[n]| - j
      {
        assert k == chains[n][j];
        if k.key == key {
          cursor := k;
          return true;
        }
        k := k.next;
        j := j + 1;
      }
      found := false;
    }

    /** Writing through `dic->value`. */
    method Store(v: Value)
      requires Valid() && cursor != null && cursor.key in nodes && nodes[cursor.key] == cursor
      modifies this`contents, cursor`value
      ensures Valid() && contents == old(contents)[cursor.key := v]
    {
      contents := contents[cursor.key := v];
      cursor.value := v;
    }

    /** `k2` becomes the head of its bucket; what `dic_reinsert_when_resizing` and `dic_add` have in common. */
    method Prepend(k2: KeyNode, n: nat)
      requires length == table.Length && Holds() && n == Bucket(hash, |chains|, k2.key) && k2.key !in nodes
      requires k2.next == null
      modifies this`chains, this`nodes, this`repr, this`cursor, table, k2`next
      ensures Holds() && cursor == k2
      ensures nodes == old(nodes)[k2.key := k2] && repr == old(repr) + {k2}
      ensures chains == old(chains)[n := [k2] + old(chains[n])]
    {
      IndexGrows(hash, chains, nodes, repr, k2, n);
      PutFirst(table, chains, repr, k2, n);
      chains, nodes, repr, cursor := chains[n := [k2] + chains[n]], nodes[k2.key := k2], repr + {k2}, k2;
    }

    /** `dic_reinsert_when_resizing`. */
    method Reinsert(k2: KeyNode)
      requires length == table.Length && Holds() && k2.key !in nodes && k2.next == null
      modifies this`chains, this`nodes, this`repr, this`cursor, table, k2`next
      ensures Holds() && cursor == k2
      ensures nodes == old(nodes)[k2.key := k2] && repr == old(repr) + {k2}
      ensures var n := Bucket(hash, |old(chains)|, k2.key); chains == old(chains)[n := [k2] + old(chains)[n]]
    {
      Prepend(k2, hash(k2.key) % length);
    }

    /** The body of the inner loop of `dic_resize`. */
    method MoveNode(k: KeyNode) returns (next: KeyNode?)
      requires length == table.Length && Holds() && k.key !in nodes
      modifies this`chains, this`nodes, this`repr, this`cursor, table, k`next
      ensures Holds() && next == old(k.next) && nodes == old(nodes)[k.key := k] && repr == old(repr) + {k}
    {
      next := k.next;
      k.next := null;
      Reinsert(k);
    }

    /** The inner loop of `dic_resize`: unlinks the nodes of an old chain one by one and reinserts them. */
    method MoveBucket(head: KeyNode?, ghost chain: seq<KeyNode>)
      requires length == table.Length && Holds() && NewTo(nodes, chain)
      requires head == At(chain, 0) && Linked(chain)
      modifies this`chains, this`nodes, this`repr, this`cursor, table, chain`next
      ensures Holds() && nodes == Added(old(nodes), chain)
    {
      var k := head;
      ghost var j := 0;
      while k != null
        invariant j <= |chain| && k == At(chain, j) && Holds() && nodes == Added(old(nodes), chain[..j])
        invariant forall j' {:trigger chain[j'].next} :: j <= j' < |chain| ==> chain[j'].next == At(chain, j' + 1)
        decreases |chain| - j
      {
        assert k == chain[j] && k.next == At(chain, j + 1);
        assert forall j' :: j < j' < |chain| ==> chain[j'] != k;
        NextIsNew(old(nodes), chain, j);
        k := MoveNode(k);
        j := j + 1;
      }
      assert chain[..j] == chain;
    }

    /** The outer loop of `dic_resize`: moves all nodes of the old table `was`. */
    method MoveAll(was: array<KeyNode?>, ghost before: seq<seq<KeyNode>>, ghost all: map<Key, KeyNode>,
                   ghost everyone: set<KeyNode>)
      requires length == table.Length && Holds() && nodes == map[] && repr == {}
      requires Indexed(hash, before, all) && Threaded(was, before, everyone) && was != table
      modifies this`chains, this`nodes, this`repr, this`cursor, table, everyone`next
      ensures Holds() && forall k :: k in all ==> k in nodes && nodes[k] == all[k]
      ensures (forall k :: k in nodes ==> k in all)
      ensures forall n :: n in everyone ==> n.value == old(n.value)
    {
      for i := 0 to was.Length
        invariant Holds() && HasMoved(hash, before, all, nodes, i, 0)
        invariant forall i' :: i <= i' < |before| ==> Linked(before[i'])
        invariant forall n :: n in everyone ==> n.value == old(n.value)
      {
        MoveBucketAt(was, before, all, everyone, i);
      }
      EverythingMoved(hash, before, all, nodes);
    }

    /** The body of that loop. */
    method MoveBucketAt(was: array<KeyNode?>, ghost before: seq<seq<KeyNode>>, ghost all: map<Key, KeyNode>,
                        ghost everyone: set<KeyNode>, i: nat)
      requires length == table.Length && Holds() && was != table && i < was.Length == |before|
      requires Indexed(hash, before, all) && Within(before, everyone) && was[i] == At(before[i], 0)
      requires HasMoved(hash, before, all, nodes, i, 0) && forall i' :: i <= i' < |before| ==> Linked(before[i'])
      modifies this`chains, this`nodes, this`repr, this`cursor, table, everyone`next
      ensures Holds() && HasMoved(hash, before, all, nodes, i + 1, 0)
      ensures forall i' :: i + 1 <= i' < |before| ==> Linked(before[i'])
    {
      BucketsAreApart(hash, before, all, i);
      BucketIsNew(hash, before, all, nodes, i);
      MovesBucket(hash, before, all, nodes, i);
      MoveBucket(was[i], before[i]);
    }

    /** Every node moves to its bucket of a new table. */
    method Relink(newsize: nat)
      requires length == table.Length && Holds() && newsize > 0
      modifies this`length, this`table, this`chains, this`nodes, this`repr, this`cursor, repr`next
      ensures length == newsize == table.Length && Holds() && fresh(table)
      ensures repr == old(repr) && ValuesStay()
    {
      var was := table;
      ghost var before, all, everyone := chains, nodes, repr;
      NodesAreWithin(hash, chains, all, everyone);
      Clear(newsize);
      MoveAll(was, before, all, everyone);
      Name(all, everyone);
    }

    /** `dic_resize`: no node is created, lost or rewritten. */
    method Resize(newsize: nat)
      requires Valid() && newsize > 0
      modifies this`length, this`table, this`chains, this`nodes, this`repr, this`cursor, repr`next
      ensures Valid() && length == newsize && fresh(table) && nodes == old(nodes) && repr == old(repr)
    {
      Relink(newsize);
      BackedStays();
    }

    /** The same nodes, with the same values. */
    twostate predicate ValuesStay()
      reads this`nodes, this`repr, repr`value
    {
      nodes == old(nodes) && forall k :: k in nodes ==> nodes[k] in repr && nodes[k].value == old(nodes[k].value)
    }

    /** Relinking nodes leaves what they stand for. */
    twostate lemma BackedStays()
      requires old(Backed()) && repr == old(repr) && ValuesStay()
      requires count == old(count) && contents == old(contents)
      ensures Backed()
    {}

    /** Starts over with an empty table. */
    method Clear(newsize: nat)
      requires newsize > 0
      modifies this`length, this`table, this`chains, this`nodes, this`repr
      ensures length == newsize == table.Length && Holds() && nodes == map[] && repr == {} && fresh(table)
    {
      table := new KeyNode?[newsize](_ => null);
      length := newsize;
      chains, nodes, repr := Empty(newsize), map[], {};
    }

    /** The nodes in the table are the ones in `all`. */
    ghost method Name(all: map<Key, KeyNode>, everyone: set<KeyNode>)
      requires Holds() && Owned(all, everyone) && forall k :: k in all ==> all[k] in everyone
      requires (forall k :: k in all ==> k in nodes && nodes[k] == all[k]) && forall k :: k in nodes ==> k in all
      modifies this`nodes, this`repr
      ensures Holds() && nodes == all && repr == everyone
    {
      IndexDepends(hash, chains, nodes, all);
      MovedWithin(hash, chains, all, everyone);
      nodes, repr := all, everyone;
    }

    /** `dic_add`: moves the cursor to the key's value, which is a new null one if the key was not there. A key
        that was there changes nothing, not even the order of the nodes. A new node becomes the head of its bucket;
        an empty bucket is taken into use only while the table is at most half full, and the table grows, at least
        by its growth factor, exactly when that fails. The call after a resize terminates because resizing lowers
        the load. */
    method Add(key: Key) returns (existed: bool)
      requires Valid()
      modifies this, table, repr`next
      ensures Valid() && (existed <==> key in old(contents)) && key in nodes && cursor == nodes[key]
      ensures contents == if existed then old(contents) else old(contents)[key := NULL]
      ensures nodes == (if existed then old(nodes) else old(nodes)[key := cursor])
      ensures repr == (if existed then old(repr) else old(repr) + {cursor})
      ensures if existed then chains == old(chains) && table == old(table) else fresh(cursor)
      ensures table == old(table) || fresh(table)
      ensures if table == old(table) then length == old(length) else length >= GROWTH_FACTOR * old(length)
      ensures table != old(table) <==> old(table[hash(key) % length]) == null && 2 * old(count) > old(length)
      ensures !existed ==> var n := Bucket(hash, |chains|, key);
        && |chains[n]| > 0 && chains[n][0] == cursor && (|chains[n]| == 1 ==> 2 * old(count) <= length)
        && (table == old(table) ==> chains == old(chains)[n := [cursor] + old(chains)[n]])
      decreases if 2 * count > length then 2 * count - length else 0
    {
      var n := hash(key) % length;
      if table[n] == null && 2 * count > length {
        Resize(length * GROWTH_FACTOR);
        existed := Add(key);
      } else {
        existed := AddHere(key, n);
      }
    }

    /** The rest of `dic_add`, without growing the table. */
    method AddHere(key: Key, n: nat) returns (existed: bool)
      requires Valid() && n == Bucket(hash, |chains|, key)
      modifies this`count, this`chains, this`nodes, this`repr, this`cursor, this`contents, table
      ensures Valid() && (existed <==> key in old(contents)) && key in nodes && cursor == nodes[key]
      ensures contents == if existed then old(contents) else old(contents)[key := NULL]
      ensures nodes == (if existed then old(nodes) else old(nodes)[key := cursor])
      ensures repr == (if existed then old(repr) else old(repr) + {cursor})
      ensures if existed then chains == old(chains) else fresh(cursor)
      ensures !existed ==> chains == old(chains)[n := [cursor] + old(chains[n])]
    {
      if table[n] == null {
        BucketIsEmpty(key, n);
        existed := false;
      } else {
        existed := Find(key);
      }
      if !existed {
        AddNew(key, n);
      }
    }

    lemma BucketIsEmpty(key: Key, n: nat)
      requires Valid() && n == Bucket(hash, |chains|, key) && table[n] == null
      ensures key !in contents
    {
      assert chains[n] == [];
      assert key !in nodes;
    }

    /** A node for a new key. */
    method AddNew(key: Key, n: nat)
      requires Valid() && key !in contents && n == Bucket(hash, |chains|, key)
      modifies this`count, this`chains, this`nodes, this`repr, this`cursor, this`contents, table
      ensures Valid() && key in nodes && cursor == nodes[key] && fresh(cursor)
      ensures contents == old(contents)[key := NULL]
      ensures nodes == old(nodes)[key := cursor] && repr == old(repr) + {cursor}
      ensures chains == old(chains)[n := [cursor] + old(chains[n])]
    {
      var k2 := new KeyNode(key);
      AddNode(k2, n);
    }

    method AddNode(k2: KeyNode, n: nat)
      requires Valid() && k2.key !in contents && k2.next == null
      requires k2.value == NULL && n == Bucket(hash, |chains|, k2.key)
      modifies this`count, this`chains, this`nodes, this`repr, this`cursor, this`contents, table, k2`next
      ensures Valid() && cursor == k2 && contents == old(contents)[k2.key := NULL]
      ensures nodes == old(nodes)[k2.key := k2] && repr == old(repr) + {k2}
      ensures chains == old(chains)[n := [k2] + old(chains[n])]
    {
      ghost var all, everyone := nodes, repr;
      Prepend(k2, n);
      CountNode(k2, all, everyone);
    }

    method CountNode(ghost k2: KeyNode, ghost all: map<Key, KeyNode>, ghost everyone: set<KeyNode>)
      requires nodes == all[k2.key := k2] && repr == everyone + {k2}
      requires k2.key !in all && k2.value == NULL && count == |contents|
      requires (forall k :: k in contents <==> k in all) && Stores(all, everyone, contents)
      modifies this`count, this`contents
      ensures Backed() && contents == old(contents)[k2.key := NULL]
    {
      StoresGrows(all, nodes, everyone, contents, contents[k2.key := NULL], k2);
      contents := contents[k2.key := NULL];
      count := count + 1;
    }

    /** `dic_forEach`. */
    method ForEach<S>(f: (S, Key, Value) -> (S, bool), s0: S) returns (s: S)
      requires Valid()
      ensures s == FoldUntil(f, s0, Flatten(chains))
    {
      s := s0;
      assert chains[0..] == chains;
      for i := 0 to length
        invariant FoldUntil(f, s0, Flatten(chains)) == FoldUntil(f, s, Flatten(chains[i..]))
      {
        var k := table[i];
        ghost var j := 0;
        ghost var rest := Flatten(chains[i + 1..]);
        assert chains[i..][0] == chains[i] && chains[i..][1..] == chains[i + 1..];
        assert chains[i][0..] == chains[i];
        while k != null
          invariant j <= |chains[i]| && k == At(chains[i], j)
          invariant FoldUntil(f, s0, Flatten(chains)) == FoldUntil(f, s, chains[i][j..] + rest)
          decreases |chains[i]| - j
        {
          ghost var todo := chains[i][j..] + rest;
          assert k == chains[i][j] && todo[0] == k && todo[1..] == chains[i][j + 1..] + rest;
          var go;
          var step := f(s, k.key, k.value);
          s, go := step.0, step.1;
          if !go {
            return;
          }
          k := k.next;
          j := j + 1;
        }
        assert chains[i][j..] + rest == rest;
      }
      assert chains[length..] == [];
    }

    /** `dic_delete`: frees every node of the table exactly once. */
    method Delete() returns (ghost freed: seq<KeyNode>)
      requires Valid()
      ensures multiset(freed) == multiset(Flatten(chains))
    {
      freed := [];
      for i := 0 to length
        invariant multiset(freed) == multiset(Flatten(chains[..i]))
      {
        FlattenSplits(chains, i);
        if table[i] != null {
          ghost var more := DeleteNode(table[i], chains[i]);
          freed := freed + more;
        }
      }
      assert chains[..length] == chains;
    }
  }
}
