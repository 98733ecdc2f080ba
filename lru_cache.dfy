// A least-recently-used cache built from a dictionary of keys to nodes and a
// doubly linked list of those nodes, ordered from least to most recently used,
// between two sentinel nodes.

module LruCache {
  import opened Wrappers
  import opened Sequences

  /** Moving the element at `k` to the end keeps the elements and, on a
      sequence without repetitions, keeps it without repetitions. */
  lemma {:induction false} MoveToEndElements<T>(s: seq<T>, k: nat)
    requires k < |s|
    ensures forall x :: x in RemoveAt(s, k) + [s[k]] <==> x in s
    ensures Distinct(s) ==> Distinct(RemoveAt(s, k) + [s[k]])
  {
    var t := RemoveAt(s, k) + [s[k]];
    forall x | x in s
      ensures x in t
    {
      var j :| 0 <= j < |s| && s[j] == x;
      assert t[Position(|s|, k, j)] == x;
    }
    if Distinct(s) {
      forall a, b | 0 <= a < |t| && 0 <= b < |t| && a != b
        ensures Apart(t, a, b)
      {
        var a', b' := Origin(|s|, k, a), Origin(|s|, k, b);
        assert Apart(s, a', b');
      }
    }
  }

  /** Where the element at `j` ends up when the one at `k` moves to the end. */
  function Position(n: nat, k: nat, j: nat): nat
    requires k < n
  {
    if j < k then j else if j == k then n - 1 else j - 1
  }

  /** Where the element now at `a` came from when the one at `k` moved to
      the end. */
  function Origin(n: nat, k: nat, a: nat): nat
    requires k < n
  {
    if a == n - 1 then k else if a < k then a else a + 1
  }

  /** A node of the list: sentinels carry no key and no value. */
  class Node<K(!new), V(!new)> {
    const key: Option<K>
    var val: Option<V>
    var next: Node?<K, V>
    var prev: Node?<K, V>

    constructor (key: Option<K>, val: Option<V>)
      ensures this.key == key && this.val == val
      ensures next == null && prev == null
    {
      this.key := key;
      this.val := val;
      next := null;
      prev := null;
    }
  }

  /** A doubly linked list between a `head` and a `rear` sentinel. `nodes`
      are the nodes strictly between them, from head to rear. */
  class DoubleLinkedList<K(!new), V(!new)> {
    const head: Node<K, V>
    const rear: Node<K, V>
    ghost var nodes: seq<Node<K, V>>

    ghost predicate Valid()
      reads this, Members()`next, Members()`prev
    {
      && head != rear && head !in nodes && rear !in nodes
      && Distinct(nodes)
      && head.key.None? && rear.key.None?
      && head.prev == null && rear.next == null
      && head.next == (if nodes == [] then rear else nodes[0])
      && rear.prev == (if nodes == [] then head else nodes[|nodes| - 1])
      && (nodes != [] ==> nodes[0].prev == head && nodes[|nodes| - 1].next == rear)
      && (forall i :: 0 < i < |nodes| ==> LinkAt(i))
    }

    /** The nodes at `i - 1` and `i` point at each other. */
    ghost predicate LinkAt(i: int)
      requires 0 < i < |nodes|
      reads this, {nodes[i - 1]}`next, {nodes[i]}`prev
    {
      nodes[i].prev == nodes[i - 1] && nodes[i - 1].next == nodes[i]
    }

    /** The sentinels and the nodes between them. */
    ghost function Members(): set<Node<K, V>>
      reads this
    {
      {head, rear} + set n | n in nodes
    }

    constructor ()
      ensures Valid() && fresh(head) && fresh(rear)
      ensures nodes == [] && head.next == rear && rear.prev == head
    {
      head := new Node(None, None);
      rear := new Node(None, None);
      nodes := [];
      new;
      head.next := rear;
      rear.prev := head;
    }

    /** Links `node` in just before the rear sentinel, as the most recently
        used node. */
    method Add(node: Node<K, V>)
      requires Valid() && node !in nodes && node != head && node != rear
      modifies this`nodes, Members()`next, rear`prev, node`next, node`prev
      ensures Valid()
      ensures nodes == old(nodes) + [node]
      ensures node.prev == old(rear.prev) && node.next == rear && rear.prev == node
      ensures forall n :: n in old(Members()) || n == node ==> n.val == old(n.val)
    {
      var previous := rear.prev;
      ghost var n0 := nodes;
      previous.next := node;
      node.prev := previous;
      rear.prev := node;
      node.next := rear;
      DistinctAppend(nodes, node);
      nodes := nodes + [node];
      forall i | 0 < i < |nodes|
        ensures LinkAt(i)
      {
        if i < |n0| {
          assert old(LinkAt(i));
          assert nodes[i] == n0[i] && nodes[i - 1] == n0[i - 1];
          assert n0[i] != node && n0[i] != rear && Apart(n0, i - 1, |n0| - 1);
        }
      }
    }

    /** A node between the sentinels is linked on both sides, to its
        neighbours in `nodes`. */
    lemma Linked(k: nat)
      requires Valid() && k < |nodes|
      ensures nodes[k].prev == (if k == 0 then head else nodes[k - 1])
      ensures nodes[k].next == (if k == |nodes| - 1 then rear else nodes[k + 1])
    {
      if 0 < k {
        assert LinkAt(k);
      }
      if k < |nodes| - 1 {
        assert LinkAt(k + 1);
      }
    }

    /** Unlinks `node` and returns it, or returns null, changing nothing,
        when the node is not linked on both sides (a sentinel, or a node
        already removed). */
    method Remove(node: Node<K, V>) returns (r: Node?<K, V>)
      requires Valid()
      requires node in nodes || node.prev == null || node.next == null
      modifies this`nodes, Members()`next, Members()`prev, node`prev, node`next
      ensures Valid()
      ensures old(node.prev == null || node.next == null) ==> r == null && nodes == old(nodes)
      ensures old(node in nodes) ==>
        && r == node && node.prev == null && node.next == null && node !in nodes
        && nodes == RemoveAt(old(nodes), IndexOf(old(nodes), node))
      ensures forall n :: n in old(Members()) ==> n.val == old(n.val)
      ensures Members() <= old(Members())
    {
      if node in nodes {
        Linked(IndexOf(nodes, node));
      }
      if node.prev == null || node.next == null {
        return null;
      }
      Splice(node, node.prev, node.next, IndexOf(nodes, node));
      r := node;
    }

    /** Points the neighbours of `node` at each other and clears its own
        links, taking it out of `nodes`. */
    method Splice(node: Node<K, V>, before: Node<K, V>, after: Node<K, V>, ghost k: nat)
      requires Valid() && k < |nodes| && nodes[k] == node
      requires before == node.prev && after == node.next
      modifies this`nodes, before`next, after`prev, node`prev, node`next
      ensures Valid() && node !in nodes
      ensures forall n :: n in old(Members()) ==> n.val == old(n.val)
      ensures Members() <= old(Members())
      ensures node.prev == null && node.next == null
      ensures nodes == RemoveAt(old(nodes), k)
    {
      ghost var n0 := nodes;
      Linked(k);
      before.next := after;
      after.prev := before;
      node.prev := null;
      node.next := null;
      DistinctRemoveAt(nodes, k);
      nodes := RemoveAt(nodes, k);
      if nodes != [] {
        var last := |nodes| - 1;
        if k == 0 {
          assert nodes[0] == n0[1] && Apart(n0, 1, 0);
        } else {
          assert nodes[0] == n0[0] && Apart(n0, 0, k);
          if k + 1 < |n0| {
            assert Apart(n0, 0, k + 1);
          }
        }
        if k == |n0| - 1 {
          assert nodes[last] == n0[k - 1] && Apart(n0, k - 1, k);
        } else {
          assert nodes[last] == n0[last + 1] && Apart(n0, last + 1, k);
          if 0 < k {
            assert Apart(n0, last + 1, k - 1);
          }
        }
      }
      forall i | 0 < i < |nodes|
        ensures LinkAt(i)
      {
        if i == k {
          assert nodes[i] == n0[k + 1] && nodes[i - 1] == n0[k - 1];
          assert Apart(n0, k + 1, k) && Apart(n0, k - 1, k);
        } else {
          var j := if i < k then i else i + 1;
          assert old(LinkAt(j));
          assert nodes[i] == n0[j] && nodes[i - 1] == n0[j - 1];
          assert Apart(n0, j, k) && Apart(n0, j - 1, k);
          if k + 1 < |n0| {
            assert Apart(n0, j, k + 1);
          }
          if 0 < k {
            assert Apart(n0, j - 1, k - 1);
          }
        }
      }
    }
  }

  /** `s` with `x` moved from its place to the end (unchanged when `x` is
      not in `s`). */
  function MoveToEnd<T(==)>(s: seq<T>, x: T): (r: seq<T>)
    ensures x in s ==> |r| == |s| && r[|r| - 1] == x
  {
    if x in s then RemoveAt(s, IndexOf(s, x)) + [x] else s
  }

  /** The `i`-th key of `order` is stored in the dictionary under the node
      at position `i`. */
  ghost predicate KeyAt<K(!new), V(!new)>(order: seq<K>, nodes: seq<Node<K, V>>, cache: map<K, Node<K, V>>, i: int)
    requires 0 <= i < |order| == |nodes|
  {
    order[i] in cache && cache[order[i]] == nodes[i]
  }

  /** The node stored under `key` is in the list and carries `key`. */
  ghost predicate NodeOf<K(!new), V(!new)>(nodes: seq<Node<K, V>>, cache: map<K, Node<K, V>>, key: K)
    requires key in cache
  {
    cache[key] in nodes && cache[key].key == Some(key)
  }

  /** The dictionary of a cache agrees with its list: the node at position
      `i` is the one stored under the `i`-th key of `order`, and every node
      in the dictionary is in the list and carries its own key. */
  ghost predicate Indexed<K(!new), V(!new)>(order: seq<K>, nodes: seq<Node<K, V>>, cache: map<K, Node<K, V>>) {
    && |order| == |nodes|
    && (forall i :: 0 <= i < |order| ==> KeyAt(order, nodes, cache, i))
    && (forall key {:trigger NodeOf(nodes, cache, key)} :: key in cache ==> NodeOf(nodes, cache, key))
  }

  /** A key of the dictionary is in `order`, at the position of its node. */
  lemma IndexedLookup<K(!new), V(!new)>(order: seq<K>, nodes: seq<Node<K, V>>, cache: map<K, Node<K, V>>, key: K)
    requires Indexed(order, nodes, cache) && key in cache
    ensures key in order && nodes[IndexOf(order, key)] == cache[key]
  {
    assert NodeOf(nodes, cache, key);
    var j :| 0 <= j < |nodes| && nodes[j] == cache[key];
    assert KeyAt(order, nodes, cache, j);
    assert NodeOf(nodes, cache, order[j]);
    assert KeyAt(order, nodes, cache, IndexOf(order, key));
  }

  /** The first node of the list carries the first key of `order`. */
  lemma IndexedFirst<K(!new), V(!new)>(order: seq<K>, nodes: seq<Node<K, V>>, cache: map<K, Node<K, V>>)
    requires Indexed(order, nodes, cache) && |order| > 0
    ensures order[0] in cache && nodes[0] == cache[order[0]] && nodes[0].key == Some(order[0])
  {
    assert KeyAt(order, nodes, cache, 0);
    assert NodeOf(nodes, cache, order[0]);
  }

  /** A sequence without repetitions has as many distinct elements as it
      has positions. */
  lemma {:induction false} DistinctCard<T>(s: seq<T>)
    requires Distinct(s)
    ensures |set x | x in s| == |s|
  {
    if s != [] {
      var t := s[1..];
      forall a, b | 0 <= a < |t| && 0 <= b < |t| && a != b
        ensures Apart(t, a, b)
      {
        assert Apart(s, a + 1, b + 1);
      }
      DistinctCard(t);
      forall x | x in t
        ensures x != s[0]
      {
        var j :| 0 <= j < |t| && t[j] == x;
        assert Apart(s, j + 1, 0);
      }
      assert (set x | x in s) == {s[0]} + (set x | x in t);
    }
  }

  /** Moving a node to the most recently used end moves its key with it. */
  lemma IndexedMove<K(!new), V(!new)>(order: seq<K>, nodes: seq<Node<K, V>>, cache: map<K, Node<K, V>>, k: nat)
    requires Indexed(order, nodes, cache) && Distinct(nodes) && k < |order|
    ensures Indexed(RemoveAt(order, k) + [order[k]], RemoveAt(nodes, k) + [nodes[k]], cache)
  {
    var order', nodes' := RemoveAt(order, k) + [order[k]], RemoveAt(nodes, k) + [nodes[k]];
    forall i | 0 <= i < |order'|
      ensures KeyAt(order', nodes', cache, i)
    {
      var j := Origin(|order|, k, i);
      assert order'[i] == order[j] && nodes'[i] == nodes[j];
      assert KeyAt(order, nodes, cache, j);
    }
    MoveToEndElements(nodes, k);
    forall key | key in cache
      ensures NodeOf(nodes', cache, key)
    {
      assert NodeOf(nodes, cache, key);
    }
  }

  /** Dropping the least recently used node drops its key from the
      dictionary. */
  lemma IndexedEvict<K(!new), V(!new)>(order: seq<K>, nodes: seq<Node<K, V>>, cache: map<K, Node<K, V>>)
    requires Indexed(order, nodes, cache) && Distinct(nodes) && |order| > 0
    ensures Indexed(order[1..], RemoveAt(nodes, 0), cache - {order[0]})
  {
    var order', nodes', cache' := order[1..], RemoveAt(nodes, 0), cache - {order[0]};
    IndexedFirst(order, nodes, cache);
    forall i | 0 <= i < |order'|
      ensures KeyAt(order', nodes', cache', i)
    {
      assert KeyAt(order, nodes, cache, i + 1) && Apart(nodes, i + 1, 0);
    }
    forall key | key in cache'
      ensures NodeOf(nodes', cache', key)
    {
      assert NodeOf(nodes, cache, key);
      RemoveAtKeeps(nodes, 0, cache[key]);
    }
  }

  /** Appending a new node under a new key keeps list and dictionary in
      step. */
  lemma IndexedAppend<K(!new), V(!new)>(order: seq<K>, nodes: seq<Node<K, V>>, cache: map<K, Node<K, V>>,
                            key: K, node: Node<K, V>)
    requires Indexed(order, nodes, cache) && key !in cache && node.key == Some(key)
    ensures Indexed(order + [key], nodes + [node], cache[key := node])
  {
    var order', nodes', cache' := order + [key], nodes + [node], cache[key := node];
    forall i | 0 <= i < |order'|
      ensures KeyAt(order', nodes', cache', i)
    {
      if i < |order| {
        assert KeyAt(order, nodes, cache, i);
      }
    }
    forall k | k in cache'
      ensures NodeOf(nodes', cache', k)
    {
      if k != key {
        assert NodeOf(nodes, cache, k);
      }
    }
  }

  /** The failure of `put`: the entry to evict is the rear sentinel, which
      has no key, because the list is empty while the cache is full
      (a capacity of zero or less). */
  datatype CacheError = EvictedSentinel

  /** A cache of at most `capacity` entries (when `capacity` is at least one)
      that evicts the least recently used entry. `order` lists the keys from
      least to most recently used and `contents` maps each key to its value. */
  class LRUCache<K(==, !new), V(!new)> {
    const list: DoubleLinkedList<K, V>
    const capacity: int
    var numKeys: int
    var hits: nat
    var miss: nat
    var cache: map<K, Node<K, V>>
    ghost var order: seq<K>
    ghost var contents: map<K, V>
    ghost var Repr: set<object>

    ghost predicate Valid()
      reads this, Repr
    {
      && this in Repr && list in Repr && list.Members() <= Repr
      && list.Valid()
      && numKeys == |order|
      && Indexed(order, list.nodes, cache)
      && (forall key :: key in contents <==> key in cache)
      && (forall key :: key in cache ==> NodeOf(list.nodes, cache, key) && cache[key].val == Some(contents[key]))
      && (numKeys <= capacity || numKeys == 0)
    }

    constructor (capacity: int)
      ensures Valid() && fresh(Repr)
      ensures this.capacity == capacity && numKeys == 0 && hits == 0 && miss == 0
      ensures order == [] && contents == map[]
    {
      list := new DoubleLinkedList();
      this.capacity := capacity;
      numKeys := 0;
      hits := 0;
      miss := 0;
      cache := map[];
      order := [];
      contents := map[];
      new;
      Repr := {this, list} + list.Members();
    }

    /** The dictionary and the list hold the same keys, one node per key,
        so `numKeys` counts the entries of both. */
    lemma Sizes()
      requires Valid()
      ensures forall key :: key in contents <==> key in order
      ensures Distinct(order)
      ensures |contents| == numKeys == |list.nodes|
    {
      forall key | key in contents
        ensures key in order
      {
        IndexedLookup(order, list.nodes, cache, key);
      }
      forall i, j | 0 <= i < |order| && 0 <= j < |order| && i != j
        ensures Apart(order, i, j)
      {
        assert KeyAt(order, list.nodes, cache, i) && KeyAt(order, list.nodes, cache, j);
        assert Apart(list.nodes, i, j);
      }
      DistinctCard(order);
      forall key | key in order
        ensures key in contents
      {
        var i :| 0 <= i < |order| && order[i] == key;
        assert KeyAt(order, list.nodes, cache, i);
      }
      assert contents.Keys == set x | x in order;
    }

    /** Membership looks at the dictionary alone, without touching the
        recency order or the counters. */
    function Contains(key: K): (b: bool)
      requires Valid()
      reads Repr
      ensures b <==> key in contents
    {
      key in cache
    }

    method Get(key: K) returns (r: Option<V>)
      requires Valid()
      modifies Repr
      ensures Valid() && Repr == old(Repr)
      ensures contents == old(contents) && numKeys == old(numKeys)
      ensures key in old(contents) ==>
        && r == Some(old(contents)[key])
        && hits == old(hits) + 1 && miss == old(miss)
        && order == MoveToEnd(old(order), key)
      ensures key !in old(contents) ==>
        && r == None
        && hits == old(hits) && miss == old(miss) + 1
        && order == old(order)
    {
      if key in cache {
        hits := hits + 1;
        var node := cache[key];
        Touch(key, node);
        return node.val;
      }
      miss := miss + 1;
      return None;
    }

    /** Moves the node of `key` to the most recently used end of the list,
        the `remove` then `add` that `get` and `put` both perform. */
    method Touch(key: K, node: Node<K, V>)
      requires Valid() && key in cache && node == cache[key]
      modifies list`nodes, list.Members()`next, list.Members()`prev, this`order
      ensures Valid()
      ensures order == MoveToEnd(old(order), key)
    {
      IndexedLookup(order, list.nodes, cache, key);
      ghost var k := IndexOf(order, key);
      IndexOfDistinct(list.nodes, k);
      IndexedMove(order, list.nodes, cache, k);
      order := RemoveAt(order, k) + [key];
      var _ := list.Remove(node);
      list.Add(node);
    }

    method Put(key: K, value: V) returns (r: Outcome<CacheError>)
      requires Valid()
      modifies Repr
      ensures Valid() && fresh(Repr - old(Repr))
      ensures hits == old(hits) && miss == old(miss)
      ensures key in old(contents) ==>
        && r == Pass
        && contents == old(contents)[key := value]
        && order == MoveToEnd(old(order), key)
        && numKeys == old(numKeys)
      ensures key !in old(contents) && old(numKeys) < capacity ==>
        && r == Pass
        && contents == old(contents)[key := value]
        && order == old(order) + [key]
        && numKeys == old(numKeys) + 1
      ensures key !in old(contents) && old(numKeys) >= capacity && old(order) != [] ==>
        && r == Pass
        && contents == (old(contents) - {old(order)[0]})[key := value]
        && order == old(order)[1..] + [key]
        && numKeys == old(numKeys)
      ensures key !in old(contents) && old(numKeys) >= capacity && old(order) == [] ==>
        && r == Fail(EvictedSentinel)
        && contents == old(contents) && order == old(order) && numKeys == old(numKeys)
      ensures capacity >= 1 ==> numKeys <= capacity
    {
      if key in cache {
        Refresh(key, value, cache[key]);
        return Pass;
      }
      if numKeys >= capacity {
        r := Evict();
        if r.Fail? {
          return;
        }
      }
      var node := new Node(Some(key), Some(value));
      Insert(key, value, node);
      return Pass;
    }

    /** The hit branch of `put`: the key's node takes the new value and
        moves to the most recently used end. */
    method Refresh(key: K, value: V, node: Node<K, V>)
      requires Valid() && key in cache && node == cache[key]
      modifies node`val, this`contents, this`order
      modifies list`nodes, list.Members()`next, list.Members()`prev
      ensures Valid()
      ensures contents == old(contents)[key := value] && order == MoveToEnd(old(order), key)
    {
      node.val := Some(value);
      contents := contents[key := value];
      Touch(key, node);
    }

    /** The eviction step of `put`: unlinks the node after the head
        sentinel and deletes its key, or fails when that node is the rear
        sentinel. */
    method Evict() returns (r: Outcome<CacheError>)
      requires Valid()
      modifies this`cache, this`numKeys, this`contents, this`order
      modifies list`nodes, list.Members()`next, list.Members()`prev
      ensures Valid()
      ensures old(order) == [] ==>
        r == Fail(EvictedSentinel) && order == old(order) && contents == old(contents) && numKeys == old(numKeys)
      ensures old(order) != [] ==>
        && r == Pass
        && order == old(order)[1..] && contents == old(contents) - {old(order)[0]}
        && numKeys == old(numKeys) - 1
    {
      var first := list.head.next;
      if order != [] {
        IndexedFirst(order, list.nodes, cache);
      }
      if first.key.None? {
        return Fail(EvictedSentinel);
      }
      IndexedEvict(order, list.nodes, cache);
      contents := contents - {order[0]};
      order := order[1..];
      cache := cache - {first.key.value};
      numKeys := numKeys - 1;
      var _ := list.Remove(first);
      return Pass;
    }

    /** The insertion step of `put`: a new node for a new key, linked at the
        most recently used end. */
    method Insert(key: K, value: V, node: Node<K, V>)
      requires Valid() && key !in cache && numKeys < capacity
      requires node !in Repr && node.key == Some(key) && node.val == Some(value)
      modifies this`cache, this`numKeys, this`contents, this`order, this`Repr
      modifies list`nodes, list.Members()`next, list.rear`prev, node`next, node`prev
      ensures Valid() && Repr == old(Repr) + {node}
      ensures order == old(order) + [key] && contents == old(contents)[key := value]
      ensures numKeys == old(numKeys) + 1
    {
      IndexedAppend(order, list.nodes, cache, key, node);
      order := order + [key];
      contents := contents[key := value];
      Repr := Repr + {node};
      cache := cache[key := node];
      numKeys := numKeys + 1;
      list.Add(node);
    }
  }
}
