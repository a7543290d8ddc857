/** The least-recently-used answer cache of `dns/resolver.py`. */
module LruCache {
  import opened Wrappers
  import opened Names

  datatype CacheKey = CacheKey(qname: seq<Label>, rdtype: nat, rdclass: nat)

  // `expiration` is a time on the same clock as the `now` of the operations.
  datatype Answer = Answer(expiration: int, rcode: nat, hasRRset: bool, response: seq<byte>)

  // ---------- What the cache means: its items, the most recently used first ----------

  datatype Item = Item(key: CacheKey, value: Answer, hits: nat)

  function Keys(items: seq<Item>): set<CacheKey> {
    if items == [] then {} else {items[0].key} + Keys(items[1..])
  }

  predicate Distinct(items: seq<Item>) {
    forall i, j | 0 <= i < j < |items| :: items[i].key != items[j].key
  }

  /** Where the item of a key is; past the end if there is none. */
  function IndexOf(items: seq<Item>, key: CacheKey): (i: nat)
    ensures i <= |items|
    ensures i < |items| ==> items[i].key == key
    ensures forall j | 0 <= j < i :: items[j].key != key
  {
    if items == [] || items[0].key == key then 0 else 1 + IndexOf(items[1..], key)
  }

  function Without(items: seq<Item>, key: CacheKey): seq<Item> {
    var i := IndexOf(items, key);
    if i < |items| then Omit(items, i) else items
  }

  /** A hit moves the item to the front and counts; an expired item is dropped. */
  function Gotten(items: seq<Item>, key: CacheKey, now: int): seq<Item> {
    var i := IndexOf(items, key);
    if i < |items| && items[i].value.expiration > now
    then [items[i].(hits := items[i].hits + 1)] + Without(items, key)
    else Without(items, key)
  }

  function Found(items: seq<Item>, key: CacheKey, now: int): Option<Answer> {
    var i := IndexOf(items, key);
    if i < |items| && items[i].value.expiration > now then Some(items[i].value) else None
  }

  /** A new item comes to the front; from the tail goes what is then too many. */
  function Stored(items: seq<Item>, most: nat, key: CacheKey, value: Answer): seq<Item>
    requires most >= 1
  {
    var others := Without(items, key);
    [Item(key, value, 0)] + others[..Min(|others|, most - 1)]
  }

  // ---------- The ring ----------

  class Node {
    const key: Option<CacheKey>
    const value: Option<Answer>
    var hits: nat
    var prev: Node
    var next: Node

    constructor (key: Option<CacheKey>, value: Option<Answer>)
      ensures this.key == key && this.value == value && hits == 0 && prev == this && next == this
    {
      this.key := key;
      this.value := value;
      hits := 0;
      prev := this;
      next := this;
    }

    method LinkAfter(node: Node)
      requires node != this && node.next != this
      modifies `prev, `next, node`next, node.next`prev
      ensures prev == node && next == old(node.next)
      ensures old(node.next).prev == this && node.next == this
    {
      prev := node;
      next := node.next;
      node.next.prev := this;
      node.next := this;
    }

    method Unlink()
      modifies prev`next, next`prev
      ensures old(next).prev == old(prev) && old(prev).next == old(next)
    {
      next.prev := prev;
      prev.next := next;
    }
  }

  function After(ring: seq<Node>, i: nat): Node
    requires i < |ring|
  {
    if i + 1 < |ring| then ring[i + 1] else ring[0]
  }

  predicate AllDifferent(ring: seq<Node>) {
    forall i, j | 0 <= i < j < |ring| :: ring[i] != ring[j]
  }

  /** Going forward along `next` visits the ring in order, and `prev` goes back. */
  ghost predicate Linked(ring: seq<Node>)
    reads ring`prev, ring`next
  {
    && ring != [] && AllDifferent(ring)
    && forall i | 0 <= i < |ring| :: ring[i].next == After(ring, i) && After(ring, i).prev == ring[i]
  }

  function Omit<T>(s: seq<T>, i: nat): seq<T>
    requires i < |s|
  {
    s[..i] + s[i + 1..]
  }

  predicate Shows(node: Node, item: Item) {
    node.key == Some(item.key) && node.value == Some(item.value)
  }

  lemma {:induction false} KeysAreItems(items: seq<Item>, key: CacheKey)
    ensures key in Keys(items) <==> IndexOf(items, key) < |items|
    decreases items
  {
    if items != [] {
      KeysAreItems(items[1..], key);
    }
  }

  lemma {:induction false} KeysOmit(items: seq<Item>, p: nat)
    requires Distinct(items) && p < |items|
    ensures Keys(Omit(items, p)) == Keys(items) - {items[p].key}
    decreases items
  {
    if p == 0 {
      assert Omit(items, p) == items[1..];
      KeysAreItems(items[1..], items[0].key);
    } else {
      assert Omit(items, p)[1..] == Omit(items[1..], p - 1);
      KeysOmit(items[1..], p - 1);
      hide IndexOf;
    }
  }

  /** Node `i + 1` of the ring (the first is the sentinel) shows item `i`, and is what `data` has for
      its key. */
  ghost predicate Points(ring: seq<Node>, items: seq<Item>, data: map<CacheKey, Node>) {
    && |ring| == |items| + 1
    && forall i | 0 <= i < |items| ::
         Shows(ring[i + 1], items[i]) && items[i].key in data && data[items[i].key] == ring[i + 1]
  }

  /** ... and `data` has nothing else. */
  ghost predicate Agrees(ring: seq<Node>, items: seq<Item>, data: map<CacheKey, Node>) {
    Points(ring, items, data) && Distinct(items) && data.Keys == Keys(items) && |data| == |items|
  }

  ghost predicate Counted(ring: seq<Node>, items: seq<Item>)
    reads ring`hits
  {
    |ring| == |items| + 1 && forall i | 0 <= i < |items| :: ring[i + 1].hits == items[i].hits
  }

  lemma AgreesOmit(ring: seq<Node>, items: seq<Item>, data: map<CacheKey, Node>, p: nat)
    requires Agrees(ring, items, data) && p < |items|
    ensures Agrees(Omit(ring, p + 1), Omit(items, p), data - {items[p].key})
  {
    hide Keys;
    KeysOmit(items, p);
  }

  lemma AgreesPush(ring: seq<Node>, items: seq<Item>, data: map<CacheKey, Node>, node: Node, item: Item)
    requires Agrees(ring, items, data) && Shows(node, item) && item.key !in data
    ensures Agrees([ring[0], node] + ring[1..], [item] + items, data[item.key := node])
  {
    var more := [item] + items;
    assert more[1..] == items;
    forall i | 0 <= i < |items|
      ensures items[i].key != item.key
    {
      assert items[i].key in data;
    }
  }

  ghost predicate Within(ring: seq<Node>, repr: set<Node>) {
    forall i | 0 <= i < |ring| :: ring[i] in repr
  }

  lemma OmitFacts(ring: seq<Node>, repr: set<Node>, i: nat)
    requires AllDifferent(ring) && Within(ring, repr) && 0 < i < |ring|
    ensures Omit(ring, i)[0] == ring[0] && ring[i] !in Omit(ring, i) && Within(Omit(ring, i), repr)
  {
  }

  lemma Neighbours(ring: seq<Node>, repr: set<Node>, i: nat)
    requires Linked(ring) && Within(ring, repr) && i < |ring|
    ensures ring[i] in repr && ring[i].prev in repr && ring[i].next in repr
  {
    assert After(ring, if i > 0 then i - 1 else |ring| - 1) == ring[i];
  }

  lemma CountedOmit(ring: seq<Node>, items: seq<Item>, p: nat)
    requires Counted(ring, items) && p < |items|
    ensures Counted(Omit(ring, p + 1), Omit(items, p))
  {
  }

  lemma CountedPush(ring: seq<Node>, items: seq<Item>, node: Node, item: Item)
    requires Counted(ring, items) && node.hits == item.hits
    ensures Counted([ring[0], node] + ring[1..], [item] + items)
  {
  }

  lemma PlaceOf(ring: seq<Node>, items: seq<Item>, data: map<CacheKey, Node>, key: CacheKey)
    requires Agrees(ring, items, data)
    ensures var p := IndexOf(items, key);
            && (p < |items| <==> key in data)
            && (p < |items| ==> |ring| == |items| + 1 && ring[p + 1] == data[key] && Shows(ring[p + 1], items[p]))
  {
    KeysAreItems(items, key);
  }

  /** What taking item `p` away leaves. */
  lemma DropFacts(ring: seq<Node>, items: seq<Item>, data: map<CacheKey, Node>, repr: set<Node>, p: nat)
    requires Linked(ring) && Agrees(ring, items, data) && Counted(ring, items) && Within(ring, repr) && p < |items|
    ensures |ring| == |items| + 1
    ensures ring[p + 1].key == Some(items[p].key) && ring[p + 1].value == Some(items[p].value)
    ensures ring[p + 1].hits == items[p].hits && items[p].key in data && data[items[p].key] == ring[p + 1]
    ensures Omit(ring, p + 1)[0] == ring[0] && ring[p + 1] !in Omit(ring, p + 1) && Within(Omit(ring, p + 1), repr)
    ensures Agrees(Omit(ring, p + 1), Omit(items, p), data - {items[p].key})
    ensures Counted(Omit(ring, p + 1), Omit(items, p))
  {
    OmitFacts(ring, repr, p + 1);
    AgreesOmit(ring, items, data, p);
    CountedOmit(ring, items, p);
    assert Shows(ring[p + 1], items[p]);
    hide Linked, Within, Omit;
  }

  lemma PushFacts(ring: seq<Node>, items: seq<Item>, data: map<CacheKey, Node>, repr: set<Node>, node: Node, item: Item)
    requires Agrees(ring, items, data) && Counted(ring, items) && Within(ring, repr) && node in repr
    requires Shows(node, item) && node.hits == item.hits && item.key !in data
    ensures |ring| == |items| + 1
    ensures var more := [ring[0], node] + ring[1..];
            && Within(more, repr) && Counted(more, [item] + items)
            && Agrees(more, [item] + items, data[item.key := node])
  {
    AgreesPush(ring, items, data, node, item);
    CountedPush(ring, items, node, item);
  }

  lemma SizesAgree(ring: seq<Node>, items: seq<Item>, data: map<CacheKey, Node>)
    requires Agrees(ring, items, data)
    ensures |ring| == |items| + 1 && |data| == |items|
  {
  }

  /** The sentinel's `prev` is the least recently used node. */
  lemma LastNode(ring: seq<Node>, items: seq<Item>, data: map<CacheKey, Node>, repr: set<Node>)
    requires Linked(ring) && Agrees(ring, items, data) && Within(ring, repr) && items != []
    ensures |ring| == |items| + 1 && ring[0].prev == ring[|items|]
    ensures ring[0].prev.prev in repr && ring[0].prev.next in repr
  {
    assert After(ring, |ring| - 1) == ring[0];
    Neighbours(ring, repr, |items|);
  }

  lemma FreshNode(ring: seq<Node>, items: seq<Item>, data: map<CacheKey, Node>, repr: set<Node>, key: CacheKey,
                  node: Node)
    requires Linked(ring) && Agrees(ring, items, data) && Counted(ring, items) && Within(ring, repr)
    requires node !in repr && key !in data
    ensures Within(ring, repr + {node}) && node !in ring
    ensures data[key := node] - {key} == data
    ensures ring[0].next in repr
  {
    Neighbours(ring, repr, 0);
  }

  class LRUCache {
    var data: map<CacheKey, Node>
    var maxSize: nat
    const sentinel: Node
    var hits: nat
    var misses: nat
    ghost var ring: seq<Node>
    ghost var items: seq<Item>
    ghost var repr: set<Node>

    ghost predicate Valid()
      reads this, repr
    {
      && Within(ring, repr) && sentinel in repr && Linked(ring) && ring[0] == sentinel && maxSize >= 1
      && Agrees(ring, items, data) && Counted(ring, items)
    }

    constructor (maxSize: int)
      ensures Valid() && fresh(repr) && items == [] && this.maxSize == (if maxSize < 1 then 1 else maxSize)
      ensures hits == 0 && misses == 0
    {
      data := map[];
      this.maxSize := if maxSize < 1 then 1 else maxSize;
      var node := new Node(None, None);
      sentinel := node;
      hits, misses := 0, 0;
      ring, items, repr := [node], [], {node};
    }

    /** Lowering the bound evicts nothing. */
    method SetMaxSize(maxSize: int)
      requires Valid()
      modifies `maxSize
      ensures Valid() && this.maxSize == if maxSize < 1 then 1 else maxSize
    {
      this.maxSize := if maxSize < 1 then 1 else maxSize;
    }

    /** Takes node `i` out of the ring. */
    method UnlinkNode(node: Node, ghost i: nat)
      requires Linked(ring) && 0 < i < |ring| && ring[i] == node
      modifies `ring, node.prev`next, node.next`prev
      ensures ring == Omit(old(ring), i) && Linked(ring)
    {
      ghost var was := ring;
      assert After(was, i - 1) == node && node.prev == was[i - 1] && node.next == After(was, i);
      node.Unlink();
      ring := Omit(ring, i);
      forall j | 0 <= j < |ring|
        ensures ring[j].next == After(ring, j) && After(ring, j).prev == ring[j]
      {
        if j == i - 1 {
          assert After(ring, j) == After(was, i);
        } else {
          ghost var k := if j < i then j else j + 1;
          assert ring[j] == was[k] != was[i - 1] && After(ring, j) == After(was, k) != After(was, i);
        }
      }
    }

    /** Puts a node right after the sentinel. */
    method LinkNode(node: Node)
      requires Linked(ring) && ring[0] == sentinel && node !in ring
      modifies `ring, sentinel`next, sentinel.next`prev, node`prev, node`next
      ensures ring == [sentinel, node] + old(ring)[1..] && Linked(ring)
    {
      assert sentinel.next == After(ring, 0);
      node.LinkAfter(sentinel);
      ring := [sentinel, node] + ring[1..];
    }

    /** Takes the node of an item out of the ring and of `data`. */
    method Drop(node: Node, ghost p: nat)
      requires Valid() && p < |items| && ring[p + 1] == node
      modifies `ring, `items, `data, node.prev`next, node.next`prev
      ensures Valid() && ring == Omit(old(ring), p + 1) && items == Omit(old(items), p)
      ensures data == old(data) - {old(items)[p].key}
    {
      hide Agrees, Linked, Counted, Within, Shows;
      DropFacts(ring, items, data, repr, p);
      UnlinkNode(node, p + 1);
      assert Counted(ring, Omit(items, p));
      data := data - {node.key.value};
      items := Omit(items, p);
    }

    /** Puts the node that `data` has for the key of an item right after the sentinel. */
    method PutFront(node: Node, ghost item: Item, ghost others: seq<Item>)
      requires Within(ring, repr) && node in repr && sentinel in repr
      requires Linked(ring) && ring[0] == sentinel && maxSize >= 1 && node !in ring
      requires Agrees(ring, others, data - {item.key}) && Counted(ring, others)
      requires item.key in data && data[item.key] == node && Shows(node, item) && node.hits == item.hits
      modifies `ring, `items, sentinel`next, sentinel.next`prev, node`prev, node`next
      ensures Valid() && items == [item] + others
    {
      hide Agrees, Linked, Counted, Within, Shows;
      PushFacts(ring, others, data - {item.key}, repr, node, item);
      assert (data - {item.key})[item.key := node] == data;
      LinkNode(node);
      assert Counted(ring, [item] + others);
      items := [item] + others;
    }

    method Get(key: CacheKey, now: int) returns (r: Option<Answer>)
      requires Valid()
      modifies this, repr
      ensures Valid() && maxSize == old(maxSize) && repr == old(repr)
      ensures items == Gotten(old(items), key, now) && r == Found(old(items), key, now)
      ensures hits == old(hits) + (if r.Some? then 1 else 0) && misses == old(misses) + if r.Some? then 0 else 1
    {
      hide Agrees, Linked, Counted, Within, IndexOf;
      ghost var p := IndexOf(items, key);
      PlaceOf(ring, items, data, key);
      if key !in data {
        misses := misses + 1;
        return None;
      }
      var node := data[key];
      DropFacts(ring, items, data, repr, p);
      Neighbours(ring, repr, p + 1);
      ghost var others := Omit(items, p);
      UnlinkNode(node, p + 1);
      assert Counted(ring, others);
      if node.value.value.expiration <= now {
        data := data - {key};
        items := others;
        misses := misses + 1;
        return None;
      }
      Neighbours(ring, repr, 0);
      node.hits := node.hits + 1;
      assert Counted(ring, others);
      PutFront(node, items[p].(hits := node.hits), others);
      hits := hits + 1;
      return node.value;
    }

    /** Evicts the least recently used items until there is room for one more. */
    method MakeRoom()
      requires Valid()
      modifies `ring, `items, `data, repr`prev, repr`next
      ensures Valid() && items == old(items)[..Min(|old(items)|, maxSize - 1)] && data.Keys <= old(data).Keys
    {
      hide Agrees, Linked, Counted, Within;
      SizesAgree(ring, items, data);
      while |data| >= maxSize
        invariant Valid() && |data| == |items| && data.Keys <= old(data).Keys
        invariant |items| <= |old(items)| && items == old(items)[..|items|]
        invariant |items| >= Min(|old(items)|, maxSize - 1)
        decreases |items|
      {
        ghost var p := |items| - 1;
        LastNode(ring, items, data, repr);
        Drop(sentinel.prev, p);
        SizesAgree(ring, items, data);
      }
    }

    /** A new node in front of the others. */
    method Insert(key: CacheKey, value: Answer)
      requires Valid() && key !in data
      modifies `ring, `items, `data, `repr, sentinel`next, sentinel.next`prev
      ensures Valid() && items == [Item(key, value, 0)] + old(items) && fresh(repr - old(repr))
    {
      var node := new Node(Some(key), Some(value));
      hide Agrees, Linked, Counted, Within;
      FreshNode(ring, items, data, repr, key, node);
      repr := repr + {node};
      data := data[key := node];
      PutFront(node, Item(key, value, 0), items);
    }

    method Put(key: CacheKey, value: Answer)
      requires Valid()
      modifies this, repr
      ensures Valid() && maxSize == old(maxSize) && fresh(repr - old(repr))
      ensures items == Stored(old(items), maxSize, key, value)
      ensures hits == old(hits) && misses == old(misses)
    {
      hide Agrees, Linked, Counted, Within, Without;
      FlushKey(key);
      MakeRoom();
      SizesAgree(ring, items, data);
      Neighbours(ring, repr, 0);
      Insert(key, value);
    }

    method FlushKey(key: CacheKey)
      requires Valid()
      modifies this, repr
      ensures Valid() && maxSize == old(maxSize) && repr == old(repr)
      ensures items == Without(old(items), key) && key !in data
      ensures hits == old(hits) && misses == old(misses)
    {
      hide Agrees, Linked, Counted, Within, IndexOf;
      ghost var p := IndexOf(items, key);
      PlaceOf(ring, items, data, key);
      if key in data {
        Neighbours(ring, repr, p + 1);
        Drop(data[key], p);
      }
    }

    method Flush()
      requires Valid()
      modifies this, repr
      ensures Valid() && maxSize == old(maxSize) && repr == old(repr)
      ensures items == []
      ensures hits == old(hits) && misses == old(misses)
    {
      var node := sentinel.next;
      while node != sentinel
        invariant Linked(ring) && Within(ring, repr) && ring[0] == sentinel && node == After(ring, 0)
        invariant maxSize == old(maxSize) && hits == old(hits) && misses == old(misses) && repr == old(repr)
        decreases |ring|
      {
        var next := node.next;
        assert next == After(ring, 1);
        Neighbours(ring, repr, 1);
        UnlinkNode(node, 1);
        node := next;
      }
      data := map[];
      items := [];
    }

    method GetHitsForKey(key: CacheKey, now: int) returns (n: nat)
      requires Valid()
      ensures n == if Found(items, key, now).Some? then items[IndexOf(items, key)].hits else 0
    {
      PlaceOf(ring, items, data, key);
      if key !in data || data[key].value.value.expiration <= now {
        return 0;
      }
      return data[key].hits;
    }
  }
}
