/** Every sequence of operations on the answer cache, against a plain map. */
module CacheRuns {
  import opened Wrappers
  import opened LruCache

  datatype Op =
    | Get(key: CacheKey, now: int)
    | Put(key: CacheKey, value: Answer)
    | FlushKey(key: CacheKey)
    | FlushAll
    | SetMaxSize(size: int)

  type size = n: nat | n >= 1 witness 1

  datatype Cache = Cache(items: seq<Item>, most: size)

  function Allowed(n: int): size {
    if n < 1 then 1 else n
  }

  function Do(c: Cache, op: Op): Cache {
    match op
    case Get(key, now) => c.(items := Gotten(c.items, key, now))
    case Put(key, value) => c.(items := Stored(c.items, c.most, key, value))
    case FlushKey(key) => c.(items := Without(c.items, key))
    case FlushAll => c.(items := [])
    case SetMaxSize(n) => c.(most := Allowed(n))
  }

  function Run(c: Cache, ops: seq<Op>): Cache
    decreases ops
  {
    if ops == [] then c else Run(Do(c, ops[0]), ops[1..])
  }

  // ---------- A plain map with the same operations ----------

  type Table = map<CacheKey, Answer>

  function DoPlain(m: Table, op: Op): Table {
    match op
    case Put(key, value) => m[key := value]
    case FlushKey(key) => m - {key}
    case FlushAll => map[]
    case _ => m
  }

  function RunPlain(m: Table, ops: seq<Op>): Table
    decreases ops
  {
    if ops == [] then m else RunPlain(DoPlain(m, ops[0]), ops[1..])
  }

  /** The cache holds nothing but what the map has. */
  predicate Refines(c: Cache, m: Table) {
    Distinct(c.items) && forall i | 0 <= i < |c.items| :: c.items[i].key in m && m[c.items[i].key] == c.items[i].value
  }

  lemma WithoutFacts(items: seq<Item>, key: CacheKey)
    requires Distinct(items)
    ensures Distinct(Without(items, key)) && |Without(items, key)| <= |items|
    ensures forall i | 0 <= i < |Without(items, key)| ::
              Without(items, key)[i] in items && Without(items, key)[i].key != key
  {
  }

  lemma DoRefines(c: Cache, m: Table, op: Op)
    requires Refines(c, m)
    ensures Refines(Do(c, op), DoPlain(m, op))
  {
    hide Without;
    if op.Get? || op.Put? || op.FlushKey? {
      WithoutFacts(c.items, op.key);
    }
  }

  lemma {:induction false} RunRefines(c: Cache, m: Table, ops: seq<Op>)
    requires Refines(c, m)
    ensures Refines(Run(c, ops), RunPlain(m, ops))
    decreases ops
  {
    hide Do, DoPlain, Refines;
    if ops != [] {
      DoRefines(c, m, ops[0]);
      RunRefines(Do(c, ops[0]), DoPlain(m, ops[0]), ops[1..]);
    }
  }

  /** A hit is always the value last put under the key and not flushed since, and has not expired. */
  lemma {:induction false} HitsAreLastPut(most: size, ops: seq<Op>, key: CacheKey, now: int)
    ensures var found := Found(Run(Cache([], most), ops).items, key, now);
            var plain := RunPlain(map[], ops);
            found.Some? ==> key in plain && plain[key] == found.value && found.value.expiration > now
  {
    RunRefines(Cache([], most), map[], ops);
  }

  // ---------- The bound ----------

  lemma DoDistinct(c: Cache, op: Op)
    requires Distinct(c.items)
    ensures Distinct(Do(c, op).items)
    ensures |Do(c, op).items| <= if op.Put? then Min(|c.items| + 1, c.most) else if op.FlushAll? then 0 else |c.items|
  {
    if op.Get? || op.Put? || op.FlushKey? {
      WithoutFacts(c.items, op.key);
      if IndexOf(c.items, op.key) < |c.items| {
        assert |Without(c.items, op.key)| < |c.items|;
      }
      hide Without;
    }
  }

  /** How many items there can be, from `n` on: one more for each put, and after it no more than the
      bound in force then. Changing the bound alone changes nothing. */
  function Cap(n: nat, most: size, ops: seq<Op>): nat
    decreases ops
  {
    if ops == [] then n
    else match ops[0]
      case Put(_, _) => Cap(Min(n + 1, most), most, ops[1..])
      case FlushAll => Cap(0, most, ops[1..])
      case SetMaxSize(k) => Cap(n, Allowed(k), ops[1..])
      case _ => Cap(n, most, ops[1..])
  }

  /** Over every run, whatever becomes of the bound on the way. */
  lemma {:induction false} SizeBound(c: Cache, n: nat, ops: seq<Op>)
    requires Distinct(c.items) && |c.items| <= n
    ensures |Run(c, ops).items| <= Cap(n, c.most, ops)
    decreases ops
  {
    if ops != [] {
      var op := ops[0];
      DoDistinct(c, op);
      var t := Do(c, op);
      assert t.most == if op.SetMaxSize? then Allowed(op.size) else c.most;
      hide Do, Distinct, Allowed;
      SizeBound(t, if op.Put? then Min(n + 1, c.most) else if op.FlushAll? then 0 else n, ops[1..]);
    }
  }

  /** A change of the bound leaves more items than it allows exactly when there were more: nothing is
      evicted before the next put. */
  lemma OverFull(c: Cache, ops: seq<Op>, n: int)
    ensures var t := Run(c, ops + [SetMaxSize(n)]);
            && t.items == Run(c, ops).items
            && (|t.items| > t.most <==> |Run(c, ops).items| > Allowed(n))
  {
    RunAppend(c, ops, [SetMaxSize(n)]);
  }

  lemma {:induction false} RunAppend(c: Cache, a: seq<Op>, b: seq<Op>)
    ensures Run(c, a + b) == Run(Run(c, a), b)
    decreases a
  {
    hide Do;
    if a == [] {
      assert a + b == b;
    } else {
      assert (a + b)[1..] == a[1..] + b;
      RunAppend(Do(c, a[0]), a[1..], b);
    }
  }

  /** Two puts, and then a bound of one. */
  lemma LoweringEvictsNothing(a: CacheKey, b: CacheKey, x: Answer, y: Answer)
    requires a != b
    ensures Run(Cache([], 2), [Put(a, x), Put(b, y), SetMaxSize(1)]) == Cache([Item(b, y, 0), Item(a, x, 0)], 1)
  {
    var (c0, c1) := (Cache([], 2), Cache([Item(a, x, 0)], 2));
    assert Do(c0, Put(a, x)) == c1;
    assert Without(c1.items, b) == c1.items;
    var c2 := Cache([Item(b, y, 0), Item(a, x, 0)], 2);
    assert c1.items[..1] == c1.items;
    assert Do(c1, Put(b, y)) == c2;
    var ops := [Put(a, x), Put(b, y), SetMaxSize(1)];
    assert ops[1..] == [Put(b, y), SetMaxSize(1)] && ops[1..][1..] == [SetMaxSize(1)];
    hide Stored, Without;
    assert Run(c0, ops) == Run(c1, ops[1..]) == Run(c2, ops[1..][1..]);
    assert Run(c2, [SetMaxSize(1)]) == Do(c2, SetMaxSize(1));
  }

  predicate NeverLowered(most: size, ops: seq<Op>)
    decreases ops
  {
    ops == []
    || (if ops[0].SetMaxSize? then Allowed(ops[0].size) >= most && NeverLowered(Allowed(ops[0].size), ops[1..])
        else NeverLowered(most, ops[1..]))
  }

  lemma {:induction false} CapWithin(c: Cache, n: nat, ops: seq<Op>)
    requires n <= c.most && NeverLowered(c.most, ops)
    ensures Cap(n, c.most, ops) <= Run(c, ops).most
    decreases ops
  {
    if ops != [] {
      var op := ops[0];
      assert Do(c, op).most == if op.SetMaxSize? then Allowed(op.size) else c.most;
      hide Do, Allowed;
      CapWithin(Do(c, op), if op.Put? then Min(n + 1, c.most) else if op.FlushAll? then 0 else n, ops[1..]);
    }
  }

  /** So a cache stays within its bound as long as that is never lowered. */
  lemma {:induction false} StaysWithin(c: Cache, ops: seq<Op>)
    requires Distinct(c.items) && |c.items| <= c.most && NeverLowered(c.most, ops)
    ensures |Run(c, ops).items| <= Run(c, ops).most
  {
    SizeBound(c, |c.items|, ops);
    CapWithin(c, |c.items|, ops);
  }

  // ---------- What least-recently-used promises ----------

  /** The item of a key is at `p`, has this value and these hits, and every key before it is one of
      `others`. */
  predicate Behind(items: seq<Item>, key: CacheKey, value: Answer, hits: nat, others: set<CacheKey>, p: nat) {
    && p < |items| && items[p] == Item(key, value, hits)
    && forall j | 0 <= j < p :: items[j].key in others
  }

  lemma {:induction false} Pigeonhole(items: seq<Item>, p: nat, others: set<CacheKey>)
    requires Distinct(items) && p <= |items| && forall j | 0 <= j < p :: items[j].key in others
    ensures p <= |others|
    decreases p
  {
    if p > 0 {
      Pigeonhole(items, p - 1, others - {items[p - 1].key});
    }
  }

  lemma BehindWithout(items: seq<Item>, key: CacheKey, value: Answer, hits: nat, others: set<CacheKey>,
      p: nat, k: CacheKey)
    returns (q: nat)
    requires Distinct(items) && Behind(items, key, value, hits, others, p) && k != key
    ensures Behind(Without(items, k), key, value, hits, others, q)
  {
    var i := IndexOf(items, k);
    q := if i < p then p - 1 else p;
    hide IndexOf;
  }

  /** The operation uses one of `others`, or looks the key up no later than `now`; it does not flush
      the key, and leaves room for all the others. */
  predicate Mild(op: Op, key: CacheKey, others: set<CacheKey>, now: int) {
    match op
    case Get(k, time) => k in others || (k == key && time <= now)
    case Put(k, _) => k in others
    case FlushKey(k) => k != key
    case FlushAll => false
    case SetMaxSize(n) => n > |others|
  }

  predicate Looks(op: Op, key: CacheKey) {
    op.Get? && op.key == key
  }

  /** How often the key is looked up. */
  function Lookups(ops: seq<Op>, key: CacheKey): nat {
    if ops == [] then 0 else (if Looks(ops[0], key) then 1 else 0) + Lookups(ops[1..], key)
  }

  lemma BehindPush(less: seq<Item>, key: CacheKey, value: Answer, hits: nat, others: set<CacheKey>, p: nat, item: Item)
    requires Behind(less, key, value, hits, others, p) && item.key in others
    ensures Behind([item] + less, key, value, hits, others, p + 1)
  {
  }

  /** A put keeps the first items, and the key is among them while there are few others. */
  lemma BehindPut(less: seq<Item>, most: size, key: CacheKey, value: Answer, hits: nat, others: set<CacheKey>,
      p: nat, item: Item)
    requires Distinct([item] + less) && Behind(less, key, value, hits, others, p)
    requires item.key in others && |others| < most
    ensures Behind([item] + less[..Min(|less|, most - 1)], key, value, hits, others, p + 1)
  {
    BehindPush(less, key, value, hits, others, p, item);
    Pigeonhole([item] + less, p + 1, others);
    hide Distinct;
  }

  lemma DistinctPush(items: seq<Item>, k: CacheKey, item: Item)
    requires Distinct(items) && item.key == k
    ensures Distinct([item] + Without(items, k))
  {
    WithoutFacts(items, k);
    hide Without;
  }

  /** The item of the key is the one that a lookup finds. */
  lemma BehindFound(items: seq<Item>, key: CacheKey, value: Answer, hits: nat, others: set<CacheKey>, p: nat, now: int)
    requires Behind(items, key, value, hits, others, p) && key !in others
    ensures IndexOf(items, key) == p
    ensures Found(items, key, now) == if value.expiration > now then Some(value) else None
  {
    var i := IndexOf(items, key);
    assert i <= p;
    assert i == p;
  }

  lemma HitInFront(items: seq<Item>, key: CacheKey, value: Answer, hits: nat, others: set<CacheKey>, p: nat, now: int)
    requires Behind(items, key, value, hits, others, p) && key !in others && value.expiration > now
    ensures Behind(Gotten(items, key, now), key, value, hits + 1, others, 0)
  {
    BehindFound(items, key, value, hits, others, p, now);
    hide IndexOf, Without;
  }

  lemma {:induction false} BehindStep(c: Cache, op: Op, key: CacheKey, value: Answer, hits: nat, others: set<CacheKey>,
      p: nat, now: int) returns (q: nat)
    requires Distinct(c.items) && Behind(c.items, key, value, hits, others, p) && key !in others
    requires |others| < c.most && Mild(op, key, others, now) && value.expiration > now
    ensures Distinct(Do(c, op).items) && |others| < Do(c, op).most
    ensures Behind(Do(c, op).items, key, value, if Looks(op, key) then hits + 1 else hits, others, q)
  {
    hide Without, Distinct, Behind;
    DoDistinct(c, op);
    if op.SetMaxSize? {
      q := p;
    } else if op.Get? && op.key == key {
      q := 0;
      HitInFront(c.items, key, value, hits, others, p, op.now);
    } else {
      q := BehindWithout(c.items, key, value, hits, others, p, op.key);
      var less := Without(c.items, op.key);
      if op.Put? {
        DistinctPush(c.items, op.key, Item(op.key, op.value, 0));
        BehindPut(less, c.most, key, value, hits, others, q, Item(op.key, op.value, 0));
        q := q + 1;
      } else if op.Get? && Found(c.items, op.key, op.now).Some? {
        BehindPush(less, key, value, hits, others, q, Do(c, op).items[0]);
        assert Do(c, op).items == [Do(c, op).items[0]] + less;
        q := q + 1;
      }
    }
  }

  /** A key survives any operations that touch fewer other keys than there is room for: only that many
      others can push it out, however often they are used. It may be looked up itself until it expires. */
  lemma {:induction false} RecentStays(c: Cache, ops: seq<Op>, key: CacheKey, value: Answer, hits: nat,
      others: set<CacheKey>, p: nat, now: int)
    returns (q: nat)
    requires Distinct(c.items) && Behind(c.items, key, value, hits, others, p) && key !in others && |others| < c.most
    requires value.expiration > now && forall op | op in ops :: Mild(op, key, others, now)
    ensures Behind(Run(c, ops).items, key, value, hits + Lookups(ops, key), others, q) && Distinct(Run(c, ops).items)
    decreases ops
  {
    hide Do, Distinct, Behind, Mild;
    if ops == [] {
      q := p;
    } else {
      var i := BehindStep(c, ops[0], key, value, hits, others, p, now);
      var more := if Looks(ops[0], key) then hits + 1 else hits;
      q := RecentStays(Do(c, ops[0]), ops[1..], key, value, more, others, i, now);
    }
  }

  /** The hits of an item count the lookups since it was put. */
  lemma {:induction false} HitsCounted(c: Cache, ops: seq<Op>, key: CacheKey, value: Answer, others: set<CacheKey>,
      now: int)
    requires Distinct(c.items) && key !in others && |others| < c.most && value.expiration > now
    requires forall op | op in ops :: Mild(op, key, others, now)
    ensures var items := Run(Do(c, Put(key, value)), ops).items;
            IndexOf(items, key) < |items| && items[IndexOf(items, key)].hits == Lookups(ops, key)
  {
    var t := Do(c, Put(key, value));
    DoDistinct(c, Put(key, value));
    assert Behind(t.items, key, value, 0, others, 0);
    var q := RecentStays(t, ops, key, value, 0, others, 0, now);
    var items := Run(t, ops).items;
    assert q < |items| && items[q] == Item(key, value, Lookups(ops, key));
    hide Run, Do, Mild, Behind, Found, Lookups;
    BehindFound(Run(t, ops).items, key, value, Lookups(ops, key), others, q, now);
  }

  /** Whatever is still there under the key is this value. */
  predicate OnlyValue(items: seq<Item>, key: CacheKey, value: Answer) {
    forall i | 0 <= i < |items| && items[i].key == key :: items[i].value == value
  }

  lemma OnlyValueStep(c: Cache, op: Op, key: CacheKey, value: Answer)
    requires OnlyValue(c.items, key, value) && (op.Put? ==> op.key != key)
    ensures OnlyValue(Do(c, op).items, key, value)
  {
  }

  lemma {:induction false} OnlyValueStays(c: Cache, ops: seq<Op>, key: CacheKey, value: Answer)
    requires OnlyValue(c.items, key, value) && forall op | op in ops :: op.Put? ==> op.key != key
    ensures OnlyValue(Run(c, ops).items, key, value)
    decreases ops
  {
    hide Do, OnlyValue;
    if ops != [] {
      OnlyValueStep(c, ops[0], key, value);
      OnlyValueStays(Do(c, ops[0]), ops[1..], key, value);
    }
  }

  /** So after a put, and as long as fewer than `most` other keys are used, every lookup before the
      answer expires is a hit, however often the key has been looked up until then; and none is after. */
  lemma {:induction false} PutThenHit(c: Cache, ops: seq<Op>, key: CacheKey, value: Answer, others: set<CacheKey>,
      now: int)
    requires Distinct(c.items) && key !in others && |others| < c.most
    requires forall op | op in ops :: Mild(op, key, others, now)
    ensures Found(Run(Do(c, Put(key, value)), ops).items, key, now)
            == if value.expiration > now then Some(value) else None
  {
    var t := Do(c, Put(key, value));
    DoDistinct(c, Put(key, value));
    assert Behind(t.items, key, value, 0, others, 0);
    if value.expiration > now {
      var q := RecentStays(t, ops, key, value, 0, others, 0, now);
      hide Run, Do, Mild, Behind, Found;
      BehindFound(Run(t, ops).items, key, value, Lookups(ops, key), others, q, now);
    } else {
      assert OnlyValue(t.items, key, value);
      OnlyValueStays(t, ops, key, value);
      hide Run, Do;
    }
  }
}
