/** What one resolution puts into the cache, and what later ones find there. */
module CachedAnswers {
  import opened Wrappers
  import opened LruCache
  import opened CacheRuns
  import opened Resolutions

  /** An answer that a resolution `s` got is what any later one is given that asks for the same, until
      it expires, as long as fewer other keys than there is room for have been used in between, however
      often it has been given already. Then it is not given again. */
  lemma {:induction false} AnswerReused(config: Config, s: State, answer: Answer, c: Cache, ops: seq<Op>,
      others: set<CacheKey>, again: Config, t: State, clock: nat -> int, servers: seq<string>)
    requires InFlight(s) && Distinct(c.items)
    requires again.rdtype == config.rdtype && again.rdclass == config.rdclass
    requires t.qnames != [] && t.qnames[0] == s.qname
    requires var (key, now) := (CacheKey(s.qname, config.rdtype, config.rdclass), clock(0));
             key !in others && |others| < c.most && forall op | op in ops :: Mild(op, key, others, now)
    ensures var put := CachePut(config, s, Responded(NOERROR, Some(answer)));
            && put.Some?
            && var items := Run(Do(c, Put(put.value.0, put.value.1)), ops).items;
               if answer.expiration > clock(0)
               then Requesting(again, t, items, clock, 0, servers).1
                    == if !answer.hasRRset && again.raiseOnNoAnswer then NoAnswer else Cached(answer)
               else LookedUp(again, items, s.qname, clock(0), clock(1)).0 == None
  {
    PutThenHit(c, ops, CacheKey(s.qname, config.rdtype, config.rdclass), answer, others, clock(0));
    hide Run, Do, Gotten, Found, Mild;
  }

  /** After an NXDOMAIN, whatever type a later resolution asks for, it sends the name on, unless it has
      an answer of that type; and asks nobody. */
  lemma {:induction false} NxdomainReused(config: Config, s: State, answer: Answer, c: Cache, ops: seq<Op>,
      others: set<CacheKey>, again: Config, t: State, clock: nat -> int, servers: seq<string>)
    requires InFlight(s) && Distinct(c.items)
    requires answer.rcode == NXDOMAIN && clock(0) <= clock(1) < answer.expiration
    requires again.rdclass == config.rdclass && t.qnames != [] && t.qnames[0] == s.qname
    requires var (key, now) := (CacheKey(s.qname, ANY, config.rdclass), clock(1));
             key !in others && |others| < c.most && forall op | op in ops :: Mild(op, key, others, now)
    ensures var put := CachePut(config, s, Responded(NXDOMAIN, Some(answer)));
            && put.Some?
            && var items := Run(Do(c, Put(put.value.0, put.value.1)), ops).items;
               var key := CacheKey(s.qname, again.rdtype, again.rdclass);
               Found(items, key, clock(0)).None? ==>
                 Requesting(again, t, items, clock, 0, servers)
                 == Requesting(again, t.(qname := s.qname, qnames := t.qnames[1..],
                                         nxdomains := t.nxdomains[s.qname := NXDOMAIN]),
                               LookedUp(again, items, s.qname, clock(0), clock(1)).2, clock, 2, servers)
  {
    var (key, anyKey) := (CacheKey(s.qname, again.rdtype, again.rdclass), CacheKey(s.qname, ANY, config.rdclass));
    PutThenHit(c, ops, anyKey, answer, others, clock(1));
    var items := Run(Do(c, Put(anyKey, answer)), ops).items;
    if Found(items, key, clock(0)).None? {
      FoundEarlier(items, anyKey, clock(0), clock(1));
      FoundAfterMiss(items, key, anyKey, clock(0), clock(1));
    }
    hide Run, Do, Gotten, Found, Mild;
  }

  lemma FoundEarlier(items: seq<Item>, key: CacheKey, now: int, later: int)
    requires now <= later
    ensures Found(items, key, later).Some? ==> Found(items, key, now) == Found(items, key, later)
  {
  }

  /** Leaving an item out moves those of the other keys at most one place up. */
  lemma {:induction false} IndexOfOmit(items: seq<Item>, i: nat, other: CacheKey)
    requires i < |items| && items[i].key != other
    ensures var j := IndexOf(items, other);
            IndexOf(Omit(items, i), other) == if j > i then j - 1 else j
    decreases items
  {
    var less := Omit(items, i);
    if i == 0 {
      assert less == items[1..];
    } else {
      assert less[0] == items[0] && less[1..] == Omit(items[1..], i - 1);
      IndexOfOmit(items[1..], i - 1, other);
    }
  }

  /** A lookup that misses does not get in the way of one for another key. */
  lemma FoundAfterMiss(items: seq<Item>, key: CacheKey, other: CacheKey, now: int, later: int)
    requires Found(items, key, now).None? && key != other
    ensures Found(Gotten(items, key, now), other, later) == Found(items, other, later)
  {
    var i := IndexOf(items, key);
    if i < |items| {
      IndexOfOmit(items, i, other);
    }
    hide IndexOf, Omit;
  }
}
