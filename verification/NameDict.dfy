/** The name dictionary of `dns/namedict.py`. Keys are names folded to lower case, as names compare. */
module NameDicts {
  import opened Wrappers
  import opened Names

  type Key = seq<Label>

  /** How many keys have this many labels. */
  function AtDepth(keys: set<Key>, depth: nat): set<Key> {
    set k | k in keys && |k| == depth
  }

  predicate IsSuffix(k: Key, name: Key) {
    |k| <= |name| && name[|name| - |k|..] == k
  }

  /** The deepest match: the longest of the keys that is a suffix of the name. */
  ghost predicate Deepest(keys: set<Key>, name: Key, found: Option<Key>) {
    if found.None? then forall k | k in keys :: !IsSuffix(k, name)
    else found.value in keys && IsSuffix(found.value, name)
         && forall k | k in keys && IsSuffix(k, name) :: |k| <= |found.value|
  }

  class NameDict<V> {
    var store: map<Key, V>
    var maxDepth: nat
    var maxDepthItems: nat

    /** The bound on the depth holds although overwriting a key counts it again. */
    ghost predicate Valid()
      reads this
    {
      && (forall k | k in store :: |k| <= maxDepth)
      && maxDepthItems >= |AtDepth(store.Keys, maxDepth)|
    }

    constructor ()
      ensures Valid() && store == map[]
    {
      store := map[];
      maxDepth := 0;
      maxDepthItems := 0;
    }

    method UpdateMaxDepth(key: Key)
      modifies `maxDepth, `maxDepthItems
      ensures maxDepth == Max(old(maxDepth), |key|)
      ensures maxDepthItems == if |key| == old(maxDepth) then old(maxDepthItems) + 1
                               else if |key| > old(maxDepth) then 1 else old(maxDepthItems)
    {
      if |key| == maxDepth {
        maxDepthItems := maxDepthItems + 1;
      } else if |key| > maxDepth {
        maxDepth := |key|;
        maxDepthItems := 1;
      }
    }

    method Set(key: Key, value: V)
      requires Valid()
      modifies this
      ensures Valid() && store == old(store)[key := value]
    {
      store := store[key := value];
      UpdateMaxDepth(key);
      AtDepthAdd(old(store).Keys, key, old(maxDepth));
      AtDepthAdd(old(store).Keys, key, maxDepth);
      assert store.Keys == old(store).Keys + {key};
    }

    /** Deleting; the bound is computed anew when no key of the greatest depth can be left. */
    method Delete(key: Key) returns (keyError: bool)
      requires Valid()
      modifies this
      ensures Valid() && keyError == (key !in old(store))
      ensures store == old(store) - {key}
    {
      if key !in store {
        assert store - {key} == store;
        return true;
      }
      AtDepthRemove(store.Keys, key, maxDepth);
      store := store - {key};
      assert store.Keys == old(store).Keys - {key};
      if |key| == maxDepth {
        maxDepthItems := maxDepthItems - 1;
      }
      if maxDepthItems == 0 {
        Recount();
      }
      return false;
    }

    method Recount()
      requires maxDepthItems == 0
      modifies `maxDepth, `maxDepthItems
      ensures Valid()
    {
      maxDepth := 0;
      var rest := store.Keys;
      while rest != {}
        invariant rest <= store.Keys
        invariant forall k | k in store.Keys - rest :: |k| <= maxDepth
        invariant maxDepthItems >= |AtDepth(store.Keys - rest, maxDepth)|
        decreases rest
      {
        var k :| k in rest;
        AtDepthAdd(store.Keys - rest, k, maxDepth);
        AtDepthAdd(store.Keys - rest, k, Max(maxDepth, |k|));
        assert store.Keys - (rest - {k}) == store.Keys - rest + {k};
        UpdateMaxDepth(k);
        rest := rest - {k};
      }
      assert store.Keys - rest == store.Keys;
    }

    /** The key found is given as the suffix of the name that it equals. */
    method GetDeepestMatch(name: Key) returns (found: Option<(Key, V)>)
      requires Valid()
      ensures Deepest(store.Keys, name, if found.Some? then Some(found.value.0) else None)
      ensures found.Some? ==> store[found.value.0] == found.value.1
    {
      var depth := |name|;
      if depth > maxDepth {
        depth := maxDepth;
      }
      for i := -depth to 0
        invariant forall k | k in store && IsSuffix(k, name) :: |k| <= -i
      {
        var n := name[|name| + i..];
        if n in store {
          return Some((n, store[n]));
        }
        forall k | k in store && IsSuffix(k, name)
          ensures |k| < -i
        {
          assert |k| == -i ==> k == n;
        }
      }
      if [] in store {
        return Some(([], store[[]]));
      }
      return None;
    }
  }

  lemma AtDepthAdd(keys: set<Key>, key: Key, depth: nat)
    ensures |AtDepth(keys + {key}, depth)| <= |AtDepth(keys, depth)| + if |key| == depth then 1 else 0
    ensures (forall k | k in keys :: |k| < depth) ==> AtDepth(keys, depth) == {}
  {
    assert AtDepth(keys + {key}, depth)
           == AtDepth(keys, depth) + (if |key| == depth then {key} else {});
  }

  lemma AtDepthRemove(keys: set<Key>, key: Key, depth: nat)
    requires key in keys
    ensures |AtDepth(keys - {key}, depth)| == |AtDepth(keys, depth)| - if |key| == depth then 1 else 0
    ensures AtDepth(keys - {key}, depth) == {} ==> forall k | k in keys - {key} :: |k| != depth
  {
    assert AtDepth(keys - {key}, depth) == AtDepth(keys, depth) - {key};
    forall k | k in keys - {key} && |k| == depth
      ensures k in AtDepth(keys - {key}, depth)
    {
    }
  }
}
