/** What stands beside what at one name, over every sequence of changes to a store. */
module StoreRuns {
  import opened Wrappers
  import opened Serials
  import opened ZoneStore
  import opened Xfr
  import opened Transfers

  /** A CNAME and its signatures. */
  predicate CnameData(k: Key) {
    k.rdtype == 5 || (k.rdtype == 46 && k.covers == 5)
  }

  /** KEY, NSEC and NSEC3, and their signatures, may stand beside anything. */
  predicate NeutralData(k: Key) {
    k.rdtype in {25, 47, 50} || (k.rdtype == 46 && k.covers in {25, 47, 50})
  }

  predicate OtherData(k: Key) {
    !CnameData(k) && !NeutralData(k)
  }

  /** Data of these types cannot stand at one name. */
  predicate Excludes(k: Key, o: Key) {
    k.owner == o.owner && ((CnameData(k) && OtherData(o)) || (OtherData(k) && CnameData(o)))
  }

  /** What an accepted addition or replacement leaves. The new data pushes out what it excludes; the
      rest stays as it is. */
  ghost predicate Stored(store: Store, r: RRset, replace: bool, after: Store) {
    var key := KeyOf(r);
    && (forall k :: k in after <==> k == key || (k in store && !Excludes(key, k)))
    && (forall k | k in after && k != key :: after[k] == store[k])
    && (if replace || key !in store then after[key].ttl == r.ttl && after[key].items == ItemSet(r)
        else && after[key].ttl <= r.ttl && after[key].ttl <= store[key].ttl
             && after[key].ttl in {r.ttl, store[key].ttl}
             && after[key].items == ItemSet(r) + if r.rdtype in {5, 6, 30, 39, 47} then {} else store[key].items)
  }

  lemma AddStores(z: ZoneInfo, store: Store, r: RRset, replace: bool)
    ensures var result := if replace then ReplaceIn(z, store, r) else AddTo(z, store, r);
            && (result.Success? <==>
                  && r.rdclass == z.rdclass && (r.rdtype == 6 ==> r.owner == z.origin)
                  && exists name :: r.owner == name + z.origin)
            && (result.Success? ==> Stored(store, r, replace, result.value))
  {
    InZoneMeans(r.owner, z.origin);
  }

  /** A deletion is accepted exactly when all of the data are there, and then they are not. */
  lemma DeleteRemoves(z: ZoneInfo, store: Store, r: RRset)
    requires Clean(store)
    ensures var (key, result) := (KeyOf(r), DeleteFrom(z, store, r));
            && (result.Success? <==>
                  && r.rdclass == z.rdclass && (exists name :: r.owner == name + z.origin)
                  && key in store && ItemSet(r) <= store[key].items)
            && (result.Success? ==>
                  && (forall k :: k in result.value
                                  <==> k in store && (k == key ==> exists x :: x in store[key].items && x !in r.items))
                  && (forall k | k in result.value && k != key :: result.value[k] == store[k])
                  && (key in result.value ==>
                        && result.value[key].items == store[key].items - ItemSet(r)
                        && result.value[key].ttl == store[key].ttl))
  {
    InZoneMeans(r.owner, z.origin);
    var key := KeyOf(r);
    if key in store {
      var left := store[key].items - ItemSet(r);
      assert left != {} <==> exists x :: x in store[key].items && x !in r.items by {
        assert forall x :: x in left <==> x in store[key].items && x !in r.items;
        if left != {} {
          var x :| x in left;
        }
      }
    }
  }

  lemma InZoneMeans(owner: Owner, origin: Owner)
    ensures InZone(owner, origin) <==> exists name :: owner == name + origin
  {
    if InZone(owner, origin) {
      assert owner == owner[..|owner| - |origin|] + origin;
    }
  }

  // ---------- Every sequence of changes ----------

  datatype Change = Add(r: RRset) | Replace(r: RRset) | Delete(r: RRset)

  /** A change that is refused changes nothing. */
  function Changed(z: ZoneInfo, store: Store, change: Change): Store {
    var result := match change
      case Add(r) => AddTo(z, store, r)
      case Replace(r) => ReplaceIn(z, store, r)
      case Delete(r) => DeleteFrom(z, store, r);
    if result.Success? then result.value else store
  }

  function Changes(z: ZoneInfo, store: Store, changes: seq<Change>): Store
    decreases changes
  {
    if changes == [] then store else Changes(z, Changed(z, store, changes[0]), changes[1..])
  }

  /** No name has both a CNAME and other data. */
  ghost predicate Clean(store: Store) {
    forall k, o | k in store && o in store :: !Excludes(k, o)
  }

  lemma ChangeKeepsClean(z: ZoneInfo, store: Store, change: Change)
    requires Clean(store)
    ensures Clean(Changed(z, store, change))
  {
    if !change.Delete? {
      AddStores(z, store, change.r, change.Replace?);
      hide AddTo, ReplaceIn;
    }
  }

  lemma {:induction false} ChangesKeepClean(z: ZoneInfo, store: Store, changes: seq<Change>)
    requires Clean(store)
    ensures Clean(Changes(z, store, changes))
    decreases changes
  {
    hide Changed, Clean;
    if changes != [] {
      ChangeKeepsClean(z, store, changes[0]);
      ChangesKeepClean(z, Changed(z, store, changes[0]), changes[1..]);
    }
  }

  // ---------- Transfers ----------

  ghost predicate CleanState(s: State) {
    Clean(s.zone) && (s.txn.Some? ==> Clean(s.txn.value))
  }

  lemma StepKeepsClean(z: ZoneInfo, s: State, r: RRset)
    requires Ready(s) && CleanState(s)
    ensures CleanState(Step(z, s, r).state)
  {
    if s.txn.Some? {
      ChangeKeepsClean(z, s.txn.value, Add(r));
      ChangeKeepsClean(z, map[], Add(r));
      ChangeKeepsClean(z, s.txn.value, Replace(r));
      ChangeKeepsClean(z, s.txn.value, Delete(r));
    }
    hide Clean, AddTo, ReplaceIn, DeleteFrom, SameRRset;
  }

  lemma {:induction false} StepsKeepClean(z: ZoneInfo, s: State, rs: seq<RRset>)
    requires Ready(s) && CleanState(s)
    ensures CleanState(Steps(z, s, rs).state)
    decreases rs
  {
    hide Step, CleanState;
    if rs != [] {
      StepKeepsClean(z, s, rs[0]);
      if Step(z, s, rs[0]).error.None? {
        StepsKeepClean(z, Step(z, s, rs[0]).state, rs[1..]);
      }
    }
  }

  lemma {:induction false} ProcessKeepsClean(z: ZoneInfo, s: State, m: Message, isUdp: bool)
    requires CleanState(s)
    ensures CleanState(Process(z, s, m, isUdp).state)
  {
    hide Step, Clean;
    var t := Open(s);
    assert CleanState(t) by {
      EmptyClean();
    }
    if t.soa.Some? {
      StepsKeepClean(z, t, m.answer);
    } else {
      var o := FirstRecord(z, t, m.answer, isUdp);
      if o.error.None? {
        StepsKeepClean(z, o.state, m.answer[1..]);
      }
    }
  }

  lemma EmptyClean()
    ensures Clean(map[])
  {
  }

  /** Whatever a server sends, a zone that was clean stays so. */
  lemma {:induction false} HistoryKeepsClean(z: ZoneInfo, s: State, ms: seq<Message>, isUdp: bool)
    requires CleanState(s)
    ensures CleanState(History(z, s, ms, isUdp))
    decreases ms
  {
    hide Process, CleanState;
    if ms != [] {
      ProcessKeepsClean(z, s, ms[0], isUdp);
      HistoryKeepsClean(z, Process(z, s, ms[0], isUdp).state, ms[1..], isUdp);
    }
  }
}
