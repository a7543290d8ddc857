/** Zones and their write transactions: `dns/transaction.py` over the store of `dns/zone.py` and
    `dns/node.py`. */
module ZoneStore {
  import opened Wrappers
  import opened Names
  import opened RdataTypes
  import opened Serials

  // An owner name, folded to lower case: what names are compared and looked up by.
  type Owner = seq<Label>

  // The serial matters for SOA data only; everything else is opaque.
  datatype Rdata = Rdata(serial: serial, rest: seq<byte>)

  datatype RRset_ = RRset_(owner: Owner, rdclass: nat, rdtype: nat, covers: nat, ttl: nat, items: seq<Rdata>)

  /** An RRset of a message: it holds at least one item, and one of a singleton type exactly one. */
  type RRset = r: RRset_ | r.items != [] && (IsSingleton(r.rdtype) ==> |r.items| == 1)
    witness RRset_([], 0, 0, 0, 0, [Rdata(0, [])])

  datatype Key = Key(owner: Owner, rdtype: nat, covers: nat)

  datatype Rdataset = Rdataset(ttl: nat, items: set<Rdata>)

  type Store = map<Key, Rdataset>

  datatype ZoneInfo = ZoneInfo(origin: Owner, rdclass: nat)

  datatype TxnError = WrongClass | NonOriginSoa | OutOfZone | DeleteNotExact | AlreadyEnded

  function KeyOf(r: RRset): Key {
    Key(r.owner, r.rdtype, r.covers)
  }

  function ItemSet(r: RRset): set<Rdata> {
    set x | x in r.items
  }

  function Serial(r: RRset): serial {
    r.items[0].serial
  }

  /** `RRset.__eq__`: the TTL does not count. */
  predicate SameRRset(a: RRset, b: RRset) {
    KeyOf(a) == KeyOf(b) && a.rdclass == b.rdclass && ItemSet(a) == ItemSet(b)
  }

  predicate InZone(owner: Owner, origin: Owner) {
    |origin| <= |owner| && owner[|owner| - |origin|..] == origin
  }

  // ---------- The store ----------

  datatype NodeKind = Regular | Neutral | Cname

  function Classify(rdtype: nat, covers: nat): NodeKind {
    if rdtype == CNAME || (rdtype == RRSIG && covers == CNAME) then Cname
    else if rdtype in {NSEC, NSEC3, KEY} || (rdtype == RRSIG && covers in {NSEC, NSEC3, KEY}) then Neutral
    else Regular
  }

  /** A CNAME and other data cannot stand at the same name: the newcomer evicts. */
  predicate Evicts(new_: Key, old_: Key) {
    && new_.owner == old_.owner
    && var (n, o) := (Classify(new_.rdtype, new_.covers), Classify(old_.rdtype, old_.covers));
    (n == Cname && o == Regular) || (n == Regular && o == Cname)
  }

  function Put(store: Store, key: Key, rds: Rdataset): Store {
    (map k | k in store && !Evicts(key, k) :: store[k])[key := rds]
  }

  /** Adding to what is there: the smaller TTL, and the union (a singleton type is replaced). */
  function Union(old_: Rdataset, r: RRset): Rdataset {
    Rdataset(Min(old_.ttl, r.ttl), if IsSingleton(r.rdtype) then ItemSet(r) else old_.items + ItemSet(r))
  }

  function CheckAdd(z: ZoneInfo, r: RRset): Option<TxnError> {
    if r.rdclass != z.rdclass then Some(WrongClass)
    else if r.rdtype == SOA && r.owner != z.origin then Some(NonOriginSoa)
    else if !InZone(r.owner, z.origin) then Some(OutOfZone)
    else None
  }

  function AddTo(z: ZoneInfo, store: Store, r: RRset): Result<Store, TxnError> {
    if CheckAdd(z, r).Some? then Failure(CheckAdd(z, r).value)
    else
      var k := KeyOf(r);
      Success(Put(store, k, if k in store then Union(store[k], r) else Rdataset(r.ttl, ItemSet(r))))
  }

  function ReplaceIn(z: ZoneInfo, store: Store, r: RRset): Result<Store, TxnError> {
    if CheckAdd(z, r).Some? then Failure(CheckAdd(z, r).value)
    else Success(Put(store, KeyOf(r), Rdataset(r.ttl, ItemSet(r))))
  }

  function DeleteFrom(z: ZoneInfo, store: Store, r: RRset): Result<Store, TxnError> {
    var k := KeyOf(r);
    if r.rdclass != z.rdclass then Failure(WrongClass)
    else if !InZone(r.owner, z.origin) then Failure(OutOfZone)
    else if k !in store || !(ItemSet(r) <= store[k].items) then Failure(DeleteNotExact)
    else
      var left := store[k].items - ItemSet(r);
      Success(if left == {} then store - {k} else Put(store, k, Rdataset(store[k].ttl, left)))
  }

  // ---------- Zones and transactions as objects ----------

  class Zone {
    const info: ZoneInfo
    var content: Store
    ghost var commits: nat

    constructor (info: ZoneInfo, content: Store)
      ensures this.info == info && this.content == content && commits == 0
    {
      this.info := info;
      this.content := content;
      commits := 0;
    }

    /** A transaction starts from a copy of the zone, or from nothing when it replaces the zone. */
    method Writer(replacement: bool) returns (txn: Transaction)
      ensures fresh(txn) && txn.zone == this && !txn.ended && !txn.changed
      ensures txn.rdatasets == if replacement then map[] else content
    {
      txn := new Transaction(this, if replacement then map[] else content);
    }
  }

  class Transaction {
    const zone: Zone
    var rdatasets: Store
    var changed: bool
    var ended: bool

    constructor (zone: Zone, rdatasets: Store)
      ensures this.zone == zone && this.rdatasets == rdatasets && !changed && !ended
    {
      this.zone := zone;
      this.rdatasets := rdatasets;
      changed := false;
      ended := false;
    }

    method PutRdataset(key: Key, rds: Rdataset)
      modifies this`rdatasets, this`changed
      ensures rdatasets == Put(old(rdatasets), key, rds) && changed
    {
      rdatasets := (map k | k in rdatasets && !Evicts(key, k) :: rdatasets[k])[key := rds];
      changed := true;
    }

    method AddOrReplace(replace: bool, r: RRset) returns (e: Option<TxnError>)
      modifies this`rdatasets, this`changed
      ensures !old(ended) ==>
                var result := if replace then ReplaceIn(zone.info, old(rdatasets), r)
                              else AddTo(zone.info, old(rdatasets), r);
                if e.Some? then result == Failure(e.value) && rdatasets == old(rdatasets) && changed == old(changed)
                else result == Success(rdatasets) && changed
      ensures old(ended) ==> e == Some(AlreadyEnded) && unchanged(this)
    {
      if ended {
        return Some(AlreadyEnded);
      }
      if r.rdclass != zone.info.rdclass {
        return Some(WrongClass);
      }
      if r.rdtype == SOA {
        if r.owner != zone.info.origin {
          return Some(NonOriginSoa);
        }
      }
      if !InZone(r.owner, zone.info.origin) {
        return Some(OutOfZone);
      }
      var rdataset := Rdataset(r.ttl, ItemSet(r));
      if !replace {
        if KeyOf(r) in rdatasets {
          rdataset := Union(rdatasets[KeyOf(r)], r);
        }
      }
      PutRdataset(KeyOf(r), rdataset);
      return None;
    }

    method DeleteExact(r: RRset) returns (e: Option<TxnError>)
      modifies this`rdatasets, this`changed
      ensures !old(ended) ==>
                var result := DeleteFrom(zone.info, old(rdatasets), r);
                if e.Some? then result == Failure(e.value) && rdatasets == old(rdatasets) && changed == old(changed)
                else result == Success(rdatasets) && changed
      ensures old(ended) ==> e == Some(AlreadyEnded) && unchanged(this)
    {
      if ended {
        return Some(AlreadyEnded);
      }
      if r.rdclass != zone.info.rdclass {
        return Some(WrongClass);
      }
      if !InZone(r.owner, zone.info.origin) {
        return Some(OutOfZone);
      }
      var key := KeyOf(r);
      if key !in rdatasets {
        return Some(DeleteNotExact);
      }
      var existing := rdatasets[key];
      var intersection := existing.items * ItemSet(r);
      if intersection != ItemSet(r) {
        return Some(DeleteNotExact);
      }
      var left := existing.items - ItemSet(r);
      if |left| == 0 {
        rdatasets := rdatasets - {key};
        changed := true;
      } else {
        PutRdataset(key, Rdataset(existing.ttl, left));
      }
      return None;
    }

    /** Ends the transaction; a commit that changed something becomes the zone's content. */
    method End(commit: bool) returns (e: Option<TxnError>)
      modifies this`ended, zone
      ensures old(ended) ==> e == Some(AlreadyEnded) && unchanged(this) && unchanged(zone)
      ensures !old(ended) ==>
                && e == None && ended
                && (if commit && changed then zone.content == rdatasets && zone.commits == old(zone.commits) + 1
                    else zone.content == old(zone.content) && zone.commits == old(zone.commits))
    {
      if ended {
        return Some(AlreadyEnded);
      }
      if commit && changed {
        zone.content := rdatasets;
        zone.commits := zone.commits + 1;
      }
      ended := true;
      return None;
    }
  }
}
