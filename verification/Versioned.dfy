/** A zone with several versions, one writer and any number of readers: `dns/versioned.py`. */
module Versioned {
  import opened Wrappers
  import opened Names
  import opened Serials

  // The content of a zone: the serial of its SOA, if it has one, and the rest.
  datatype Nodes = Nodes(soa: Option<serial>, rest: seq<byte>)

  const EMPTY_NODES := Nodes(None, [])

  datatype Version = Version(id: nat, nodes: Nodes)

  /** Whether to prune the oldest of the versions. */
  type Policy = (seq<Version>, Version) -> bool

  const DEFAULT_POLICY: Policy := (versions, oldest) => true

  function MaxPolicy(most: Option<int>): Policy {
    (versions, oldest) => most.Some? && |versions| > most.value
  }

  predicate Prunes(policy: Policy, versions: seq<Version>)
    requires versions != []
  {
    policy(versions, versions[0])
  }

  function PolicyOr(pruning: Option<Policy>): Policy {
    if pruning.Some? then pruning.value else DEFAULT_POLICY
  }

  /** The fields guarded by the lock, over the identities of events, writers and readers. */
  datatype State<+E, +W, R> = State(
    versions: seq<Version>, nodes: Nodes, writeTxn: Option<W>, writeEvent: Option<E>, waiters: seq<E>,
    readers: map<R, Version>, policy: Policy)

  function Last(versions: seq<Version>): Version
    requires versions != []
  {
    versions[|versions| - 1]
  }

  predicate Consecutive(versions: seq<Version>) {
    forall i | 0 <= i < |versions| :: versions[i].id == versions[0].id + i
  }

  function NextId(versions: seq<Version>): nat {
    if versions != [] then Last(versions).id + 1 else 1
  }

  // ---------- Pruning ----------

  ghost predicate IsLeast(m: nat, ids: set<nat>) {
    m in ids && forall x | x in ids :: m <= x
  }

  lemma {:induction false} LeastExists(ids: set<nat>)
    requires ids != {}
    ensures exists m :: IsLeast(m, ids)
    decreases ids
  {
    var m :| m in ids;
    if ids == {m} {
      assert IsLeast(m, ids);
    } else {
      LeastExists(ids - {m});
      var n :| IsLeast(n, ids - {m});
      assert forall x | x in ids :: x == m || x in ids - {m};
      if n < m {
        assert IsLeast(n, ids);
      } else {
        assert IsLeast(m, ids);
      }
    }
  }

  ghost function Least(ids: set<nat>): (m: nat)
    requires ids != {}
    ensures IsLeast(m, ids)
  {
    LeastExists(ids);
    var m :| IsLeast(m, ids);
    m
  }

  function PinnedIds<R>(readers: map<R, Version>): set<nat> {
    set r | r in readers :: readers[r].id
  }

  /** No version from this one on is pruned: the oldest that a reader has open, or the newest. */
  ghost function LeastKept<E, W, R>(s: State<E, W, R>): nat
    requires s.versions != []
  {
    if PinnedIds(s.readers) != {} then Least(PinnedIds(s.readers)) else Last(s.versions).id
  }

  predicate Prunable(versions: seq<Version>, least: nat) {
    versions != [] && Consecutive(versions) && least <= Last(versions).id
  }

  /** Below the least version kept there is always another one: the loop cannot run off the versions. */
  lemma PrunableStep(versions: seq<Version>, least: nat)
    requires Prunable(versions, least) && versions[0].id < least
    ensures Prunable(versions[1..], least) && Last(versions[1..]) == Last(versions)
  {
  }

  /** The prune loop. */
  function Pruned(versions: seq<Version>, least: nat, policy: Policy): seq<Version>
    requires Prunable(versions, least)
    decreases |versions|
  {
    if versions[0].id < least && Prunes(policy, versions)
    then PrunableStep(versions, least); Pruned(versions[1..], least, policy)
    else versions
  }

  /** Pruning leaves the newest versions, and none from `least` on goes. */
  lemma {:induction false} PrunedShape(versions: seq<Version>, least: nat, policy: Policy)
    requires Prunable(versions, least)
    ensures var kept := Pruned(versions, least, policy);
            && Prunable(kept, least) && Last(kept) == Last(versions)
            && |kept| <= |versions| && kept == versions[|versions| - |kept|..]
            && (|kept| < |versions| ==> versions[|versions| - |kept| - 1].id < least)
    decreases |versions|
  {
    if versions[0].id < least && Prunes(policy, versions) {
      PrunableStep(versions, least);
      assert versions != [];
      hide Prunable;
      PrunedShape(versions[1..], least, policy);
    }
  }

  // ---------- The steps taken under the lock ----------

  predicate Retaining<E, W, R>(s: State<E, W, R>) {
    && s.versions != [] && Consecutive(s.versions)
    && forall r | r in s.readers :: s.readers[r] in s.versions
  }

  lemma LeastKeptBound<E, W, R>(s: State<E, W, R>)
    requires Retaining(s)
    ensures s.versions[0].id <= LeastKept(s) <= Last(s.versions).id
    ensures forall r | r in s.readers :: LeastKept(s) <= s.readers[r].id
  {
    forall r | r in s.readers
      ensures LeastKept(s) <= s.readers[r].id
    {
      assert s.readers[r].id in PinnedIds(s.readers);
    }
    if PinnedIds(s.readers) != {} {
      var r :| r in s.readers && s.readers[r].id == Least(PinnedIds(s.readers));
      assert s.readers[r] in s.versions;
    }
  }

  ghost function Prune<E, W, R>(s: State<E, W, R>): State<E, W, R>
    requires Retaining(s)
  {
    LeastKeptBound(s);
    s.(versions := Pruned(s.versions, LeastKept(s), s.policy))
  }

  /** A writer may begin when there is none and it is its turn: nobody has been woken, or it was. */
  predicate MayWrite<E(==), W, R>(s: State<E, W, R>, event: Option<E>) {
    s.writeTxn.None? && event == s.writeEvent
  }

  function BeginWrite<E, W, R>(s: State<E, W, R>, txn: W): State<E, W, R> {
    s.(writeTxn := Some(txn), writeEvent := None)
  }

  function Enqueue<E, W, R>(s: State<E, W, R>, event: E): State<E, W, R> {
    s.(waiters := s.waiters + [event])
  }

  function WakeOne<E, W, R>(s: State<E, W, R>): State<E, W, R> {
    if |s.waiters| > 0 then s.(writeEvent := Some(s.waiters[0]), waiters := s.waiters[1..]) else s
  }

  function EndWrite<E, W, R>(s: State<E, W, R>): State<E, W, R> {
    WakeOne(s.(writeTxn := None))
  }

  predicate Fits<E, W, R>(s: State<E, W, R>, version: Version) {
    version.id == NextId(s.versions)
  }

  lemma AppendRetains<E, W, R>(s: State<E, W, R>, version: Version)
    requires Retaining(s) && Fits(s, version)
    ensures Retaining(s.(versions := s.versions + [version]))
  {
  }

  ghost function CommitVersion<E, W, R>(s: State<E, W, R>, version: Version): State<E, W, R>
    requires Retaining(s) && Fits(s, version)
  {
    AppendRetains(s, version);
    EndWrite(Prune(s.(versions := s.versions + [version])).(nodes := version.nodes))
  }

  function OpenReader<E, W, R>(s: State<E, W, R>, r: R, version: Version): State<E, W, R> {
    s.(readers := s.readers[r := version])
  }

  ghost function EndRead<E, W, R>(s: State<E, W, R>, r: R): State<E, W, R>
    requires Retaining(s)
  {
    Prune(s.(readers := s.readers - {r}))
  }

  ghost function SetPolicy<E, W, R>(s: State<E, W, R>, policy: Policy): State<E, W, R>
    requires Retaining(s)
  {
    Prune(s.(policy := policy))
  }

  // ---------- Finding a version ----------

  datatype Wanted = Newest | ById(id: int) | BySerial(serial: serial)

  predicate Matches(v: Version, wanted: Wanted) {
    match wanted
    case Newest => true
    case ById(id) => v.id == id
    case BySerial(serial) => v.nodes.soa == Some(serial)
  }

  /** The newest version that matches. */
  ghost predicate Finds(versions: seq<Version>, wanted: Wanted, found: Option<Version>) {
    if found.None? then forall v | v in versions :: !Matches(v, wanted)
    else exists i | 0 <= i < |versions| ::
           && versions[i] == found.value && Matches(versions[i], wanted)
           && forall j | i < j < |versions| :: !Matches(versions[j], wanted)
  }

  // ---------- The zone as an object ----------

  class Event {
    var isSet: bool

    constructor ()
      ensures !isSet
    {
      isSet := false;
    }
  }

  class Reader {
    const version: Version

    constructor (version: Version)
      ensures this.version == version
    {
      this.version := version;
    }
  }

  class Writer {
    const replacement: bool
    var version: Option<Version>

    constructor (replacement: bool)
      ensures this.replacement == replacement && version == None
    {
      this.replacement := replacement;
      version := None;
    }

    /** The deferred set-up: the next id, and a copy of the zone unless it is to be replaced. */
    method SetupVersion(zone: Zone)
      requires version == None
      modifies this
      ensures version == Some(Version(NextId(zone.versions), if replacement then EMPTY_NODES else zone.nodes))
    {
      version := Some(Version(NextId(zone.versions), if replacement then EMPTY_NODES else zone.nodes));
    }
  }

  datatype ReaderError = IdAndSerial | IdNotFound | SerialNotFound

  class Zone {
    var versions: seq<Version>
    var nodes: Nodes
    var writeTxn: Writer?
    var writeEvent: Event?
    var waiters: seq<Event>
    var readers: set<Reader>
    var policy: Policy

    ghost function Pins(): map<Reader, Version>
      reads `readers
    {
      map r | r in readers :: r.version
    }

    ghost function Abstract(): State<Event, Writer, Reader>
      reads this
    {
      State(versions, nodes, if writeTxn == null then None else Some(writeTxn),
            if writeEvent == null then None else Some(writeEvent), waiters,
            Pins(), policy)
    }

    ghost predicate Valid()
      reads this
    {
      Retaining(Abstract())
    }

    /** A new zone has one version, the empty one. */
    constructor (pruning: Option<Policy>)
      ensures Valid()
      ensures Abstract() == State([Version(1, EMPTY_NODES)], EMPTY_NODES, None, None, [], map[],
                                  PolicyOr(pruning))
    {
      policy := PolicyOr(pruning);
      writeTxn, writeEvent, waiters, readers := null, null, [], {};
      versions := [Version(1, EMPTY_NODES)];
      nodes := EMPTY_NODES;
      new;
      PruneVersions();
    }

    method LeastVersionKept() returns (least: nat)
      requires Valid()
      ensures least == LeastKept(Abstract())
    {
      LeastKeptBound(Abstract());
      if |readers| > 0 {
        var first :| first in readers;
        least := first.version.id;
        var rest := readers - {first};
        while rest != {}
          invariant rest <= readers
          invariant exists r | r in readers - rest :: r.version.id == least
          invariant forall r | r in readers - rest :: least <= r.version.id
          decreases rest
        {
          var r :| r in rest;
          least := if r.version.id < least then r.version.id else least;
          rest := rest - {r};
        }
        assert forall r | r in readers :: Pins()[r].id in PinnedIds(Pins());
        assert IsLeast(least, PinnedIds(Pins()));
      } else {
        assert Pins() == map[];
        least := versions[|versions| - 1].id;
      }
    }

    method PruneBelow(least: nat)
      requires Prunable(versions, least)
      modifies `versions
      ensures versions == Pruned(old(versions), least, policy)
    {
      hide Consecutive, Last;
      while versions[0].id < least && Prunes(policy, versions)
        invariant Prunable(versions, least)
        invariant Pruned(versions, least, policy) == Pruned(old(versions), least, policy)
        decreases |versions|
      {
        PrunableStep(versions, least);
        versions := versions[1..];
      }
    }

    method PruneVersions()
      requires Valid()
      modifies `versions
      ensures Valid() && Abstract() == Prune(old(Abstract()))
    {
      var least := LeastVersionKept();
      LeastKeptBound(Abstract());
      PruneRetains(Abstract());
      hide Pruned;
      PruneBelow(least);
    }

    method MaybeWakeupOneWaiter()
      modifies `writeEvent, `waiters, if waiters == [] then {} else {waiters[0]}
      ensures Abstract() == WakeOne(old(Abstract()))
      ensures old(waiters) != [] ==> old(waiters)[0].isSet
    {
      if |waiters| > 0 {
        writeEvent := waiters[0];
        waiters := waiters[1..];
        writeEvent.isSet := true;
      }
    }

    /** What `writer` does each time it holds the lock: it gets the transaction, or an event to wait for. */
    method TryWriter(replacement: bool, event: Event?) returns (txn: Writer?, waiting: Event?)
      modifies `writeTxn, `writeEvent, `waiters
      ensures if MayWrite(old(Abstract()), if event == null then None else Some(event))
              then && txn != null && waiting == null && fresh(txn) && txn.replacement == replacement
                   && Abstract() == BeginWrite(old(Abstract()), txn)
              else && txn == null && waiting != null && fresh(waiting) && !waiting.isSet
                   && Abstract() == Enqueue(old(Abstract()), waiting)
    {
      if writeTxn == null && event == writeEvent {
        txn := new Writer(replacement);
        writeTxn := txn;
        writeEvent := null;
        waiting := null;
      } else {
        waiting := new Event();
        waiters := waiters + [waiting];
        txn := null;
      }
    }

    method EndWriteTxn(txn: Writer)
      requires writeTxn == txn
      modifies `writeTxn, `writeEvent, `waiters, if waiters == [] then {} else {waiters[0]}
      ensures Abstract() == EndWrite(old(Abstract()))
      ensures old(waiters) != [] ==> old(waiters)[0].isSet
    {
      writeTxn := null;
      MaybeWakeupOneWaiter();
    }

    method Commit(txn: Writer, version: Version)
      requires Valid() && writeTxn == txn && Fits(Abstract(), version)
      modifies `versions, `nodes, `writeTxn, `writeEvent, `waiters, if waiters == [] then {} else {waiters[0]}
      ensures Valid() && Abstract() == CommitVersion(old(Abstract()), version)
      ensures old(waiters) != [] ==> old(waiters)[0].isSet
    {
      AppendRetains(Abstract(), version);
      hide Retaining, Prune;
      versions := versions + [version];
      PruneVersions();
      nodes := version.nodes;
      EndWriteTxn(txn);
    }

    method FindVersion(wanted: Wanted) returns (found: Option<Version>)
      requires Valid()
      ensures Finds(versions, wanted, found) && (wanted == Newest ==> found == Some(Last(versions)))
    {
      for i := |versions| downto 0
        invariant forall j | i <= j < |versions| :: !Matches(versions[j], wanted)
      {
        if Matches(versions[i], wanted) {
          return Some(versions[i]);
        }
      }
      return None;
    }

    method OpenRead(id: Option<int>, serial: Option<serial>) returns (result: Result<Reader, ReaderError>)
      requires Valid()
      modifies `readers
      ensures Valid()
      ensures id.Some? && serial.Some? ==> result == Failure(IdAndSerial)
      ensures result.Failure? ==> Abstract() == old(Abstract())
      ensures !(id.Some? && serial.Some?) ==>
                var wanted := if id.Some? then ById(id.value)
                              else if serial.Some? then BySerial(serial.value) else Newest;
                if result.Success?
                then && fresh(result.value) && Finds(versions, wanted, Some(result.value.version))
                     && Abstract() == OpenReader(old(Abstract()), result.value, result.value.version)
                else && Finds(versions, wanted, None)
                     && result.error == if id.Some? then IdNotFound else SerialNotFound
    {
      if id.Some? && serial.Some? {
        return Failure(IdAndSerial);
      }
      var version: Option<Version>;
      if id.Some? {
        version := FindVersion(ById(id.value));
        if version.None? {
          return Failure(IdNotFound);
        }
      } else if serial.Some? {
        version := FindVersion(BySerial(serial.value));
        if version.None? {
          return Failure(SerialNotFound);
        }
      } else {
        version := FindVersion(Newest);
      }
      var reader := new Reader(version.value);
      assert version.value in versions;
      readers := readers + {reader};
      assert Pins() == old(Pins())[reader := version.value];
      return Success(reader);
    }

    method EndReader(reader: Reader)
      requires Valid() && reader in readers
      modifies `readers, `versions
      ensures Valid() && Abstract() == EndRead(old(Abstract()), reader)
    {
      readers := readers - {reader};
      assert Pins() == old(Pins()) - {reader};
      PruneVersions();
    }

    method SetPruningPolicy(pruning: Option<Policy>)
      requires Valid()
      modifies `policy, `versions
      ensures Valid()
      ensures Abstract() == SetPolicy(old(Abstract()), PolicyOr(pruning))
    {
      policy := PolicyOr(pruning);
      PruneVersions();
    }

    method SetMaxVersions(most: Option<int>) returns (valueError: bool)
      requires Valid()
      modifies `policy, `versions
      ensures Valid() && valueError == (most.Some? && most.value < 1)
      ensures Abstract() == if valueError then old(Abstract()) else SetPolicy(old(Abstract()), MaxPolicy(most))
    {
      if most.Some? && most.value < 1 {
        return true;
      }
      SetPruningPolicy(Some(MaxPolicy(most)));
      return false;
    }
  }

  /** Pruning keeps the newest version and every version that a reader has open. */
  lemma PruneRetains<E, W, R>(s: State<E, W, R>)
    requires Retaining(s)
    ensures Retaining(Prune(s)) && Last(Prune(s).versions) == Last(s.versions)
  {
    LeastKeptBound(s);
    PrunedShape(s.versions, LeastKept(s), s.policy);
    hide Pruned, LeastKept;
    forall r | r in s.readers
      ensures s.readers[r] in Prune(s).versions
    {
      KeptFrom(s.versions, |s.versions| - |Prune(s).versions|, LeastKept(s), s.readers[r]);
    }
  }

  lemma KeptFrom(versions: seq<Version>, n: nat, least: nat, v: Version)
    requires n < |versions| && Consecutive(versions) && (n > 0 ==> versions[n - 1].id < least)
    requires v in versions && v.id >= least
    ensures v in versions[n..]
  {
    var i :| 0 <= i < |versions| && versions[i] == v;
    if n > 0 {
      assert versions[n - 1].id == versions[0].id + n - 1;
    }
    assert versions[n..][i - n] == v;
  }
}
