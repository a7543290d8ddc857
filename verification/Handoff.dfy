/** Any number of callers of a versioned zone, interleaved in any way: `dns/versioned.py`. */
module Handoff {
  import opened Wrappers
  import opened Versioned

  // An event is told apart by who waits for it and when it was made.
  datatype WaitEvent = WaitEvent(waiter: nat, number: nat)

  /** Where a caller of `writer` is: about to take the lock, waiting outside it, given the transaction
      but before its set-up, or writing. */
  datatype Pc =
    | Outside
    | Calling(woken: Option<WaitEvent>, replacement: bool)
    | Waiting(event: WaitEvent, replacement: bool)
    | Claimed(replacement: bool)
    | Writing(version: Version)

  /** `zone` is what the lock guards; `signalled` are the events set so far. */
  datatype System = System(
    zone: State<WaitEvent, nat, nat>, callers: map<nat, Pc>, made: nat, signalled: set<WaitEvent>)

  datatype Action =
    | Call(caller: nat, replacement: bool)
    | TakeLock(caller: nat)
    | WakeUp(caller: nat)
    | SetUp(caller: nat)
    | Commit(caller: nat, nodes: Nodes)
    | Rollback(caller: nat)
    | OpenRead(reader: nat, version: Version)
    | CloseRead(reader: nat)
    | SetPruningPolicy(policy: Policy)

  function At(s: System, caller: nat): Pc {
    if caller in s.callers then s.callers[caller] else Outside
  }

  function Move(s: System, caller: nat, pc: Pc): System {
    s.(callers := s.callers[caller := pc])
  }

  predicate Owns(s: System, caller: nat) {
    At(s, caller).Claimed? || At(s, caller).Writing?
  }

  /** The caller has this event: it waits for it, or was woken by it. */
  predicate Has(s: System, caller: nat, event: WaitEvent) {
    || (At(s, caller).Waiting? && At(s, caller).event == event)
    || (At(s, caller).Calling? && At(s, caller).woken == Some(event))
  }

  function Wake(s: System): set<WaitEvent> {
    if s.zone.waiters != [] then s.signalled + {s.zone.waiters[0]} else s.signalled
  }

  // ---------- One atomic step ----------

  /** A woken caller can go on; a transaction is ended by its owner; a reader opens a version that is
      there and is closed once. Everything else may happen at any time. */
  predicate Enabled(s: System, a: Action) {
    match a
    case Call(c, _) => At(s, c).Outside?
    case TakeLock(c) => At(s, c).Calling?
    case WakeUp(c) => At(s, c).Waiting? && At(s, c).event in s.signalled
    case SetUp(c) => At(s, c).Claimed?
    case Commit(c, _) => At(s, c).Writing?
    case Rollback(c) => At(s, c).Writing?
    case OpenRead(r, v) => r !in s.zone.readers && v in s.zone.versions
    case CloseRead(r) => r in s.zone.readers
    case SetPruningPolicy(_) => true
  }

  predicate EndsWrite(s: System, a: Action) {
    Enabled(s, a) && (a.Commit? || a.Rollback?)
  }

  function LockTaken(s: System, c: nat): System
    requires At(s, c).Calling?
  {
    var pc := At(s, c);
    if MayWrite(s.zone, pc.woken) then Move(s.(zone := BeginWrite(s.zone, c)), c, Claimed(pc.replacement))
    else
      var event := WaitEvent(c, s.made);
      Move(s.(zone := Enqueue(s.zone, event), made := s.made + 1), c, Waiting(event, pc.replacement))
  }

  predicate Sound(s: System) {
    && Retaining(s.zone) && s.zone.nodes == Last(s.zone.versions).nodes
    && forall c | c in s.callers :: At(s, c).Writing? ==> Fits(s.zone, At(s, c).version)
  }

  /** One step; an action that is not possible changes nothing. */
  ghost function Next(s: System, a: Action): System
    requires Sound(s)
  {
    if !Enabled(s, a) then s
    else match a
      case Call(c, replacement) => Move(s, c, Calling(None, replacement))
      case TakeLock(c) => LockTaken(s, c)
      case WakeUp(c) => Move(s, c, Calling(Some(At(s, c).event), At(s, c).replacement))
      case SetUp(c) =>
        var nodes := if At(s, c).replacement then EMPTY_NODES else s.zone.nodes;
        Move(s, c, Writing(Version(NextId(s.zone.versions), nodes)))
      case Commit(c, nodes) =>
        var version := Version(At(s, c).version.id, nodes);
        Move(s.(zone := CommitVersion(s.zone, version), signalled := Wake(s)), c, Outside)
      case Rollback(c) => Move(s.(zone := EndWrite(s.zone), signalled := Wake(s)), c, Outside)
      case OpenRead(r, v) => s.(zone := OpenReader(s.zone, r, v))
      case CloseRead(r) => s.(zone := EndRead(s.zone, r))
      case SetPruningPolicy(p) => s.(zone := SetPolicy(s.zone, p))
  }

  // ---------- What every step keeps ----------

  /** Exactly the caller that the zone names has the transaction. */
  ghost predicate Exclusive(s: System) {
    forall c: nat :: Owns(s, c) <==> s.zone.writeTxn == Some(c)
  }

  /** Nobody waits unless somebody writes or has been woken; and nobody is woken while another writes. */
  predicate HandedOver(s: System) {
    && (s.zone.writeEvent.Some? ==> s.zone.writeTxn.None?)
    && (s.zone.waiters != [] ==> s.zone.writeTxn.Some? || s.zone.writeEvent.Some?)
  }

  /** The events in the order they were made: the one woken, then those waiting. */
  function Queue(s: System): seq<WaitEvent> {
    if s.zone.writeEvent.Some? then [s.zone.writeEvent.value] + s.zone.waiters else s.zone.waiters
  }

  ghost predicate Ascending(queue: seq<WaitEvent>, made: nat) {
    && (forall i, j | 0 <= i < j < |queue| :: queue[i].number < queue[j].number)
    && (forall e | e in queue :: e.number < made)
  }

  lemma AscendingTail(queue: seq<WaitEvent>, made: nat)
    requires Ascending(queue, made) && queue != []
    ensures Ascending(queue[1..], made) && queue[0] !in queue[1..]
  {
    assert forall e | e in queue[1..] :: e in queue;
  }

  lemma AscendingSnoc(queue: seq<WaitEvent>, made: nat, e: WaitEvent)
    requires Ascending(queue, made) && e.number == made
    ensures Ascending(queue + [e], made + 1) && e !in queue
  {
  }

  /** Every waiting caller is in the queue with its own event, and the other way around; only the
      first of the queue has been woken, and only if nobody writes. */
  ghost predicate Paired(s: System) {
    && (forall c: nat, e | Has(s, c, e) :: e.waiter == c && e in Queue(s))
    && (forall e | e in Queue(s) :: Has(s, e.waiter, e))
    && (forall e | e in s.zone.waiters :: At(s, e.waiter).Waiting? && e !in s.signalled)
    && (s.zone.writeEvent.Some? ==> s.zone.writeEvent.value in s.signalled)
    && (forall e | e in s.signalled :: e.number < s.made)
  }

  ghost predicate Inv(s: System) {
    Sound(s) && Exclusive(s) && HandedOver(s) && Ascending(Queue(s), s.made) && Paired(s)
  }

  function Initial(policy: Policy): System {
    System(State([Version(1, EMPTY_NODES)], EMPTY_NODES, None, None, [], map[], policy), map[], 0, {})
  }

  lemma InitialInv(policy: Policy)
    ensures Inv(Initial(policy))
  {
  }

  /** Only this caller has moved. */
  ghost predicate OnlyMoved(s: System, t: System, c: nat) {
    forall x: nat | x != c :: At(t, x) == At(s, x)
  }

  lemma SoundMoved(s: System, t: System, c: nat)
    requires Sound(s) && OnlyMoved(s, t, c)
    requires t.zone.versions == s.zone.versions && t.zone.nodes == s.zone.nodes && t.zone.readers == s.zone.readers
    requires At(t, c).Writing? ==> Fits(t.zone, At(t, c).version)
    ensures Sound(t)
  {
    assert forall x | x in t.callers && x != c && At(t, x).Writing? :: x in s.callers;
  }

  lemma ExclusiveMoved(s: System, t: System, c: nat)
    requires Exclusive(s) && OnlyMoved(s, t, c)
    requires Owns(t, c) <==> t.zone.writeTxn == Some(c)
    requires forall x: nat | x != c :: s.zone.writeTxn == Some(x) <==> t.zone.writeTxn == Some(x)
    ensures Exclusive(t)
  {
    forall x: nat
      ensures Owns(t, x) <==> t.zone.writeTxn == Some(x)
    {
      assert Owns(s, x) <==> s.zone.writeTxn == Some(x);
    }
  }

  lemma CallKeeps(s: System, c: nat, replacement: bool)
    requires Inv(s) && At(s, c).Outside?
    ensures Inv(Move(s, c, Calling(None, replacement)))
  {
    var t := Move(s, c, Calling(None, replacement));
    assert OnlyMoved(s, t, c);
    SoundMoved(s, t, c);
    assert Exclusive(t) by {
      assert Owns(s, c) <==> s.zone.writeTxn == Some(c);
      ExclusiveMoved(s, t, c);
    }
    assert forall x: nat, e :: Has(t, x, e) <==> Has(s, x, e);
    hide Sound, Exclusive, Ascending;
  }

  lemma ClaimPaired(s: System, t: System, c: nat)
    requires Paired(s) && At(s, c).Calling? && At(s, c).woken == s.zone.writeEvent
    requires OnlyMoved(s, t, c) && At(t, c).Claimed?
    requires t.zone.writeEvent.None? && t.zone.waiters == s.zone.waiters
    requires t.signalled == s.signalled && t.made == s.made
    requires s.zone.writeEvent.Some? ==> s.zone.writeEvent.value !in s.zone.waiters
    ensures Paired(t)
  {
    hide At;
    assert s.zone.writeEvent.Some? ==> s.zone.writeEvent.value in Queue(s);
    assert forall x: nat, e | Has(t, x, e) :: Has(s, x, e) && x != c;
    assert forall e | e in s.zone.waiters :: e in Queue(s);
    assert s.zone.writeEvent.Some? ==> Has(s, c, s.zone.writeEvent.value);
    forall x: nat, e | Has(t, x, e)
      ensures e in Queue(t)
    {
      assert Has(s, x, e);
    }
  }

  /** The caller that was woken gets the transaction, and nobody else can. */
  lemma ClaimKeeps(s: System, c: nat)
    requires Inv(s) && At(s, c).Calling? && MayWrite(s.zone, At(s, c).woken)
    ensures Inv(LockTaken(s, c)) && Owns(LockTaken(s, c), c)
  {
    var t := LockTaken(s, c);
    assert OnlyMoved(s, t, c);
    SoundMoved(s, t, c);
    ExclusiveMoved(s, t, c);
    hide Sound, Exclusive, Ascending, Paired;
    if s.zone.writeEvent.Some? {
      AscendingTail(Queue(s), s.made);
      assert Queue(s)[1..] == s.zone.waiters;
    }
    ClaimPaired(s, t, c);
  }

  lemma EnqueuePaired(s: System, t: System, c: nat, e: WaitEvent)
    requires Paired(s) && At(s, c).Calling? && At(s, c).woken.None?
    requires OnlyMoved(s, t, c) && At(t, c).Waiting? && At(t, c).event == e && e.waiter == c
    requires t.zone.writeEvent == s.zone.writeEvent && t.zone.waiters == s.zone.waiters + [e]
    requires t.signalled == s.signalled && t.made == s.made + 1 && e.number == s.made
    ensures Paired(t)
  {
    hide At;
    assert Queue(t) == Queue(s) + [e];
    assert forall x: nat, f | Has(t, x, f) :: (x == c && f == e) || Has(s, x, f);
    assert forall f | f in s.zone.waiters :: Has(s, f.waiter, f) && f.waiter != c;
  }

  /** A newcomer that does not get the transaction joins the end of the queue. */
  lemma EnqueueKeeps(s: System, c: nat)
    requires Inv(s) && At(s, c).Calling? && !MayWrite(s.zone, At(s, c).woken)
    ensures Inv(LockTaken(s, c)) && At(s, c).woken.None?
  {
    var t := LockTaken(s, c);
    assert OnlyMoved(s, t, c);
    SoundMoved(s, t, c);
    assert Exclusive(t) by {
      assert Owns(s, c) <==> s.zone.writeTxn == Some(c);
      ExclusiveMoved(s, t, c);
    }
    if At(s, c).woken.Some? {
      WokenIsFirst(s, c);
    }
    hide Sound, Exclusive, Ascending, Paired;
    AscendingSnoc(Queue(s), s.made, WaitEvent(c, s.made));
    assert Queue(t) == Queue(s) + [WaitEvent(c, s.made)];
    EnqueuePaired(s, t, c, WaitEvent(c, s.made));
  }

  /** A caller that comes back from waiting is the one whose turn it is. */
  lemma WokenIsFirst(s: System, c: nat)
    requires Inv(s) && At(s, c).Calling? && At(s, c).woken.Some?
    ensures MayWrite(s.zone, At(s, c).woken)
  {
    assert Has(s, c, At(s, c).woken.value);
  }

  lemma WakeUpPaired(s: System, t: System, c: nat)
    requires Paired(s) && At(s, c).Waiting? && At(s, c).event !in s.zone.waiters
    requires OnlyMoved(s, t, c) && At(t, c).Calling? && At(t, c).woken == Some(At(s, c).event)
    requires t.zone == s.zone && t.signalled == s.signalled && t.made == s.made
    ensures Paired(t)
  {
    hide At;
    assert Queue(t) == Queue(s);
    assert forall x: nat, f :: Has(t, x, f) <==> Has(s, x, f);
    assert forall f | f in s.zone.waiters :: Has(s, f.waiter, f) by {
      assert forall f | f in s.zone.waiters :: f in Queue(s);
    }
  }

  lemma WakeUpKeeps(s: System, c: nat)
    requires Inv(s) && Enabled(s, WakeUp(c))
    ensures Inv(Next(s, WakeUp(c))) && s.zone.writeEvent == Some(At(s, c).event)
  {
    var e := At(s, c).event;
    var t := Next(s, WakeUp(c));
    assert OnlyMoved(s, t, c);
    SoundMoved(s, t, c);
    assert Exclusive(t) by {
      assert Owns(s, c) <==> s.zone.writeTxn == Some(c);
      ExclusiveMoved(s, t, c);
    }
    assert s.zone.writeEvent == Some(e) && e !in s.zone.waiters by {
      assert Has(s, c, e);
    }
    hide Sound, Exclusive, Ascending, Paired;
    WakeUpPaired(s, t, c);
  }

  lemma SetUpKeeps(s: System, c: nat)
    requires Inv(s) && Enabled(s, SetUp(c))
    ensures Inv(Next(s, SetUp(c)))
  {
    var t := Next(s, SetUp(c));
    assert OnlyMoved(s, t, c);
    SoundMoved(s, t, c);
    assert Exclusive(t) by {
      assert Owns(s, c) <==> s.zone.writeTxn == Some(c);
      ExclusiveMoved(s, t, c);
    }
    assert forall x: nat, f :: Has(t, x, f) <==> Has(s, x, f);
    hide Sound, Exclusive, Ascending;
  }

  /** Ending a write moves the first waiter to the woken place: the queue as a whole stays. */
  lemma EndQueue(s: System, t: System, c: nat)
    requires Paired(s) && s.zone.writeEvent.None? && Ascending(s.zone.waiters, s.made) && t.signalled == Wake(s)
    requires t.zone.writeEvent == if s.zone.waiters == [] then None else Some(s.zone.waiters[0])
    requires t.zone.waiters == if s.zone.waiters == [] then [] else s.zone.waiters[1..]
    ensures Queue(t) == Queue(s) == s.zone.waiters
    ensures t.zone.writeEvent.Some? ==> t.zone.writeEvent.value in t.signalled
    ensures forall e | e in t.zone.waiters :: e in s.zone.waiters && e !in t.signalled
    ensures forall e | e in t.signalled :: e.number < s.made
  {
    if s.zone.waiters != [] {
      AscendingTail(s.zone.waiters, s.made);
      assert s.zone.waiters == [s.zone.waiters[0]] + s.zone.waiters[1..];
      assert s.zone.waiters[0].number < s.made;
    }
    hide Has, Queue, Ascending;
    assert Queue(s) == s.zone.waiters;
  }

  lemma EndPaired(s: System, t: System, c: nat)
    requires Paired(s) && At(s, c).Writing? && OnlyMoved(s, t, c) && At(t, c).Outside? && t.made == s.made
    requires Queue(t) == Queue(s) == s.zone.waiters
    requires t.zone.writeEvent.Some? ==> t.zone.writeEvent.value in t.signalled
    requires forall e | e in t.zone.waiters :: e in s.zone.waiters && e !in t.signalled
    requires forall e | e in t.signalled :: e.number < s.made
    ensures Paired(t)
  {
    hide Queue, At;
    forall x: nat, e | Has(t, x, e)
      ensures e.waiter == x && e in Queue(t)
    {
      assert Has(s, x, e);
    }
    forall e | e in Queue(t)
      ensures Has(t, e.waiter, e)
    {
      assert Has(s, e.waiter, e) && e.waiter != c;
    }
    forall e | e in t.zone.waiters
      ensures At(t, e.waiter).Waiting?
    {
      assert At(s, e.waiter).Waiting? && e.waiter != c;
    }
  }

  /** Ending a write hands over to the first that waits. */
  lemma EndKeeps(s: System, t: System, c: nat)
    requires Inv(s) && At(s, c).Writing? && OnlyMoved(s, t, c) && At(t, c).Outside?
    requires t.made == s.made && t.signalled == Wake(s)
    requires var z := EndWrite(s.zone);
             && t.zone.writeTxn == z.writeTxn && t.zone.writeEvent == z.writeEvent && t.zone.waiters == z.waiters
    ensures Exclusive(t) && HandedOver(t) && Ascending(Queue(t), t.made) && Paired(t)
  {
    assert Owns(s, c) && s.zone.writeTxn == Some(c);
    ExclusiveMoved(s, t, c);
    EndQueue(s, t, c);
    EndPaired(s, t, c);
  }

  lemma RollbackKeeps(s: System, c: nat)
    requires Inv(s) && At(s, c).Writing?
    ensures Inv(Next(s, Rollback(c)))
  {
    var t := Next(s, Rollback(c));
    assert OnlyMoved(s, t, c);
    SoundMoved(s, t, c);
    hide Sound, Exclusive, HandedOver, Ascending, Paired;
    EndKeeps(s, t, c);
  }

  lemma CommitSound(s: System, c: nat, nodes: Nodes)
    requires Sound(s) && Exclusive(s) && At(s, c).Writing?
    ensures Fits(s.zone, At(s, c).version) && Sound(Next(s, Commit(c, nodes)))
  {
    assert c in s.callers;
    var version := Version(At(s, c).version.id, nodes);
    var t := Next(s, Commit(c, nodes));
    AppendRetains(s.zone, version);
    PruneRetains(s.zone.(versions := s.zone.versions + [version]));
    assert Owns(s, c);
    assert forall x: nat | x != c :: At(t, x) == At(s, x) && !Owns(s, x);
  }

  lemma CommitKeeps(s: System, c: nat, nodes: Nodes)
    requires Inv(s) && At(s, c).Writing?
    ensures Inv(Next(s, Commit(c, nodes)))
  {
    CommitSound(s, c, nodes);
    var t := Next(s, Commit(c, nodes));
    assert OnlyMoved(s, t, c);
    hide Sound, Exclusive, HandedOver, Ascending, Paired, Prune;
    EndKeeps(s, t, c);
  }

  lemma PairedStays(s: System, t: System)
    requires Paired(s) && Queue(t) == Queue(s) && t.zone.waiters == s.zone.waiters
    requires t.zone.writeEvent == s.zone.writeEvent && t.signalled == s.signalled && t.made == s.made
    requires forall x: nat :: At(t, x) == At(s, x)
    ensures Paired(t)
  {
    hide At, Queue;
    assert forall x: nat, e :: Has(t, x, e) <==> Has(s, x, e);
  }

  /** What readers and policies do does not touch the hand-over. */
  lemma ReadersKeep(s: System, z: State<WaitEvent, nat, nat>)
    requires Inv(s) && Retaining(z) && Last(z.versions) == Last(s.zone.versions) && z.nodes == s.zone.nodes
    requires z.writeTxn == s.zone.writeTxn && z.writeEvent == s.zone.writeEvent && z.waiters == s.zone.waiters
    ensures Inv(s.(zone := z))
  {
    var t := s.(zone := z);
    assert forall x: nat :: At(t, x) == At(s, x);
    assert forall x: nat :: Owns(t, x) <==> Owns(s, x);
    assert NextId(z.versions) == NextId(s.zone.versions);
    hide Retaining, Ascending, Paired, Owns, At, Last, NextId;
    PairedStays(s, t);
  }

  lemma OpenReadKeeps(s: System, r: nat, v: Version)
    requires Inv(s) && Enabled(s, OpenRead(r, v))
    ensures Inv(Next(s, OpenRead(r, v)))
  {
    ReadersKeep(s, OpenReader(s.zone, r, v));
  }

  lemma CloseReadKeeps(s: System, r: nat)
    requires Inv(s)
    ensures Inv(Next(s, CloseRead(r)))
  {
    hide Exclusive, HandedOver, Ascending, Paired, Pruned;
    PruneRetains(s.zone.(readers := s.zone.readers - {r}));
    if r in s.zone.readers {
      ReadersKeep(s, EndRead(s.zone, r));
    }
  }

  lemma SetPolicyKeeps(s: System, p: Policy)
    requires Inv(s)
    ensures Inv(Next(s, SetPruningPolicy(p)))
  {
    hide Exclusive, HandedOver, Ascending, Paired, Pruned;
    PruneRetains(s.zone.(policy := p));
    ReadersKeep(s, SetPolicy(s.zone, p));
  }

  lemma {:induction false} NextKeeps(s: System, a: Action)
    requires Inv(s)
    ensures Inv(Next(s, a))
  {
    if Enabled(s, a) {
      match a
      case Call(c, replacement) => CallKeeps(s, c, replacement);
      case TakeLock(c) => if MayWrite(s.zone, At(s, c).woken) { ClaimKeeps(s, c); } else { EnqueueKeeps(s, c); }
      case WakeUp(c) => WakeUpKeeps(s, c);
      case SetUp(c) => SetUpKeeps(s, c);
      case Commit(c, nodes) => CommitKeeps(s, c, nodes);
      case Rollback(c) => RollbackKeeps(s, c);
      case OpenRead(r, v) => OpenReadKeeps(s, r, v);
      case CloseRead(r) => CloseReadKeeps(s, r);
      case SetPruningPolicy(p) => SetPolicyKeeps(s, p);
    }
  }

  // ---------- Every run ----------

  /** Any sequence of actions is one interleaving; those not possible in turn change nothing. */
  ghost function Run(s: System, actions: seq<Action>): System
    requires Inv(s)
    decreases actions
  {
    if actions == [] then s else NextKeeps(s, actions[0]); Run(Next(s, actions[0]), actions[1..])
  }

  lemma {:induction false} RunInv(s: System, actions: seq<Action>)
    requires Inv(s)
    ensures Inv(Run(s, actions))
    decreases actions
  {
    hide Sound, Exclusive, HandedOver, Ascending, Paired, Next;
    if actions != [] {
      NextKeeps(s, actions[0]);
      RunInv(Next(s, actions[0]), actions[1..]);
    }
  }

  /** In every run at most one caller has the write transaction, and a caller that comes back from
      waiting gets it at once. */
  lemma {:induction false} MutualExclusion(policy: Policy, actions: seq<Action>, a: nat, b: nat)
    ensures Inv(Initial(policy))
    ensures var s := Run(Initial(policy), actions);
            && (Owns(s, a) && Owns(s, b) ==> a == b)
            && (At(s, a).Calling? && At(s, a).woken.Some? ==> MayWrite(s.zone, At(s, a).woken))
  {
    InitialInv(policy);
    RunInv(Initial(policy), actions);
    var s := Run(Initial(policy), actions);
    hide Run;
    if At(s, a).Calling? && At(s, a).woken.Some? {
      WokenIsFirst(s, a);
    }
  }

  /** The caller that made the event has been woken by it and has not had the transaction since. */
  ghost predicate Woken(s: System, e: WaitEvent) {
    e in s.signalled && Has(s, e.waiter, e)
  }

  /** A caller that waits does not wait for nothing: either somebody writes, or somebody has been
      woken, and never two. */
  lemma {:induction false} NobodyForgotten(policy: Policy, actions: seq<Action>, c: nat)
    ensures Inv(Initial(policy))
    ensures var s := Run(Initial(policy), actions);
            && (At(s, c).Waiting? ==> (exists x :: Owns(s, x)) || (exists e :: Woken(s, e)))
            && (forall x, e | Owns(s, x) :: !Woken(s, e))
            && (forall e, f | Woken(s, e) && Woken(s, f) :: e == f)
  {
    InitialInv(policy);
    RunInv(Initial(policy), actions);
    var s := Run(Initial(policy), actions);
    hide Run;
    forall e | Woken(s, e)
      ensures s.zone.writeEvent == Some(e)
    {
      assert e in Queue(s) && e !in s.zone.waiters;
    }
    if At(s, c).Waiting? {
      assert Has(s, c, At(s, c).event);
      if s.zone.writeTxn.Some? {
        assert Owns(s, s.zone.writeTxn.value);
      } else {
        var e := s.zone.writeEvent.value;
        assert e in Queue(s);
        assert Woken(s, e);
      }
    }
  }

  ghost function Ends(s: System, actions: seq<Action>): nat
    requires Inv(s)
    decreases actions
  {
    if actions == [] then 0
    else
      NextKeeps(s, actions[0]);
      (if EndsWrite(s, actions[0]) then 1 else 0) + Ends(Next(s, actions[0]), actions[1..])
  }

  lemma RunStep(s: System, actions: seq<Action>)
    requires Inv(s) && actions != []
    ensures Inv(Next(s, actions[0]))
    ensures Run(s, actions) == Run(Next(s, actions[0]), actions[1..])
    ensures Ends(s, actions) == (if EndsWrite(s, actions[0]) then 1 else 0) + Ends(Next(s, actions[0]), actions[1..])
  {
    NextKeeps(s, actions[0]);
    hide Next, EndsWrite;
  }

  /** One step moves the waiters up by one if it ends a write, and otherwise leaves them where they are. */
  lemma QueueStep(s: System, a: Action, k: nat)
    requires Inv(s) && k < |s.zone.waiters|
    ensures var (e, t) := (s.zone.waiters[k], Next(s, a));
            if !EndsWrite(s, a) then k < |t.zone.waiters| && t.zone.waiters[k] == e
            else if k > 0 then k - 1 < |t.zone.waiters| && t.zone.waiters[k - 1] == e
            else e in t.signalled
  {
    if a.Commit? && Enabled(s, a) {
      CommitSound(s, a.caller, a.nodes);
    }
  }

  lemma SignalledStep(s: System, a: Action)
    requires Inv(s)
    ensures s.signalled <= Next(s, a).signalled
  {
  }

  lemma {:induction false} SignalledStays(s: System, actions: seq<Action>, e: WaitEvent)
    requires Inv(s) && e in s.signalled
    ensures e in Run(s, actions).signalled
    decreases actions
  {
    hide Sound, Exclusive, HandedOver, Ascending, Paired, Next;
    if actions != [] {
      NextKeeps(s, actions[0]);
      SignalledStep(s, actions[0]);
      SignalledStays(Next(s, actions[0]), actions[1..], e);
    }
  }

  /** First in, first out: whatever happens, a waiter with `k` others before it is woken by exactly the
      (k+1)-th end of a write. */
  lemma {:induction false} WokenInTurn(s: System, actions: seq<Action>, k: nat)
    requires Inv(s) && k < |s.zone.waiters|
    ensures s.zone.waiters[k] in Run(s, actions).signalled <==> Ends(s, actions) > k
    decreases actions
  {
    var e := s.zone.waiters[k];
    assert e !in s.signalled;
    hide Next, EndsWrite, Run, Ends, Queue, Sound, Exclusive, HandedOver, Ascending, Paired;
    if actions == [] {
      NoRun(s);
    } else {
      var (a, rest) := (actions[0], actions[1..]);
      RunStep(s, actions);
      QueueStep(s, a, k);
      var t := Next(s, a);
      if !EndsWrite(s, a) {
        WokenInTurn(t, rest, k);
      } else if k == 0 {
        SignalledStays(t, rest, e);
      } else {
        WokenInTurn(t, rest, k - 1);
      }
    }
  }

  lemma NoRun(s: System)
    requires Inv(s)
    ensures Run(s, []) == s && Ends(s, []) == 0
  {
  }

  // ---------- No overtaking ----------

  /** `later` has come after `earlier` began to wait for `e`: as long as `earlier` still has to wait,
      `later` does not get the transaction, and is behind it if it waits itself. */
  ghost predicate Behind(s: System, earlier: nat, e: WaitEvent, later: nat) {
    Has(s, earlier, e) ==>
      && !Owns(s, later)
      && forall f | Has(s, later, f) :: e.number < f.number
  }

  /** Nobody stops waiting except by getting the transaction. */
  lemma LeavesByOwning(s: System, a: Action, c: nat, e: WaitEvent)
    requires Inv(s) && Has(s, c, e) && !Has(Next(s, a), c, e)
    ensures Owns(Next(s, a), c)
  {
    if At(s, c).Calling? {
      WokenIsFirst(s, c);
    }
  }

  lemma QueueHead(s: System, e: WaitEvent)
    requires Ascending(Queue(s), s.made) && s.zone.writeEvent.Some? && e in Queue(s)
    ensures s.zone.writeEvent.value.number <= e.number
  {
    var i :| 0 <= i < |Queue(s)| && Queue(s)[i] == e;
    assert Queue(s)[0] == s.zone.writeEvent.value;
  }

  lemma StaysBehind(s: System, a: Action, earlier: nat, e: WaitEvent, later: nat)
    requires Inv(s) && earlier != later && Has(s, earlier, e) && Behind(s, earlier, e, later)
    ensures Behind(Next(s, a), earlier, e, later)
  {
    assert e in Queue(s);
    if Enabled(s, a) && a.TakeLock? && a.caller == later {
      if MayWrite(s.zone, At(s, later).woken) {
        if s.zone.writeEvent.Some? {
          QueueHead(s, e);
        }
        assert false;
      }
      assert e.number < s.made;
    } else if Enabled(s, a) {
      OthersStayBehind(s, a, later);
    }
  }

  lemma OthersStayBehind(s: System, a: Action, c: nat)
    requires Inv(s) && !Owns(s, c) && !(a.TakeLock? && a.caller == c)
    ensures !Owns(Next(s, a), c) && forall f | Has(Next(s, a), c, f) :: Has(s, c, f)
  {
    hide Retaining, Exclusive, HandedOver, Ascending, Paired, Queue;
  }

  /** First come, first served: in any run after which a later caller has the transaction, the caller
      that was already waiting has had it before. */
  lemma {:induction false} FirstComeFirstServed(s: System, actions: seq<Action>, earlier: nat, later: nat)
    returns (i: nat)
    requires Inv(s) && earlier != later && At(s, earlier).Waiting?
    requires At(s, later).Outside? || At(s, later) == Calling(None, false) || At(s, later) == Calling(None, true)
    requires Owns(Run(s, actions), later)
    ensures i <= |actions| && Owns(Run(s, actions[..i]), earlier)
  {
    i := ServedBefore(s, actions, earlier, At(s, earlier).event, later);
  }

  lemma {:induction false} ServedBefore(s: System, actions: seq<Action>, earlier: nat, e: WaitEvent, later: nat)
    returns (i: nat)
    requires Inv(s) && earlier != later && Has(s, earlier, e) && Behind(s, earlier, e, later)
    requires Owns(Run(s, actions), later)
    ensures i <= |actions| && Owns(Run(s, actions[..i]), earlier)
    decreases actions
  {
    var a := actions[0];
    assert actions != [] by {
      assert !Owns(s, later);
    }
    RunStep(s, actions);
    StaysBehind(s, a, earlier, e, later);
    var t := Next(s, a);
    if Has(t, earlier, e) {
      hide Next, Run, Ends, Behind, Has, Owns, Sound, Exclusive, HandedOver, Ascending, Paired;
      var j := ServedBefore(t, actions[1..], earlier, e, later);
      i := j + 1;
      assert actions[..i][1..] == actions[1..][..j];
      RunStep(s, actions[..i]);
    } else {
      LeavesByOwning(s, a, earlier, e);
      hide Next, Run, Ends, Behind, Has, Owns, Sound, Exclusive, HandedOver, Ascending, Paired;
      i := 1;
      assert actions[..1][1..] == [];
      RunStep(s, actions[..1]);
      NoRun(t);
    }
  }
}
