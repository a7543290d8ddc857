/** Which versions of a zone are kept, over every run: `dns/versioned.py`. */
module Retention {
  import opened Wrappers
  import opened Versioned
  import opened Handoff

  // ---------- Open readers ----------

  /** For every policy and run: there is always a version, ids are consecutive, the zone's content is
      that of the newest, and what a reader has open is still there, with every later version. */
  lemma {:induction false} ReadersRetained(policy: Policy, actions: seq<Action>, r: nat, id: nat)
    ensures Inv(Initial(policy))
    ensures var z := Run(Initial(policy), actions).zone;
            && z.versions != [] && Consecutive(z.versions) && z.nodes == Last(z.versions).nodes
            && (r in z.readers ==> z.readers[r] in z.versions)
            && (r in z.readers && z.readers[r].id <= id <= Last(z.versions).id ==>
                  exists v :: v in z.versions && Finds(z.versions, ById(id), Some(v)))
  {
    InitialInv(policy);
    RunInv(Initial(policy), actions);
    var z := Run(Initial(policy), actions).zone;
    hide Run;
    if r in z.readers && z.readers[r].id <= id <= Last(z.versions).id {
      var i := id - z.versions[0].id;
      assert z.versions[i].id == id;
      assert Finds(z.versions, ById(id), Some(z.versions[i]));
    }
  }

  ghost function Commits(s: System, actions: seq<Action>): nat
    requires Inv(s)
    decreases actions
  {
    if actions == [] then 0
    else
      NextKeeps(s, actions[0]);
      (if actions[0].Commit? && Enabled(s, actions[0]) then 1 else 0) + Commits(Next(s, actions[0]), actions[1..])
  }

  lemma NewestStep(s: System, a: Action)
    requires Inv(s)
    ensures Inv(Next(s, a)) && NextId(Next(s, a).zone.versions)
                               == NextId(s.zone.versions) + if a.Commit? && Enabled(s, a) then 1 else 0
  {
    NextKeeps(s, a);
    if Enabled(s, a) {
      match a
      case Commit(c, nodes) =>
        CommitSound(s, c, nodes);
        var version := Version(At(s, c).version.id, nodes);
        AppendRetains(s.zone, version);
        PruneRetains(s.zone.(versions := s.zone.versions + [version]));
      case CloseRead(r) => PruneRetains(s.zone.(readers := s.zone.readers - {r}));
      case SetPruningPolicy(p) => PruneRetains(s.zone.(policy := p));
      case _ =>
    }
  }

  /** An id is never used twice: the newest one counts the commits. */
  lemma {:induction false} IdsCountCommits(s: System, actions: seq<Action>)
    requires Inv(s)
    ensures NextId(Run(s, actions).zone.versions) == NextId(s.zone.versions) + Commits(s, actions)
    decreases actions
  {
    hide Sound, Exclusive, HandedOver, Ascending, Paired, Next, NextId;
    if actions != [] {
      NewestStep(s, actions[0]);
      IdsCountCommits(Next(s, actions[0]), actions[1..]);
    }
  }

  // ---------- What a writer starts from, and what it leaves ----------

  /** A transaction works on the next version, which starts as the newest one unless it is to replace it. */
  lemma WriterStarts(s: System, c: nat)
    requires Inv(s) && At(s, c).Claimed?
    ensures var (t, newest) := (Next(s, SetUp(c)), Last(s.zone.versions));
            && At(t, c) == Writing(Version(newest.id + 1,
                                           if At(s, c).replacement then Nodes(None, []) else newest.nodes))
            && t.zone == s.zone
  {
  }

  /** A commit makes that version, with what has been written, the newest: no other has come in between. */
  lemma CommitIsNewest(s: System, c: nat, nodes: Nodes)
    requires Inv(s) && At(s, c).Writing?
    ensures var (t, newest) := (Next(s, Commit(c, nodes)), Last(s.zone.versions));
            && At(s, c).version.id == newest.id + 1
            && t.zone.versions != [] && Last(t.zone.versions) == Version(newest.id + 1, nodes) && t.zone.nodes == nodes
  {
    CommitSound(s, c, nodes);
    var version := Version(At(s, c).version.id, nodes);
    AppendRetains(s.zone, version);
    PruneRetains(s.zone.(versions := s.zone.versions + [version]));
    hide Pruned;
  }

  // ---------- A bound on the number of versions ----------

  /** The policy prunes to this many versions; the last one is never pruned in any case. */
  ghost predicate IsMax(policy: Policy, most: nat) {
    forall versions | |versions| > 1 :: Prunes(policy, versions) <==> |versions| > most
  }

  /** No more versions than wanted, except those from the oldest that a reader has open. */
  ghost predicate Within(z: State<WaitEvent, nat, nat>, most: nat)
    requires z.versions != []
  {
    |z.versions| <= most || z.versions[0].id == LeastKept(z)
  }

  lemma {:induction false} PrunedToMax(versions: seq<Version>, least: nat, policy: Policy, most: nat)
    requires Prunable(versions, least) && IsMax(policy, most)
    ensures var kept := Pruned(versions, least, policy);
            && (|kept| <= most || (kept != [] && kept[0].id >= least))
            && (|kept| < |versions| ==> |kept| >= most)
    decreases |versions|
  {
    if versions[0].id < least && Prunes(policy, versions) {
      PrunableStep(versions, least);
      assert |versions| > most;
      hide Prunable, IsMax;
      PrunedToMax(versions[1..], least, policy, most);
    }
  }

  /** Pruning to a number goes as far as the readers let it, and never below the number. */
  lemma {:induction false} PruneWithin(z: State<WaitEvent, nat, nat>, most: nat)
    requires Retaining(z) && IsMax(z.policy, most)
    ensures Retaining(Prune(z)) && Within(Prune(z), most)
    ensures |Prune(z).versions| >= Min(|z.versions|, most)
  {
    LeastKeptBound(z);
    PrunedToMax(z.versions, LeastKept(z), z.policy, most);
    PruneRetains(z);
    LeastKeptBound(Prune(z));
    hide IsMax, Pruned, Retaining;
    assert LeastKept(Prune(z)) == LeastKept(z);
  }

  lemma OpenWithin(z: State<WaitEvent, nat, nat>, most: nat, r: nat, v: Version)
    requires Retaining(z) && Within(z, most) && most >= 1 && r !in z.readers && v in z.versions
    ensures Retaining(OpenReader(z, r, v)) && Within(OpenReader(z, r, v), most)
  {
    var t := OpenReader(z, r, v);
    assert Retaining(t);
    LeastKeptBound(z);
    LeastKeptBound(t);
    if |z.versions| > most {
      assert z.versions[0].id == LeastKept(z) < Last(z.versions).id;
      var q :| q in z.readers && z.readers[q].id == LeastKept(z);
      assert q in t.readers && t.readers[q] == z.readers[q];
    }
  }

  lemma CommitWithin(z: State<WaitEvent, nat, nat>, version: Version, most: nat)
    requires Retaining(z) && Fits(z, version) && IsMax(z.policy, most)
    ensures var t := CommitVersion(z, version); t.versions != [] && Within(t, most) && t.policy == z.policy
  {
    AppendRetains(z, version);
    PruneWithin(z.(versions := z.versions + [version]), most);
    hide IsMax, Prune, Retaining;
  }

  lemma CommitStep(s: System, c: nat, nodes: Nodes, most: nat)
    requires Inv(s) && IsMax(s.zone.policy, most) && At(s, c).Writing?
    ensures var t := Next(s, Commit(c, nodes));
            t.zone.policy == s.zone.policy && t.zone.versions != [] && Within(t.zone, most)
  {
    CommitSound(s, c, nodes);
    hide Exclusive, HandedOver, Ascending, Paired, IsMax, CommitVersion, Prune, Retaining, Within;
    CommitWithin(s.zone, Version(At(s, c).version.id, nodes), most);
  }

  lemma SameWithin(z: State<WaitEvent, nat, nat>, t: State<WaitEvent, nat, nat>, most: nat)
    requires z.versions != [] && Within(z, most) && t.versions == z.versions && t.readers == z.readers
    ensures Within(t, most)
  {
  }

  lemma CloseStep(s: System, r: nat, most: nat)
    requires Inv(s) && IsMax(s.zone.policy, most) && r in s.zone.readers
    ensures var t := Next(s, CloseRead(r));
            t.zone.policy == s.zone.policy && t.zone.versions != [] && Within(t.zone, most)
  {
    PruneWithin(s.zone.(readers := s.zone.readers - {r}), most);
    hide IsMax, Retaining, Exclusive, HandedOver, Ascending, Paired, Within;
  }

  lemma OpenStep(s: System, r: nat, v: Version, most: nat)
    requires Inv(s) && Within(s.zone, most) && most >= 1 && Enabled(s, OpenRead(r, v))
    ensures var t := Next(s, OpenRead(r, v));
            t.zone.policy == s.zone.policy && t.zone.versions != [] && Within(t.zone, most)
  {
    OpenWithin(s.zone, most, r, v);
    hide Retaining, Exclusive, HandedOver, Ascending, Paired, Within;
  }

  lemma IdleStep(s: System, a: Action)
    requires Inv(s) && !Enabled(s, a)
    ensures Next(s, a) == s
  {
  }

  lemma OtherStep(s: System, a: Action, most: nat)
    requires Inv(s) && Within(s.zone, most)
    requires Enabled(s, a) && !a.Commit? && !a.CloseRead? && !a.OpenRead? && !a.SetPruningPolicy?
    ensures var t := Next(s, a); t.zone.policy == s.zone.policy && t.zone.versions != [] && Within(t.zone, most)
  {
    assert s.zone.versions != [];
    hide Retaining, Exclusive, HandedOver, Ascending, Paired, Within;
    SameWithin(s.zone, Next(s, a).zone, most);
  }

  lemma WithinStep(s: System, a: Action, most: nat)
    requires Inv(s) && most >= 1 && IsMax(s.zone.policy, most) && Within(s.zone, most) && !a.SetPruningPolicy?
    ensures Inv(Next(s, a)) && IsMax(Next(s, a).zone.policy, most) && Within(Next(s, a).zone, most)
  {
    NextKeeps(s, a);
    hide Sound, Exclusive, HandedOver, Ascending, Paired, IsMax, CommitVersion, Prune, Retaining, Within, Next;
    if !Enabled(s, a) {
      IdleStep(s, a);
    } else if a.Commit? {
      CommitStep(s, a.caller, a.nodes, most);
    } else if a.CloseRead? {
      CloseStep(s, a.reader, most);
    } else if a.OpenRead? {
      OpenStep(s, a.reader, a.version, most);
    } else {
      OtherStep(s, a, most);
    }
  }

  lemma {:induction false} WithinRun(s: System, actions: seq<Action>, most: nat)
    requires Inv(s) && most >= 1 && IsMax(s.zone.policy, most) && Within(s.zone, most)
    requires forall a | a in actions :: !a.SetPruningPolicy?
    ensures Inv(Run(s, actions)) && Within(Run(s, actions).zone, most)
    decreases actions
  {
    hide Sound, Exclusive, HandedOver, Ascending, Paired, Next, IsMax, Within;
    if actions != [] {
      WithinStep(s, actions[0], most);
      WithinRun(Next(s, actions[0]), actions[1..], most);
    }
  }

  lemma MaxPolicyIsMax(most: nat)
    ensures IsMax(MaxPolicy(Some(most)), most)
  {
  }

  /** Without a policy, everything that nobody needs is pruned. */
  lemma DefaultIsMax()
    ensures IsMax(PolicyOr(None), 1)
  {
  }

  lemma SetMaxStep(s: System, policy: Policy, most: nat)
    requires Inv(s) && IsMax(policy, most)
    ensures var t := Next(s, SetPruningPolicy(policy));
            Inv(t) && IsMax(t.zone.policy, most) && Within(t.zone, most)
  {
    NextKeeps(s, SetPruningPolicy(policy));
    hide IsMax, Exclusive, HandedOver, Ascending, Paired;
    PruneWithin(s.zone.(policy := policy), most);
  }

  /** While the policy stays, there are never more than `most` versions unless a reader has the oldest
      one open. */
  lemma {:induction false} PolicyHeld(t: System, most: nat, actions: seq<Action>)
    requires Inv(t) && IsMax(t.zone.policy, most) && Within(t.zone, most) && most >= 1
    requires forall a | a in actions :: !a.SetPruningPolicy?
    ensures var z := Run(t, actions).zone;
            z.versions != [] && (|z.versions| > most ==> exists r :: r in z.readers && z.readers[r] == z.versions[0])
  {
    hide Run, Next, IsMax, Within, Exclusive, HandedOver, Ascending, Paired;
    WithinRun(t, actions, most);
    var z := Run(t, actions).zone;
    if |z.versions| > most {
      Oldest(z, most);
    }
  }

  /** From `set_max_versions(most)` on, until the policy is changed again. */
  lemma {:induction false} MaxVersionsHeld(s: System, most: nat, actions: seq<Action>)
    requires Inv(s) && most >= 1 && forall a | a in actions :: !a.SetPruningPolicy?
    ensures Inv(Next(s, SetPruningPolicy(MaxPolicy(Some(most)))))
    ensures var z := Run(Next(s, SetPruningPolicy(MaxPolicy(Some(most)))), actions).zone;
            z.versions != [] && (|z.versions| > most ==> exists r :: r in z.readers && z.readers[r] == z.versions[0])
  {
    hide Run, Next, MaxPolicy, IsMax, Within, Exclusive, HandedOver, Ascending, Paired;
    MaxPolicyIsMax(most);
    SetMaxStep(s, MaxPolicy(Some(most)), most);
    PolicyHeld(Next(s, SetPruningPolicy(MaxPolicy(Some(most)))), most, actions);
  }

  /** A new zone without a policy keeps one version, and more only while a reader has the oldest open. */
  lemma {:induction false} DefaultHeld(actions: seq<Action>)
    requires forall a | a in actions :: !a.SetPruningPolicy?
    ensures Inv(Initial(PolicyOr(None)))
    ensures var z := Run(Initial(PolicyOr(None)), actions).zone;
            z.versions != [] && (|z.versions| > 1 ==> exists r :: r in z.readers && z.readers[r] == z.versions[0])
  {
    InitialInv(PolicyOr(None));
    DefaultIsMax();
    assert Within(Initial(PolicyOr(None)).zone, 1);
    hide Run, Next, IsMax, Within, Inv, PolicyOr;
    PolicyHeld(Initial(PolicyOr(None)), 1, actions);
  }

  lemma Oldest(z: State<WaitEvent, nat, nat>, most: nat)
    requires Retaining(z) && Within(z, most) && most >= 1 && |z.versions| > most
    ensures exists r :: r in z.readers && z.readers[r] == z.versions[0]
  {
    LeastKeptBound(z);
    assert z.versions[0].id < Last(z.versions).id;
    var r :| r in z.readers && z.readers[r].id == LeastKept(z);
    var i :| 0 <= i < |z.versions| && z.versions[i] == z.readers[r];
    assert z.versions[i].id == z.versions[0].id + i;
  }
}
