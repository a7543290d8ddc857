/** The differences between the versions of a zone, and what transferring them commits. */
module Increments {
  import opened Wrappers
  import opened RdataTypes
  import opened Serials
  import opened ZoneStore
  import opened Xfr
  import opened Transfers
  import opened Cuts
  import opened Questions
  import opened Boundaries

  /** One datum of a zone, without its TTL. */
  datatype Fact = Fact(key: Key, rdata: Rdata)

  /** The content of one version: its SOA and everything else. */
  datatype Version = Version(soa: Rdata, rest: set<Fact>)

  function SoaKey(z: ZoneInfo): Key {
    Key(z.origin, SOA, 0)
  }

  function Facts(z: ZoneInfo, v: Version): set<Fact> {
    v.rest + {Fact(SoaKey(z), v.soa)}
  }

  /** No two data of a singleton type, and no CNAME beside other data. */
  predicate Consistent(facts: set<Fact>) {
    forall f, g | f in facts && g in facts ::
      && !Evicts(f.key, g.key)
      && (f.key == g.key && IsSingleton(f.key.rdtype) ==> f == g)
  }

  predicate ZoneContent(z: ZoneInfo, v: Version) {
    && (forall f | f in v.rest :: f.key.rdtype != SOA && InZone(f.key.owner, z.origin))
    && Consistent(Facts(z, v))
  }

  /** A store holds exactly these facts, TTLs aside. */
  ghost predicate Holds(store: Store, facts: set<Fact>) {
    && (forall k | k in store :: store[k].items != {})
    && (forall k, x :: (k in store && x in store[k].items) <==> Fact(k, x) in facts)
  }

  predicate IsRecord(z: ZoneInfo, r: RRset, f: Fact) {
    r.rdclass == z.rdclass && KeyOf(r) == f.key && r.items == [f.rdata]
  }

  function FactsOf(r: RRset): set<Fact> {
    set x | x in r.items :: Fact(KeyOf(r), x)
  }

  /** The facts in any order, with any TTLs and grouped into RRsets in any way. */
  predicate Lists(z: ZoneInfo, rs: seq<RRset>, facts: set<Fact>) {
    if rs == [] then facts == {}
    else
      && rs[0].rdclass == z.rdclass && FactsOf(rs[0]) <= facts
      && Lists(z, rs[1..], facts - FactsOf(rs[0]))
  }

  predicate IsSoaOf(z: ZoneInfo, r: RRset, v: Version) {
    IsRecord(z, r, Fact(SoaKey(z), v.soa))
  }

  /** The difference from one version to the next. */
  predicate Between(z: ZoneInfo, d: Diff, a: Version, b: Version) {
    && IsSoaOf(z, d.oldSoa, a) && Lists(z, d.deletions, a.rest - b.rest)
    && IsSoaOf(z, d.newSoa, b) && Lists(z, d.additions, b.rest - a.rest)
  }

  predicate Consecutive(z: ZoneInfo, diffs: seq<Diff>, versions: seq<Version>) {
    && |versions| == |diffs| + 1
    && forall i | 0 <= i < |diffs| :: Between(z, diffs[i], versions[i], versions[i + 1])
  }

  // ---------- The store, fact by fact ----------

  lemma FactsOfKey(r: RRset)
    ensures forall k, x :: Fact(k, x) in FactsOf(r) <==> k == KeyOf(r) && x in ItemSet(r)
  {
  }

  lemma DeleteFacts(z: ZoneInfo, store: Store, facts: set<Fact>, r: RRset)
    requires Holds(store, facts) && FactsOf(r) <= facts && r.rdclass == z.rdclass && InZone(r.owner, z.origin)
    requires Consistent(facts)
    ensures var d := DeleteFrom(z, store, r);
            d.Success? && Holds(d.value, facts - FactsOf(r)) && Consistent(facts - FactsOf(r))
  {
    var k := KeyOf(r);
    FactsOfKey(r);
    hide FactsOf;
    assert forall x | x in ItemSet(r) :: Fact(k, x) in facts;
    assert r.items[0] in ItemSet(r);
    var left := store[k].items - ItemSet(r);
    assert forall x :: x in left <==> Fact(k, x) in facts - FactsOf(r);
    if left != {} {
      forall o | o in store
        ensures !Evicts(k, o)
      {
        var x :| x in store[o].items;
        assert Fact(o, x) in facts && Fact(k, r.items[0]) in facts;
      }
    }
  }

  lemma AddFacts(z: ZoneInfo, store: Store, facts: set<Fact>, r: RRset)
    requires Holds(store, facts) && facts !! FactsOf(r) && r.rdclass == z.rdclass && InZone(r.owner, z.origin)
    requires r.rdtype != SOA && Consistent(facts + FactsOf(r))
    ensures var a := AddTo(z, store, r);
            a.Success? && Holds(a.value, facts + FactsOf(r))
  {
    var k := KeyOf(r);
    var first := Fact(k, r.items[0]);
    assert first in FactsOf(r) && r.items[0] in ItemSet(r);
    forall o | o in store
      ensures !Evicts(k, o)
      ensures o == k ==> !IsSingleton(k.rdtype)
    {
      var x :| x in store[o].items;
      assert Fact(o, x) in facts + FactsOf(r) && first in facts + FactsOf(r);
    }
  }

  lemma ReplaceSoa(z: ZoneInfo, store: Store, others: set<Fact>, olds: set<Fact>, r: RRset, soa: Rdata)
    requires Holds(store, others + olds) && IsRecord(z, r, Fact(SoaKey(z), soa))
    requires forall f | f in others :: f.key.rdtype != SOA
    requires forall f | f in olds :: f.key == SoaKey(z)
    requires Consistent(others + {Fact(SoaKey(z), soa)})
    ensures var w := ReplaceIn(z, store, r);
            w.Success? && Holds(w.value, others + {Fact(SoaKey(z), soa)})
  {
    var all := others + {Fact(SoaKey(z), soa)};
    assert ItemSet(r) == {soa};
    forall o | o in store
      ensures !Evicts(SoaKey(z), o)
    {
      var x :| x in store[o].items;
      assert Fact(o, x) in others + olds && Fact(SoaKey(z), soa) in all;
      assert Fact(o, x) in others ==> Fact(o, x) in all;
    }
  }

  lemma {:induction false} DeleteListed(z: ZoneInfo, store: Store, facts: set<Fact>, rs: seq<RRset>, gone: set<Fact>)
    requires Holds(store, facts) && Consistent(facts) && Lists(z, rs, gone) && gone <= facts
    requires forall f | f in gone :: InZone(f.key.owner, z.origin) && f.key.rdtype != SOA
    ensures var d := Apply(z, true, store, rs);
            d.Success? && Holds(d.value, facts - gone) && NoOriginSoa(z, rs)
    decreases rs
  {
    hide Holds, Consistent, DeleteFrom, InZone;
    if rs == [] {
      assert facts - gone == facts;
    } else {
      var fs := FactsOf(rs[0]);
      assert Fact(KeyOf(rs[0]), rs[0].items[0]) in fs;
      hide FactsOf;
      DeleteFacts(z, store, facts, rs[0]);
      DeleteListed(z, DeleteFrom(z, store, rs[0]).value, facts - fs, rs[1..], gone - fs);
      assert facts - fs - (gone - fs) == facts - gone;
      NoneBefore(z, rs);
    }
  }

  lemma NoneBefore(z: ZoneInfo, rs: seq<RRset>)
    requires rs != [] && !OriginSoa(z, rs[0]) && NoOriginSoa(z, rs[1..])
    ensures NoOriginSoa(z, rs)
  {
    assert rs == [rs[0]] + rs[1..];
  }

  lemma ConsistentSubset(facts: set<Fact>, all: set<Fact>)
    requires Consistent(all) && facts <= all
    ensures Consistent(facts)
  {
  }

  lemma {:induction false} AddListed(z: ZoneInfo, store: Store, facts: set<Fact>, rs: seq<RRset>, more: set<Fact>)
    requires Holds(store, facts) && Lists(z, rs, more) && more !! facts && Consistent(facts + more)
    requires forall f | f in more :: InZone(f.key.owner, z.origin) && f.key.rdtype != SOA
    ensures var a := Apply(z, false, store, rs);
            a.Success? && Holds(a.value, facts + more) && NoOriginSoa(z, rs)
    decreases rs
  {
    hide Holds, Consistent, AddTo, InZone;
    if rs == [] {
      assert facts + more == facts;
    } else {
      var fs := FactsOf(rs[0]);
      assert Fact(KeyOf(rs[0]), rs[0].items[0]) in fs;
      hide FactsOf;
      ConsistentSubset(facts + fs, facts + more);
      AddFacts(z, store, facts, rs[0]);
      assert facts + fs + (more - fs) == facts + more;
      AddListed(z, AddTo(z, store, rs[0]).value, facts + fs, rs[1..], more - fs);
      NoneBefore(z, rs);
    }
  }

  /** What two versions share, and what each has alone. */
  lemma SplitContent(z: ZoneInfo, a: Version, b: Version)
    requires ZoneContent(z, a) && ZoneContent(z, b)
    ensures Facts(z, a) - (a.rest - b.rest) == a.rest * b.rest + {Fact(SoaKey(z), a.soa)}
    ensures a.rest * b.rest + {Fact(SoaKey(z), b.soa)} + (b.rest - a.rest) == Facts(z, b)
    ensures (b.rest - a.rest) !! (a.rest * b.rest + {Fact(SoaKey(z), b.soa)})
    ensures Consistent(Facts(z, a)) && Consistent(Facts(z, b))
    ensures Consistent(a.rest * b.rest + {Fact(SoaKey(z), b.soa)})
    ensures forall f | f in a.rest || f in b.rest :: InZone(f.key.owner, z.origin) && f.key.rdtype != SOA
  {
    assert Fact(SoaKey(z), a.soa) !in a.rest && Fact(SoaKey(z), b.soa) !in b.rest;
    hide Consistent, InZone;
    ConsistentSubset(a.rest * b.rest + {Fact(SoaKey(z), b.soa)}, Facts(z, b));
  }

  /** A difference applied: `gone` leaves, the SOA turns, `more` comes. */
  lemma {:induction false} PartsApply(z: ZoneInfo, store: Store, d: Diff, both: set<Fact>, gone: set<Fact>,
      more: set<Fact>, all: set<Fact>, was: Rdata, soa: Rdata)
    requires Holds(store, all) && Consistent(all) && gone <= all && all - gone == both + {Fact(SoaKey(z), was)}
    requires Consistent(both + {Fact(SoaKey(z), soa)}) && forall f | f in both :: f.key.rdtype != SOA
    requires Lists(z, d.deletions, gone) && Lists(z, d.additions, more)
    requires forall f | f in gone :: InZone(f.key.owner, z.origin) && f.key.rdtype != SOA
    requires forall f | f in more :: InZone(f.key.owner, z.origin) && f.key.rdtype != SOA
    requires IsRecord(z, d.newSoa, Fact(SoaKey(z), soa))
    requires more !! (both + {Fact(SoaKey(z), soa)}) && Consistent(both + {Fact(SoaKey(z), soa)} + more)
    ensures var r := ApplyDiff(z, store, d); r.Success? && Holds(r.value, both + {Fact(SoaKey(z), soa)} + more)
    ensures NoOriginSoa(z, d.deletions) && NoOriginSoa(z, d.additions)
  {
    hide Holds, Consistent, Lists, InZone, Apply, IsRecord, NoOriginSoa, ReplaceIn, SoaKey;
    DeleteListed(z, store, all, d.deletions, gone);
    var deleted := Apply(z, true, store, d.deletions).value;
    assert forall f | f in {Fact(SoaKey(z), was)} :: f.key == SoaKey(z);
    ReplaceSoa(z, deleted, both, {Fact(SoaKey(z), was)}, d.newSoa, soa);
    AddListed(z, ReplaceIn(z, deleted, d.newSoa).value, both + {Fact(SoaKey(z), soa)}, d.additions, more);
  }

  /** The difference between two versions turns the content of the first into that of the second. */
  lemma {:induction false} DiffApplies(z: ZoneInfo, store: Store, d: Diff, a: Version, b: Version)
    requires ZoneContent(z, a) && ZoneContent(z, b) && Between(z, d, a, b) && Holds(store, Facts(z, a))
    ensures var r := ApplyDiff(z, store, d); r.Success? && Holds(r.value, Facts(z, b))
    ensures NoOriginSoa(z, d.deletions) && NoOriginSoa(z, d.additions)
  {
    SplitContent(z, a, b);
    hide Holds, Consistent, Lists, InZone, ApplyDiff, IsRecord, ZoneContent, NoOriginSoa, SoaKey;
    PartsApply(z, store, d, a.rest * b.rest, a.rest - b.rest, b.rest - a.rest, Facts(z, a), a.soa, b.soa);
  }

  /** Two SOA records of a zone are the same RRset exactly when their data are. */
  lemma SameSoa(z: ZoneInfo, r: RRset, a: Version, t: RRset, b: Version)
    requires IsSoaOf(z, r, a) && IsSoaOf(z, t, b)
    ensures SameRRset(r, t) <==> a.soa == b.soa
    ensures OriginSoa(z, r) && Serial(r) == a.soa.serial
  {
    assert ItemSet(r) == {a.soa} && ItemSet(t) == {b.soa};
  }

  // ---------- Whole chains of versions ----------

  lemma {:induction false} VersionsChain(z: ZoneInfo, first: RRset, store: Store, diffs: seq<Diff>,
                                         versions: seq<Version>, last: RRset)
    returns (result: Store)
    requires Consecutive(z, diffs, versions) && forall v | v in versions :: ZoneContent(z, v)
    requires Holds(store, Facts(z, versions[0]))
    requires IsSoaOf(z, first, versions[|diffs|]) && IsSoaOf(z, last, versions[|diffs|])
    requires forall i | 0 <= i < |diffs| :: versions[i].soa != versions[|diffs|].soa
    ensures Chain(z, first, versions[0].soa.serial, store, diffs, last, result)
    ensures Holds(result, Facts(z, versions[|diffs|]))
    decreases diffs
  {
    hide Holds, ZoneContent, Facts, IsSoaOf, SameRRset, ReplaceIn, ApplyDiff;
    if diffs == [] {
      result := SoaAgain(z, store, versions[0], last);
      SameSoa(z, last, versions[0], first, versions[0]);
    } else {
      var (d, a, b) := (diffs[0], versions[0], versions[1]);
      assert Between(z, d, a, b);
      assert a in versions && b in versions;
      DiffApplies(z, store, d, a, b);
      SameSoa(z, d.oldSoa, a, first, versions[|diffs|]);
      SameSoa(z, d.newSoa, b, first, versions[|diffs|]);
      var t := ApplyDiff(z, store, d).value;
      result := VersionsChain(z, first, t, diffs[1..], versions[1..], last);
    }
  }

  lemma {:induction false} SoaAgain(z: ZoneInfo, store: Store, v: Version, last: RRset) returns (result: Store)
    requires ZoneContent(z, v) && Holds(store, Facts(z, v)) && IsSoaOf(z, last, v)
    ensures ReplaceIn(z, store, last) == Success(result) && Holds(result, Facts(z, v))
  {
    ReplaceSoa(z, store, v.rest, {Fact(SoaKey(z), v.soa)}, last, v.soa);
    result := ReplaceIn(z, store, last).value;
  }

  /** A server that answers with the differences between its consecutive versions brings a client from
      the first of them to the last: the transfer is accepted, and commits exactly that version's
      data, over however many messages it is spread and whether or not they repeat the question. The
      last version's SOA must not have occurred before, and its serial must be another than the
      client's and not behind it. */
  lemma {:induction false} IncrementalTransfer(z: ZoneInfo, zone: Store, commits: nat, versions: seq<Version>,
      diffs: seq<Diff>, first: RRset, last: RRset, ms: seq<Message>)
    requires diffs != [] && Consecutive(z, diffs, versions) && forall v | v in versions :: ZoneContent(z, v)
    requires Holds(zone, Facts(z, versions[0]))
    requires IsSoaOf(z, first, versions[|diffs|]) && IsSoaOf(z, last, versions[|diffs|])
    requires forall i | 0 <= i < |diffs| :: versions[i].soa != versions[|diffs|].soa
    requires var (n, target) := (versions[0].soa.serial, versions[|diffs|].soa.serial);
             target != n && !Less(target, n)
    requires Concat(ms) == [first] + Flatten(diffs) + [last]
    requires ms != [] && ms[0].answer != [] && Headers(z, IXFR, ms)
    ensures var o := Run(z, Start(IXFR, versions[0].soa.serial, zone, commits), ms, false);
            && o.error.None? && o.state.done && o.state.commits == commits + 1
            && Holds(o.state.zone, Facts(z, versions[|diffs|]))
  {
    var n := versions[0].soa.serial;
    SameSoa(z, first, versions[|diffs|], last, versions[|diffs|]);
    var result := VersionsChain(z, first, zone, diffs, versions, last);
    assert Between(z, diffs[0], versions[0], versions[1]);
    SameSoa(z, diffs[0].oldSoa, versions[0], first, versions[|diffs|]);
    assert Concat(ms)[1] == diffs[0].oldSoa;
    NotAskedAgain(z, n, ms);
    hide *;
    ChainTransfers(z, n, zone, first, diffs, last, result);
    TransferredRuns(z, IXFR, n, zone, commits, ms, result);
  }

  lemma {:induction false} ChainTransfers(z: ZoneInfo, n: serial, zone: Store, first: RRset, diffs: seq<Diff>,
      last: RRset, result: Store)
    requires diffs != [] && OriginSoa(z, first) && Serial(first) != n && !Less(Serial(first), n)
    requires Chain(z, first, n, zone, diffs, last, result)
    ensures Transferred(z, IXFR, n, zone, [first] + Flatten(diffs) + [last], result)
  {
    hide Chain, Flatten, AxfrTail, OriginSoa, Less;
    var rs := [first] + Flatten(diffs) + [last];
    assert rs[1..][..|rs[1..]| - 1] == Flatten(diffs);
    assert IxfrTail(z, rs[0], n, zone, rs[1..], result, diffs);
  }

  /** A server that answers with its whole zone: the client ends with exactly that, whatever it had,
      also when it had asked for the differences (unless the zone is nothing but its SOA, which such a
      client takes for an empty sequence of differences, or the question comes again later on). */
  lemma {:induction false} WholeZoneTransfer(z: ZoneInfo, kind: Kind, n: serial, zone: Store, commits: nat,
      v: Version, first: RRset, data: seq<RRset>, last: RRset, ms: seq<Message>)
    requires ZoneContent(z, v) && Lists(z, data, v.rest) && IsSoaOf(z, first, v) && IsSoaOf(z, last, v)
    requires kind == IXFR ==> data != [] && v.soa.serial != n && !Less(v.soa.serial, n)
    requires Concat(ms) == [first] + data + [last]
    requires ms != [] && ms[0].answer != [] && Headers(z, kind, ms) && !(kind == IXFR && AskedAgain(z, n, ms))
    ensures var o := Run(z, Start(kind, n, zone, commits), ms, false);
            && o.error.None? && o.state.done && o.state.commits == commits + 1
            && Holds(o.state.zone, Facts(z, v))
  {
    var result := WholeZoneBuilt(z, v, data, last);
    SameSoa(z, first, v, last, v);
    assert ItemSet(first) == ItemSet(last);
    assert Concat(ms)[1..][..|Concat(ms)[1..]| - 1] == data;
    hide Apply, ReplaceIn, NoOriginSoa, Holds, ZoneContent, Run, Concat, Lists;
    TransferredRuns(z, kind, n, zone, commits, ms, result);
  }

  lemma {:induction false} WholeZoneBuilt(z: ZoneInfo, v: Version, data: seq<RRset>,
      last: RRset) returns (result: Store)
    requires ZoneContent(z, v) && Lists(z, data, v.rest) && IsSoaOf(z, last, v)
    ensures NoOriginSoa(z, data) && Holds(result, Facts(z, v))
    ensures var a := Apply(z, false, map[], data); a.Success? && ReplaceIn(z, a.value, last) == Success(result)
  {
    ConsistentSubset(v.rest, Facts(z, v));
    assert {} + v.rest == v.rest && v.rest + {} == v.rest;
    assert forall f | f in v.rest :: f.key.rdtype != SOA && InZone(f.key.owner, z.origin);
    assert Holds(map[], {});
    assert Consistent(Facts(z, v));
    hide Holds, Consistent, Lists, InZone, Apply, ReplaceIn, ZoneContent;
    AddListed(z, map[], {}, data, v.rest);
    var added := Apply(z, false, map[], data).value;
    ReplaceSoa(z, added, v.rest, {}, last, v.soa);
    result := ReplaceIn(z, added, last).value;
  }
}
