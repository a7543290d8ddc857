/** What records of one name, class and type become when they are read: the RRset of `Rdataset.add`. */
module Merging {
  import opened Wrappers
  import opened Names
  import opened Records
  import opened Messages
  import opened RoundTrip

  /** The RRset holds the data of the records, or of the last one if there can only be one, and the
      smallest of their TTLs; a TTL with its top bit set counts as zero. */
  ghost predicate Merged(rrset: RRset, recs: seq<Record>) {
    && recs != []
    && (forall rec | rec in recs :: rrset.ttl <= TtlRead(rec))
    && (exists rec :: rec in recs && rrset.ttl == TtlRead(rec))
    && (if rrset.rdtype in {5, 6, 30, 39, 47} then rrset.items == [recs[|recs| - 1].data]
        else (forall data :: data in rrset.items <==> exists rec :: rec in recs && rec.data == data)
             && forall i, j | 0 <= i < j < |rrset.items| :: rrset.items[i] != rrset.items[j])
  }

  function TtlRead(rec: Record): nat {
    if rec.ttl >= 0x8000_0000 then 0 else rec.ttl
  }

  function KeyOfRecord(rec: Record): Key {
    Key(Canonical(rec.name), rec.rdclass, rec.rdtype)
  }

  lemma MergeOne(rrset: RRset, recs: seq<Record>, rec: Record)
    requires Merged(rrset, recs) && rrset.items != []
    ensures var r := AddItem(rrset, rec.data, NormalTtl(rec.ttl)); Merged(r, recs + [rec]) && r.items != []
  {
    var r := AddItem(rrset, rec.data, NormalTtl(rec.ttl));
    var more := recs + [rec];
    assert rec in more && forall other | other in recs :: other in more;
    assert forall other | other in more :: other in recs || other == rec;
    var least :| least in recs && rrset.ttl == TtlRead(least);
    assert r.ttl == TtlRead(least) || r.ttl == TtlRead(rec);
  }

  lemma OnlyOne(rrset: RRset, rec: Record)
    requires KeyOf(rrset) == KeyOfRecord(rec)
    ensures AddRecord([rrset], rec) == [AddItem(rrset, rec.data, NormalTtl(rec.ttl))]
  {
    assert [rrset][..0] == [];
    assert Find([rrset][..0], KeyOf(rrset)) == None;
  }

  lemma {:induction false} MergeRest(rrset: RRset, read: seq<Record>, recs: seq<Record>) returns (r: RRset)
    requires Merged(rrset, read) && rrset.items != []
    requires forall rec | rec in recs :: KeyOfRecord(rec) == KeyOf(rrset)
    ensures Group([rrset], recs) == [r] && Merged(r, read + recs) && r.name == rrset.name
    decreases |recs|
  {
    if recs == [] {
      r := rrset;
      assert read + recs == read;
    } else {
      var next := AddItem(rrset, recs[0].data, NormalTtl(recs[0].ttl));
      MergeOne(rrset, read, recs[0]);
      OnlyOne(rrset, recs[0]);
      assert KeyOf(next) == KeyOf(rrset);
      hide Merged, AddRecord, AddItem;
      r := MergeRest(next, read + [recs[0]], recs[1..]);
      assert read + [recs[0]] + recs[1..] == read + recs;
    }
  }

  /** Records of one name (up to case), class and type become one RRset. */
  lemma {:induction false} RecordsMerge(recs: seq<Record>) returns (r: RRset)
    requires recs != [] && forall rec | rec in recs :: KeyOfRecord(rec) == KeyOfRecord(recs[0])
    ensures Group([], recs) == [r] && Merged(r, recs) && r.name == recs[0].name
  {
    var first := AddItem(RRset(recs[0].name, recs[0].rdclass, recs[0].rdtype, 0, []), recs[0].data,
                         NormalTtl(recs[0].ttl));
    assert AddRecord([], recs[0]) == [first];
    assert [recs[0]][0] in [recs[0]];
    assert Merged(first, [recs[0]]);
    r := MergeRest(first, [recs[0]], recs[1..]);
    assert [recs[0]] + recs[1..] == recs;
  }
}
