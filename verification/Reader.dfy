/** The wire reader of `dns/message.py`: a parser, the sections read so far, and an index of them. */
module Reader {
  import opened Wrappers
  import opened RdataTypes
  import opened Names
  import opened Wire
  import opened Records
  import opened Renderer
  import opened Messages

  type Index = map<(nat, Key), nat>

  function Lookup(index: Index, s: nat, key: Key): Option<nat> {
    if (s, key) in index then Some(index[(s, key)]) else None
  }

  /** The index and a scan of the section find the same RRset, in every section but the question. */
  ghost predicate IndexAgrees(sections: seq<seq<RRset>>, index: Index) {
    && |sections| == 4
    && forall s: nat, key: Key | 1 <= s < 4 :: Lookup(index, s, key) == Find(sections[s], key)
  }

  lemma FindAppend(section: seq<RRset>, rrset: RRset, key: Key)
    ensures Find(section + [rrset], key)
            == if Find(section, key).Some? then Find(section, key)
               else if KeyOf(rrset) == key then Some(|section|) else None
  {
    assert (section + [rrset])[..|section|] == section;
  }

  lemma {:induction false} FindUpdate(section: seq<RRset>, i: nat, rrset: RRset, key: Key)
    requires i < |section| && KeyOf(rrset) == KeyOf(section[i])
    ensures Find(section[i := rrset], key) == Find(section, key)
  {
    var last := |section| - 1;
    if i < last {
      assert section[i := rrset][..last] == section[..last][i := rrset];
      FindUpdate(section[..last], i, rrset, key);
    } else {
      assert section[i := rrset][..last] == section[..last];
    }
  }

  lemma ReadRecordsStep(w: seq<byte>, pos: nat, n: nat, section: seq<RRset>)
    ensures var rec := ReadRecord(w, pos);
            ReadRecords(w, pos, n, section)
            == if n == 0 then Success((section, pos))
               else if rec.Failure? then Failure(rec.error)
               else ReadRecords(w, rec.value.1, n - 1, AddRecord(section, rec.value.0))
  {
  }

  class WireReader {
    const parser: Parser
    var sections: seq<seq<RRset>>
    var index: Index

    ghost predicate Valid()
      reads this, parser
    {
      && parser.Valid() && parser.end == |parser.wire|
      && parser.current == parser.furthest
      && IndexAgrees(sections, index)
    }

    constructor (wire: seq<byte>)
      ensures Valid() && fresh(parser)
      ensures parser.wire == wire && parser.current == 0 && sections == [[], [], [], []]
    {
      parser := new Parser(wire);
      sections := [[], [], [], []];
      index := map[];
    }

    /** `find_rrset` with `create`: the position of the RRset with the key, through the index; a new
        RRset is appended when there is none, or when it is to be unique anyway. */
    method FindRRset(s: nat, name: seq<Label>, rdclass: uint16, rdtype: uint16, forceUnique: bool)
      returns (i: nat)
      requires Valid() && s < 4 && (forceUnique <==> s == 0)
      modifies this
      ensures Valid()
      ensures var new_ := RRset(name, rdclass, rdtype, 0, []);
              match (if s == 0 then None else Find(old(sections)[s], KeyOf(new_)))
              case Some(j) => i == j && sections == old(sections)
              case None => i == |old(sections)[s]| && sections == old(sections)[s := old(sections)[s] + [new_]]
    {
      var new_ := RRset(name, rdclass, rdtype, 0, []);
      var key := KeyOf(new_);
      if !forceUnique {
        assert Lookup(index, s, key) == Find(sections[s], key);
        if (s, key) in index {
          return index[(s, key)];
        }
      }
      i := |sections[s]|;
      forall k: Key
        ensures Find(sections[s] + [new_], k)
                == if Find(sections[s], k).Some? then Find(sections[s], k)
                   else if key == k then Some(i) else None
      {
        FindAppend(sections[s], new_, k);
      }
      sections := sections[s := sections[s] + [new_]];
      index := index[(s, key) := i];
    }

    /** `rrset.add` on the RRset at position i of section s. */
    method AddTo(s: nat, i: nat, data: Rdata, ttl: uint32)
      requires Valid() && s < 4 && i < |sections[s]|
      modifies this`sections
      ensures Valid()
      ensures sections == old(sections)[s := old(sections)[s][i := AddItem(old(sections)[s][i], data, ttl)]]
    {
      var rrset := AddItem(sections[s][i], data, ttl);
      forall key: Key
        ensures Find(sections[s][i := rrset], key) == Find(sections[s], key)
      {
        FindUpdate(sections[s], i, rrset, key);
      }
      sections := sections[s := sections[s][i := rrset]];
    }

    method GetQuestion() returns (r: Option<DnsError>)
      requires Valid()
      modifies this, parser
      ensures r.None? ==> Valid()
      ensures var q := ReadQuestion(parser.wire, old(parser.current));
              if r.Some? then q == Failure(r.value)
              else && q.Success? && parser.current == q.value.1
                   && sections == old(sections)[0 := old(sections)[0] + [q.value.0]]
    {
      hide AskedOf, WalkFrom;
      WalkShape(parser.wire, |parser.wire|, parser.current, parser.current);
      var qname := parser.GetName();
      if qname.Failure? {
        return Some(qname.error);
      }
      var fields := parser.GetBytes(4);
      if fields.Failure? {
        return Some(fields.error);
      }
      var (rdtype, rdclass) := AskedOf(fields.value);
      var _ := FindRRset(0, qname.value, rdclass, rdtype, true);
      return None;
    }

    /** Puts a record into its RRset, found or created. */
    method FileRecord(s: nat, rec: Record)
      requires Valid() && 1 <= s < 4
      modifies this
      ensures Valid()
      ensures sections == old(sections)[s := AddRecord(old(sections)[s], rec)]
    {
      ghost var section := sections[s];
      var i := FindRRset(s, rec.name, rec.rdclass, rec.rdtype, false);
      var ttl := if rec.ttl > 0x7FFFFFFF then 0 else rec.ttl;
      ghost var item := AddItem(sections[s][i], rec.data, ttl);
      assert i == |section| ==> (section + [sections[s][i]])[i := item] == section + [item];
      AddTo(s, i, rec.data, ttl);
      assert sections[s] == AddRecord(section, rec);
      assert sections == old(sections)[s := sections[s]];
    }

    method GetRecord(s: nat) returns (r: Option<DnsError>)
      requires Valid() && 1 <= s < 4
      modifies this, parser
      ensures r.None? ==> Valid()
      ensures var rec := ReadRecord(parser.wire, old(parser.current));
              if r.Some? then rec == Failure(r.value)
              else && rec.Success? && parser.current == rec.value.1
                   && sections == old(sections)[s := AddRecord(old(sections)[s], rec.value.0)]
    {
      hide FieldsOf, WalkFrom, Find;
      WalkShape(parser.wire, |parser.wire|, parser.current, parser.current);
      var name := parser.GetName();
      if name.Failure? {
        return Some(name.error);
      }
      var fields := parser.GetBytes(10);
      if fields.Failure? {
        return Some(fields.error);
      }
      var f := FieldsOf(fields.value);
      if f.rdtype == OPT || f.rdtype == TSIG {
        return Some(NotModelled);
      }
      var data := parser.GetRestricted(f.rdlen);
      if data.Failure? {
        return Some(data.error);
      }
      var rec := Record(name.value, f.rdclass, f.rdtype, f.ttl, data.value);
      assert ReadRecord(parser.wire, old(parser.current)) == Success((rec, parser.current));
      FileRecord(s, rec);
      return None;
    }

    method GetQuestionSection(count: nat) returns (r: Option<DnsError>)
      requires Valid()
      modifies this, parser
      ensures r.None? ==> Valid()
      ensures var all := ReadQuestions(parser.wire, old(parser.current), count, old(sections)[0]);
              if r.Some? then all == Failure(r.value)
              else && all == Success((sections[0], parser.current))
                   && sections == old(sections)[0 := sections[0]]
    {
      for left := count downto 0
        invariant Valid()
        invariant sections == old(sections)[0 := sections[0]]
        invariant ReadQuestions(parser.wire, parser.current, left, sections[0])
                  == ReadQuestions(parser.wire, old(parser.current), count, old(sections)[0])
      {
        var error := GetQuestion();
        if error.Some? {
          return error;
        }
      }
      return None;
    }

    method GetSection(s: nat, count: nat) returns (r: Option<DnsError>)
      requires Valid() && 1 <= s < 4
      modifies this, parser
      ensures r.None? ==> Valid()
      ensures var all := ReadRecords(parser.wire, old(parser.current), count, old(sections)[s]);
              if r.Some? then all == Failure(r.value)
              else && all == Success((sections[s], parser.current))
                   && sections == old(sections)[s := sections[s]]
    {
      hide ReadRecord, AddRecord, ReadRecords, Find;
      ghost var w := parser.wire;
      ghost var all := ReadRecords(w, parser.current, count, sections[s]);
      for left := count downto 0
        invariant Valid()
        invariant sections == old(sections)[s := sections[s]]
        invariant ReadRecords(w, parser.current, left, sections[s]) == all
      {
        ReadRecordsStep(w, parser.current, left + 1, sections[s]);
        var error := GetRecord(s);
        if error.Some? {
          return error;
        }
      }
      ReadRecordsStep(w, parser.current, 0, sections[s]);
      return None;
    }

    method Read() returns (r: Result<Message, DnsError>)
      requires Valid() && parser.current == 0 && sections == [[], [], [], []]
      modifies this, parser
      ensures r == ReadMessage(parser.wire)
    {
      hide ReadQuestions, ReadRecords, Find, Uint16;
      if parser.end - parser.current < HEADER_SIZE {
        return Failure(ShortHeader);
      }
      var header := parser.GetBytes(HEADER_SIZE);
      var (id, flags) := (Read16(header.value, 0), Read16(header.value, 2));
      if Opcode(flags) == UPDATE {
        return Failure(NotModelled);
      }
      var (qcount, ancount) := (Read16(header.value, 4), Read16(header.value, 6));
      var (aucount, adcount) := (Read16(header.value, 8), Read16(header.value, 10));
      var error := GetQuestionSection(qcount);
      if error.Some? {
        return Failure(error.value);
      }
      error := GetSection(ANSWER, ancount);
      if error.Some? {
        return Failure(error.value);
      }
      error := GetSection(AUTHORITY, aucount);
      if error.Some? {
        return Failure(error.value);
      }
      error := GetSection(ADDITIONAL, adcount);
      if error.Some? {
        return Failure(error.value);
      }
      if parser.end - parser.current != 0 {
        return Failure(TrailingJunk);
      }
      assert sections == [sections[0], sections[1], sections[2], sections[3]];
      return Success(Message(id, flags, sections));
    }
  }
}
