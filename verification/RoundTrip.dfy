/** Reading what was rendered gives an equal message. */
module RoundTrip {
  import opened Wrappers
  import opened RdataTypes
  import opened Names
  import opened Wire
  import opened NameWire
  import opened Records
  import opened Renderer
  import opened Messages
  import opened Sizes
  import Reader

  // ---------- Equality of messages ----------

  /** `Set.__eq__` on the item dictionaries. */
  ghost predicate SameItems(a: seq<Rdata>, b: seq<Rdata>) {
    forall x :: x in a <==> x in b
  }

  /** `RRset.__eq__`: name (up to case), class, type and set of items; not the TTL. */
  ghost predicate RRsetEq(a: RRset, b: RRset) {
    KeyOf(a) == KeyOf(b) && SameItems(a.items, b.items)
  }

  ghost predicate In(rrset: RRset, section: seq<RRset>) {
    exists i | 0 <= i < |section| :: RRsetEq(rrset, section[i])
  }

  ghost predicate SectionEq(a: seq<RRset>, b: seq<RRset>) {
    && (forall i | 0 <= i < |a| :: In(a[i], b))
    && (forall i | 0 <= i < |b| :: In(b[i], a))
  }

  /** `Message.__eq__`. */
  ghost predicate MessageEq(a: Message, b: Message) {
    && a.id == b.id && a.flags == b.flags
    && |a.sections| == |b.sections|
    && forall s | 0 <= s < |a.sections| :: SectionEq(a.sections[s], b.sections[s])
  }

  // ---------- Messages that can be read back ----------

  predicate Distinct<T(==)>(items: seq<T>) {
    forall i, j | 0 <= i < j < |items| :: items[i] != items[j]
  }

  /** An RRset as `add` builds it, of a type the reader gives no special meaning. */
  predicate Plain(rrset: RRset) {
    && rrset.items != [] && Distinct(rrset.items)
    && (IsSingleton(rrset.rdtype) ==> |rrset.items| == 1)
    && rrset.rdtype != OPT && rrset.rdtype != TSIG
  }

  predicate AbsoluteNames(section: seq<RRset>) {
    forall i | 0 <= i < |section| :: IsAbsolute(section[i].name)
  }

  ghost predicate PlainSection(section: seq<RRset>) {
    && AbsoluteNames(section)
    && (forall i | 0 <= i < |section| :: Plain(section[i]))
    && forall i, j | 0 <= i < j < |section| :: KeyOf(section[i]) != KeyOf(section[j])
  }

  /** A message with absolute names, no OPT, TSIG or update, questions without data, and RRsets with
      data, of which no two in a section have the same name, class and type. */
  ghost predicate PlainMessage(m: Message) {
    && |m.sections| == 4 && Opcode(m.flags) != UPDATE
    && AbsoluteNames(m.sections[0]) && (forall i | 0 <= i < |m.sections[0]| :: m.sections[0][i].items == [])
    && PlainSection(m.sections[1]) && PlainSection(m.sections[2]) && PlainSection(m.sections[3])
  }

  // ---------- Records that stand somewhere in the bytes ----------

  predicate NameLow(w: seq<byte>, pos: nat) {
    WalkFrom(w, |w|, pos, pos).lo >= HEADER_SIZE
  }

  /** The records are read one after the other from pos to end, without looking into the header. */
  predicate RecordsAt(w: seq<byte>, pos: nat, recs: seq<Record>, end: nat)
    decreases |recs|
  {
    if recs == [] then pos == end
    else
      var r := ReadRecord(w, pos);
      r.Success? && r.value.0 == recs[0] && NameLow(w, pos) && RecordsAt(w, r.value.1, recs[1..], end)
  }

  predicate QuestionsAt(w: seq<byte>, pos: nat, qs: seq<RRset>, end: nat)
    decreases |qs|
  {
    if qs == [] then pos == end
    else
      var r := ReadQuestion(w, pos);
      r.Success? && r.value.0 == qs[0] && NameLow(w, pos) && QuestionsAt(w, r.value.1, qs[1..], end)
  }

  predicate Agree(w: seq<byte>, w': seq<byte>, end: nat) {
    end <= |w| && end <= |w'| && forall i | HEADER_SIZE <= i < end :: w[i] == w'[i]
  }

  lemma NameFrame(w: seq<byte>, w': seq<byte>, pos: nat, end: nat)
    requires ReadName(w, pos).Success? && NameLow(w, pos)
    requires ReadName(w, pos).value.1 <= end && Agree(w, w', end)
    ensures ReadName(w', pos) == ReadName(w, pos) && NameLow(w', pos)
    ensures pos < ReadName(w, pos).value.1
  {
    WalkShape(w, |w|, pos, pos);
    WalkFrame(w, |w|, w', |w'|, pos, pos);
  }

  lemma RecordFrame(w: seq<byte>, w': seq<byte>, pos: nat, end: nat)
    requires ReadRecord(w, pos).Success? && NameLow(w, pos)
    requires ReadRecord(w, pos).value.1 <= end && Agree(w, w', end) && HEADER_SIZE <= pos
    ensures ReadRecord(w', pos) == ReadRecord(w, pos) && NameLow(w', pos)
    ensures pos < ReadRecord(w, pos).value.1
  {
    NameFrame(w, w', pos, end);
    var p := ReadName(w, pos).value.1;
    assert w[p..p + 10] == w'[p..p + 10];
    assert w[p + 10..end] == w'[p + 10..end];
    var data := ReadRecord(w, pos).value.0.data;
    assert w[p + 10..p + 10 + |data|] == w[p + 10..end][..|data|];
    assert w'[p + 10..p + 10 + |data|] == w'[p + 10..end][..|data|];
  }

  lemma QuestionFrame(w: seq<byte>, w': seq<byte>, pos: nat, end: nat)
    requires ReadQuestion(w, pos).Success? && NameLow(w, pos)
    requires ReadQuestion(w, pos).value.1 <= end && Agree(w, w', end) && HEADER_SIZE <= pos
    ensures ReadQuestion(w', pos) == ReadQuestion(w, pos) && NameLow(w', pos)
    ensures pos < ReadQuestion(w, pos).value.1
  {
    NameFrame(w, w', pos, end);
    var p := ReadName(w, pos).value.1;
    assert w[p..p + 4] == w'[p..p + 4];
  }

  lemma {:induction false} RecordsFrame(w: seq<byte>, w': seq<byte>, pos: nat, recs: seq<Record>, end: nat)
    requires RecordsAt(w, pos, recs, end) && Agree(w, w', end) && HEADER_SIZE <= pos
    ensures RecordsAt(w', pos, recs, end) && pos <= end
    decreases |recs|
  {
    if recs != [] {
      var next := ReadRecord(w, pos).value.1;
      RecordsOrder(w, next, recs[1..], end);
      RecordFrame(w, w', pos, end);
      RecordsFrame(w, w', next, recs[1..], end);
    }
  }

  lemma {:induction false} RecordsOrder(w: seq<byte>, pos: nat, recs: seq<Record>, end: nat)
    requires RecordsAt(w, pos, recs, end)
    ensures pos <= end
    decreases |recs|
  {
    if recs != [] {
      WalkShape(w, |w|, pos, pos);
      RecordsOrder(w, ReadRecord(w, pos).value.1, recs[1..], end);
    }
  }

  lemma {:induction false} QuestionsFrame(w: seq<byte>, w': seq<byte>, pos: nat, qs: seq<RRset>, end: nat)
    requires QuestionsAt(w, pos, qs, end) && Agree(w, w', end) && HEADER_SIZE <= pos
    ensures QuestionsAt(w', pos, qs, end) && pos <= end
    decreases |qs|
  {
    if qs != [] {
      var next := ReadQuestion(w, pos).value.1;
      QuestionsOrder(w, next, qs[1..], end);
      QuestionFrame(w, w', pos, end);
      QuestionsFrame(w, w', next, qs[1..], end);
    }
  }

  lemma {:induction false} QuestionsOrder(w: seq<byte>, pos: nat, qs: seq<RRset>, end: nat)
    requires QuestionsAt(w, pos, qs, end)
    ensures pos <= end
    decreases |qs|
  {
    if qs != [] {
      WalkShape(w, |w|, pos, pos);
      QuestionsOrder(w, ReadQuestion(w, pos).value.1, qs[1..], end);
    }
  }

  lemma {:induction false} RecordsAppend(
      w: seq<byte>, pos: nat, a: seq<Record>, mid: nat, b: seq<Record>, end: nat)
    requires RecordsAt(w, pos, a, mid) && RecordsAt(w, mid, b, end)
    ensures RecordsAt(w, pos, a + b, end)
    decreases |a|
  {
    hide ReadRecord, NameLow;
    if a == [] {
      assert a + b == b;
    } else {
      assert (a + b)[1..] == a[1..] + b;
      RecordsAppend(w, ReadRecord(w, pos).value.1, a[1..], mid, b, end);
    }
  }

  // ---------- What each write puts there ----------

  /** The records expected for an RRset written in some order, names up to case. */
  function Expected(rrset: RRset, order: seq<Rdata>): (r: seq<Record>)
    ensures |r| == |order|
  {
    seq(|order|, i requires 0 <= i < |order| =>
      Record(Canonical(rrset.name), rrset.rdclass, rrset.rdtype, rrset.ttl, order[i]))
  }

  function Folded(recs: seq<Record>): (r: seq<Record>)
    ensures |r| == |recs|
  {
    seq(|recs|, i requires 0 <= i < |recs| => recs[i].(name := Canonical(recs[i].name)))
  }

  lemma {:induction false} CanonicalLength(a: seq<Label>, b: seq<Label>)
    requires Canonical(a) == Canonical(b)
    ensures WireLength(a) == WireLength(b)
    decreases |a|
  {
    if a != [] {
      assert |a| == |Canonical(b)| == |b|;
      assert LowerLabel(a[0]) == Canonical(a)[0] == Canonical(b)[0] == LowerLabel(b[0]);
      assert Canonical(a[1..]) == Canonical(a)[1..] && Canonical(b[1..]) == Canonical(b)[1..];
      CanonicalLength(a[1..], b[1..]);
    } else {
      assert |b| == |Canonical(a)| == 0;
    }
  }

  /** A name just written is read back: up to case, ending where the writing ended. */
  lemma NameWritten(wr: Written, labels: seq<Label>, origin: Origin)
    requires Rendered(wr) && ValidName(labels) && IsAbsolute(labels) && (origin.Some? ==> ValidName(origin.value))
    ensures var w := NameResult(wr, labels, origin, false).0.out;
            && ReadName(w, |wr.out|).Success? && NameLow(w, |wr.out|)
            && Canonical(ReadName(w, |wr.out|).value.0) == Canonical(labels)
            && ReadName(w, |wr.out|).value.1 == |w|
  {
    CompressionSound(labels, wr, HEADER_SIZE, false);
    var w := WriteFrom(labels, wr, false).out;
    var k := WalkFrom(w, |w|, |wr.out|, |wr.out|);
    WalkShape(w, |w|, |wr.out|, |wr.out|);
    CanonicalLength(k.name.value, labels);
    assert ValidName(k.name.value);
  }

  lemma HeaderFields(rdtype: uint16, rdclass: uint16, ttl: uint32, rdlen: uint16)
    ensures FieldsOf(RecordHeader(rdtype, rdclass, ttl, rdlen)) == Fields(rdtype, rdclass, ttl, rdlen)
  {
    Unpack16(rdtype);
    Unpack16(rdclass);
    Unpack32(ttl);
    Unpack16(rdlen);
  }

  lemma AskedFields(rdtype: uint16, rdclass: uint16)
    ensures AskedOf(PackUint16(rdtype) + PackUint16(rdclass)) == (rdtype, rdclass)
  {
    Unpack16(rdtype);
    Unpack16(rdclass);
  }

  lemma RecordWritten(wr: Written, rrset: RRset, origin: Origin, data: Rdata) returns (rec: Record)
    requires Rendered(wr) && Named(rrset, origin) && IsAbsolute(rrset.name) && |data| < 0x1_0000
    requires rrset.rdtype != OPT && rrset.rdtype != TSIG
    ensures var r := RecordResult(wr, rrset, origin, data).0;
            && ReadRecord(r.out, |wr.out|) == Success((rec, |r.out|)) && NameLow(r.out, |wr.out|)
    ensures rec == Record(rec.name, rrset.rdclass, rrset.rdtype, rrset.ttl, data)
    ensures Canonical(rec.name) == Canonical(rrset.name)
  {
    hide WalkFrom, WriteFrom, RecordHeader, ReadRecord, WireLabels, ValidName;
    var named := NameResult(wr, rrset.name, origin, false).0;
    var w := RecordResult(wr, rrset, origin, data).0.out;
    NameWritten(wr, rrset.name, origin);
    NameRendered(wr, rrset.name, origin);
    var p := |named.out|;
    assert Agree(named.out, w, p);
    NameFrame(named.out, w, |wr.out|, p);
    rec := Record(ReadName(w, |wr.out|).value.0, rrset.rdclass, rrset.rdtype, rrset.ttl, data);
    assert w[p..] == RecordHeader(rec.rdtype, rec.rdclass, rec.ttl, |data|) + data;
    BodyRead(w, |wr.out|, p, rec);
  }

  lemma BodyRead(w: seq<byte>, pos: nat, p: nat, rec: Record)
    requires ReadName(w, pos) == Success((rec.name, p)) && p <= |w|
    requires |rec.data| < 0x1_0000 && rec.rdtype != OPT && rec.rdtype != TSIG
    requires w[p..] == RecordHeader(rec.rdtype, rec.rdclass, rec.ttl, |rec.data|) + rec.data
    ensures ReadRecord(w, pos) == Success((rec, |w|))
  {
    hide FieldsOf, RecordHeader, ReadName;
    var header := RecordHeader(rec.rdtype, rec.rdclass, rec.ttl, |rec.data|);
    assert w[p..p + 10] == w[p..][..10] == header;
    assert w[p + 10..] == w[p..][10..] == rec.data;
    HeaderFields(rec.rdtype, rec.rdclass, rec.ttl, |rec.data|);
    assert p + 10 + |rec.data| == |w|;
    assert w[p + 10..p + 10 + |rec.data|] == rec.data;
  }

  lemma {:induction false} RecordsWritten(wr: Written, rrset: RRset, origin: Origin, order: seq<Rdata>)
    returns (recs: seq<Record>)
    requires Rendered(wr) && Named(rrset, origin) && IsAbsolute(rrset.name)
    requires rrset.rdtype != OPT && rrset.rdtype != TSIG
    requires RecordsResult(wr, rrset, origin, order).1 == None
    ensures var w := RecordsResult(wr, rrset, origin, order).0.out;
            RecordsAt(w, |wr.out|, recs, |w|)
    ensures Folded(recs) == Expected(rrset, order)
    decreases |order|
  {
    hide WalkFrom, WriteFrom, RecordHeader, ReadRecord, NameLow, WireLabels;
    recs := [];
    if order != [] {
      var rec := RecordWritten(wr, rrset, origin, order[0]);
      RecordRendered(wr, rrset, origin, order[0]);
      var next := RecordResult(wr, rrset, origin, order[0]).0;
      var rest := RecordsWritten(next, rrset, origin, order[1..]);
      RecordsRendered(next, rrset, origin, order[1..]);
      var w := RecordsResult(next, rrset, origin, order[1..]).0.out;
      assert Agree(next.out, w, |next.out|);
      RecordFrame(next.out, w, |wr.out|, |next.out|);
      recs := [rec] + rest;
      assert recs[1..] == rest;
      FoldedStep(recs, rrset, order);
    }
  }

  lemma FoldedStep(recs: seq<Record>, rrset: RRset, order: seq<Rdata>)
    requires recs != [] && order != []
    requires Folded(recs[1..]) == Expected(rrset, order[1..])
    requires recs[0] == Record(recs[0].name, rrset.rdclass, rrset.rdtype, rrset.ttl, order[0])
    requires Canonical(recs[0].name) == Canonical(rrset.name)
    ensures Folded(recs) == Expected(rrset, order)
  {
    assert |recs[1..]| == |order[1..]|;
    forall i | 0 <= i < |recs|
      ensures Folded(recs)[i] == Expected(rrset, order)[i]
    {
      if i > 0 {
        assert Folded(recs)[i] == Folded(recs[1..])[i - 1];
        assert Expected(rrset, order)[i] == Expected(rrset, order[1..])[i - 1];
      }
    }
  }

  function ExpectedAll(rrsets: seq<RRset>, orders: seq<seq<Rdata>>): seq<Record>
    requires |orders| == |rrsets|
  {
    if rrsets == [] then [] else Expected(rrsets[0], orders[0]) + ExpectedAll(rrsets[1..], orders[1..])
  }

  lemma FoldedAppend(a: seq<Record>, b: seq<Record>)
    ensures Folded(a + b) == Folded(a) + Folded(b)
  {
  }

  /** From a to b the renderer has written exactly the records, and counted them. */
  ghost predicate Wrote(a: Rendering, b: Rendering, s: nat, recs: seq<Record>) {
    && Going(a) && Going(b) && s < 4 && HEADER_SIZE <= |a.wr.out| && a.wr.out <= b.wr.out
    && RecordsAt(b.wr.out, |a.wr.out|, recs, |b.wr.out|)
    && b.counts == a.counts[s := a.counts[s] + |recs|]
  }

  lemma WroteNothing(a: Rendering, s: nat)
    requires Going(a) && s < 4
    ensures Wrote(a, a, s, [])
  {
  }

  lemma WroteBoth(a: Rendering, b: Rendering, c: Rendering, s: nat, first: seq<Record>, rest: seq<Record>)
    requires Wrote(a, b, s, first) && Wrote(b, c, s, rest)
    ensures Wrote(a, c, s, first + rest)
  {
    hide ReadRecord, NameLow;
    RecordsStay(b.wr.out, c.wr.out, |a.wr.out|, first);
    RecordsAppend(c.wr.out, |a.wr.out|, first, |b.wr.out|, rest, |c.wr.out|);
    CountedTwice(a.counts, s, |first|, |rest|);
  }

  lemma CountedTwice(counts: seq<nat>, s: nat, a: nat, b: nat)
    requires s < |counts|
    ensures var once := counts[s := counts[s] + a];
            once[s := once[s] + b] == counts[s := counts[s] + (a + b)]
  {
  }

  lemma RecordsStay(w: seq<byte>, w': seq<byte>, pos: nat, recs: seq<Record>)
    requires RecordsAt(w, pos, recs, |w|) && w <= w' && HEADER_SIZE <= pos
    ensures RecordsAt(w', pos, recs, |w|)
  {
    assert w == w'[..|w|];
    RecordsFrame(w, w', pos, recs, |w|);
  }

  lemma RRsetWritten(st: Rendering, s: nat, rrset: RRset, order: seq<Rdata>, origin: Origin)
    returns (recs: seq<Record>)
    requires Going(st) && s < 4 && Named(rrset, origin) && IsAbsolute(rrset.name) && Plain(rrset)
    requires multiset(order) == multiset(rrset.items)
    requires AddRRsetTo(st, s, rrset, origin, order).1 == None
    ensures Wrote(st, AddRRsetTo(st, s, rrset, origin, order).0, s, recs)
    ensures Folded(recs) == Expected(rrset, order)
  {
    hide RecordsAt, RecordsResult;
    assert |order| == |multiset(order)| == |multiset(rrset.items)| == |rrset.items|;
    recs := RecordsWritten(st.wr, rrset, origin, order);
    RRsetRendered(st.wr, rrset, origin, order);
    assert |recs| == |Folded(recs)| == |order|;
  }

  ghost predicate Ready(rrsets: seq<RRset>, orders: seq<seq<Rdata>>, origin: Origin) {
    && AllNamed(rrsets, origin) && OrdersOf(orders, rrsets)
    && AbsoluteNames(rrsets) && forall i | 0 <= i < |rrsets| :: Plain(rrsets[i])
  }

  lemma ReadyStep(rrsets: seq<RRset>, orders: seq<seq<Rdata>>, origin: Origin)
    requires Ready(rrsets, orders, origin) && rrsets != []
    ensures Named(rrsets[0], origin) && IsAbsolute(rrsets[0].name) && Plain(rrsets[0])
    ensures |orders| == |rrsets| && multiset(orders[0]) == multiset(rrsets[0].items)
    ensures AllNamed(rrsets[1..], origin) && Ready(rrsets[1..], orders[1..], origin)
  {
  }

  /** A section of plain RRsets, once written, reads as the expected records. */
  lemma {:induction false} SectionWritten(
      st: Rendering, s: nat, rrsets: seq<RRset>, orders: seq<seq<Rdata>>, origin: Origin)
    returns (recs: seq<Record>)
    requires Going(st) && s < 4 && AllNamed(rrsets, origin) && |orders| == |rrsets| && Ready(rrsets, orders, origin)
    requires AddRRsets(st, s, rrsets, orders, origin).1 == None
    ensures Wrote(st, AddRRsets(st, s, rrsets, orders, origin).0, s, recs)
    ensures Folded(recs) == ExpectedAll(rrsets, orders)
    decreases |rrsets|
  {
    recs := [];
    if rrsets == [] {
      WroteNothing(st, s);
    } else {
      assert st.wr.Fits();
      ReadyStep(rrsets, orders, origin);
      hide Wrote, AddRRsetTo, Expected, Folded, Plain, Ready, AllNamed, Rendered;
      var next := AddRRsetTo(st, s, rrsets[0], origin, orders[0]).0;
      var first := RRsetWritten(st, s, rrsets[0], orders[0], origin);
      OpKeeps(st, RRsetOp(s, rrsets[0], orders[0]), origin);
      var rest := SectionWritten(next, s, rrsets[1..], orders[1..], origin);
      WroteBoth(st, next, AddRRsets(next, s, rrsets[1..], orders[1..], origin).0, s, first, rest);
      FoldedAppend(first, rest);
      recs := first + rest;
    }
  }

  ghost predicate SameQuestions(qs: seq<RRset>, rrsets: seq<RRset>) {
    |qs| == |rrsets| && forall i | 0 <= i < |qs| :: KeyOf(qs[i]) == KeyOf(rrsets[i]) && qs[i].items == []
  }

  lemma QuestionWritten(wr: Written, q: Question, origin: Origin) returns (rrset: RRset)
    requires Rendered(wr) && QuestionNamed(q, origin) && IsAbsolute(q.name)
    ensures var w := QuestionResult(wr, q, origin).0.out;
            ReadQuestion(w, |wr.out|) == Success((rrset, |w|)) && NameLow(w, |wr.out|)
    ensures rrset.items == [] && KeyOf(rrset) == Key(Canonical(q.name), q.rdclass, q.rdtype)
  {
    hide WalkFrom, WriteFrom, WireLabels, ValidName, AskedOf;
    var named := NameResult(wr, q.name, origin, false).0;
    var w := QuestionResult(wr, q, origin).0.out;
    NameWritten(wr, q.name, origin);
    NameRendered(wr, q.name, origin);
    var p := |named.out|;
    assert Agree(named.out, w, p);
    NameFrame(named.out, w, |wr.out|, p);
    assert w[p..] == PackUint16(q.rdtype) + PackUint16(q.rdclass);
    AskedFields(q.rdtype, q.rdclass);
    assert w[p..p + 4] == w[p..];
    rrset := RRset(ReadName(w, |wr.out|).value.0, q.rdclass, q.rdtype, 0, []);
  }

  lemma {:induction false} QuestionsWritten(st: Rendering, rrsets: seq<RRset>, origin: Origin)
    returns (qs: seq<RRset>)
    requires Going(st) && AllNamed(rrsets, origin) && AbsoluteNames(rrsets)
    requires AddQuestions(st, rrsets, origin).1 == None
    ensures var r := AddQuestions(st, rrsets, origin).0;
            && QuestionsAt(r.wr.out, |st.wr.out|, qs, |r.wr.out|)
            && SameQuestions(qs, rrsets)
            && r.counts == st.counts[QUESTION := st.counts[QUESTION] + |qs|]
            && st.wr.out <= r.wr.out
    decreases |rrsets|
  {
    hide ReadQuestion, NameLow, AddQuestionTo;
    qs := [];
    if rrsets != [] {
      assert Named(rrsets[0], origin) && IsAbsolute(rrsets[0].name);
      var next := AddQuestionTo(st, AsQuestion(rrsets[0]), origin).0;
      var first := QuestionAdded(st, rrsets[0], origin);
      var rest := QuestionsWritten(next, rrsets[1..], origin);
      var r := AddQuestions(next, rrsets[1..], origin).0;
      assert r == AddQuestions(st, rrsets, origin).0;
      QuestionStays(next.wr.out, r.wr.out, |st.wr.out|, first);
      qs := [first] + rest;
      assert qs[1..] == rest;
      SameQuestionsStep(qs, rrsets);
    }
  }

  lemma QuestionAdded(st: Rendering, rrset: RRset, origin: Origin) returns (q: RRset)
    requires Going(st) && Named(rrset, origin) && IsAbsolute(rrset.name)
    requires AddQuestionTo(st, AsQuestion(rrset), origin).1 == None
    ensures var r := AddQuestionTo(st, AsQuestion(rrset), origin).0;
            && Going(r) && st.wr.out <= r.wr.out
            && ReadQuestion(r.wr.out, |st.wr.out|) == Success((q, |r.wr.out|)) && NameLow(r.wr.out, |st.wr.out|)
            && r.counts == st.counts[QUESTION := st.counts[QUESTION] + 1]
    ensures q.items == [] && KeyOf(q) == KeyOf(rrset)
  {
    hide ReadQuestion, NameLow, QuestionResult;
    q := QuestionWritten(st.wr, AsQuestion(rrset), origin);
    QuestionRendered(st.wr, AsQuestion(rrset), origin);
  }

  lemma QuestionStays(w: seq<byte>, w': seq<byte>, pos: nat, q: RRset)
    requires ReadQuestion(w, pos) == Success((q, |w|)) && NameLow(w, pos) && w <= w' && HEADER_SIZE <= pos
    ensures ReadQuestion(w', pos) == Success((q, |w|)) && NameLow(w', pos)
  {
    assert w == w'[..|w|];
    QuestionFrame(w, w', pos, |w|);
  }

  lemma SameQuestionsStep(qs: seq<RRset>, rrsets: seq<RRset>)
    requires qs != [] && rrsets != [] && SameQuestions(qs[1..], rrsets[1..])
    requires KeyOf(qs[0]) == KeyOf(rrsets[0]) && qs[0].items == []
    ensures SameQuestions(qs, rrsets)
  {
    forall i | 1 <= i < |qs|
      ensures KeyOf(qs[i]) == KeyOf(rrsets[i]) && qs[i].items == []
    {
      assert qs[i] == qs[1..][i - 1] && rrsets[i] == rrsets[1..][i - 1];
    }
  }

  // ---------- Regrouping the records ----------

  function Group(section: seq<RRset>, recs: seq<Record>): seq<RRset>
    decreases |recs|
  {
    if recs == [] then section else Group(AddRecord(section, recs[0]), recs[1..])
  }

  lemma {:induction false} ReadRecordsGroups(
      w: seq<byte>, pos: nat, recs: seq<Record>, end: nat, section: seq<RRset>)
    requires RecordsAt(w, pos, recs, end)
    ensures ReadRecords(w, pos, |recs|, section) == Success((Group(section, recs), end))
    decreases |recs|
  {
    if recs != [] {
      var next := ReadRecord(w, pos).value.1;
      Reader.ReadRecordsStep(w, pos, |recs|, section);
      assert ReadRecords(w, pos, |recs|, section) == ReadRecords(w, next, |recs[1..]|, AddRecord(section, recs[0]));
      ReadRecordsGroups(w, next, recs[1..], end, AddRecord(section, recs[0]));
    }
  }

  lemma {:induction false} ReadQuestionsAll(
      w: seq<byte>, pos: nat, qs: seq<RRset>, end: nat, section: seq<RRset>)
    requires QuestionsAt(w, pos, qs, end)
    ensures ReadQuestions(w, pos, |qs|, section) == Success((section + qs, end))
    decreases |qs|
  {
    if qs == [] {
      assert section + qs == section;
    } else {
      ReadQuestionsAll(w, ReadQuestion(w, pos).value.1, qs[1..], end, section + [qs[0]]);
      assert section + [qs[0]] + qs[1..] == section + qs;
    }
  }

  lemma {:induction false} GroupAppend(section: seq<RRset>, a: seq<Record>, b: seq<Record>)
    ensures Group(section, a + b) == Group(Group(section, a), b)
    decreases |a|
  {
    if a == [] {
      assert a + b == b;
    } else {
      assert (a + b)[1..] == a[1..] + b;
      GroupAppend(AddRecord(section, a[0]), a[1..], b);
    }
  }

  /** An RRset read back: the name up to case, class and type as sent, the items in the order they
      were sent, and the TTL unless its top bit was set. */
  ghost predicate ReadBack(built: RRset, rrset: RRset, order: seq<Rdata>) {
    KeyOf(built) == KeyOf(rrset) && built.items == order && built.ttl == NormalTtl(rrset.ttl)
  }

  /** The records that remain of one RRset all join the RRset begun at the end of the section. */
  lemma {:induction false} GroupMore(
      section: seq<RRset>, cur: RRset, recs: seq<Record>, rrset: RRset, rest: seq<Rdata>)
    requires Find(section, KeyOf(rrset)) == None && KeyOf(cur) == KeyOf(rrset)
    requires cur.items != [] && cur.ttl == NormalTtl(rrset.ttl)
    requires Folded(recs) == Expected(rrset, rest) && Distinct(cur.items + rest)
    requires IsSingleton(rrset.rdtype) ==> rest == []
    ensures Group(section + [cur], recs) == section + [cur.(items := cur.items + rest)]
    decreases |recs|
  {
    assert |recs| == |rest|;
    if recs == [] {
      assert cur.items + rest == cur.items;
    } else {
      var rec := recs[0];
      assert Folded(recs)[0] == Expected(rrset, rest)[0];
      var new_ := RRset(rec.name, rec.rdclass, rec.rdtype, 0, []);
      assert KeyOf(new_) == KeyOf(rrset);
      Reader.FindAppend(section, cur, KeyOf(rrset));
      var next := AddItem(cur, rec.data, NormalTtl(rec.ttl));
      assert rest[0] !in cur.items by {
        assert (cur.items + rest)[|cur.items|] == rest[0];
        assert forall i | 0 <= i < |cur.items| :: cur.items[i] == (cur.items + rest)[i];
      }
      assert next == cur.(items := cur.items + [rest[0]]);
      assert (section + [cur])[|section| := next] == section + [next];
      assert cur.items + [rest[0]] + rest[1..] == cur.items + rest;
      FoldedTail(recs, rrset, rest);
      GroupMore(section, next, recs[1..], rrset, rest[1..]);
    }
  }

  lemma FoldedTail(recs: seq<Record>, rrset: RRset, order: seq<Rdata>)
    requires recs != [] && Folded(recs) == Expected(rrset, order)
    ensures |order| == |recs| && Folded(recs[1..]) == Expected(rrset, order[1..])
  {
    assert |order| == |recs|;
    forall i | 0 <= i < |recs| - 1
      ensures Folded(recs[1..])[i] == Expected(rrset, order[1..])[i]
    {
      assert Folded(recs)[i + 1] == Expected(rrset, order)[i + 1];
    }
  }

  lemma GroupRRset(section: seq<RRset>, recs: seq<Record>, rrset: RRset, order: seq<Rdata>)
    returns (built: RRset)
    requires Find(section, KeyOf(rrset)) == None && Plain(rrset)
    requires Folded(recs) == Expected(rrset, order) && multiset(order) == multiset(rrset.items)
    ensures Group(section, recs) == section + [built] && ReadBack(built, rrset, order)
  {
    PermutationDistinct(order, rrset.items);
    assert |recs| == |order| == |multiset(order)| == |rrset.items|;
    var rec := recs[0];
    assert Folded(recs)[0] == Expected(rrset, order)[0];
    assert KeyOf(RRset(rec.name, rec.rdclass, rec.rdtype, 0, [])) == KeyOf(rrset);
    var cur := AddItem(RRset(rec.name, rec.rdclass, rec.rdtype, 0, []), rec.data, NormalTtl(rec.ttl));
    assert cur.items == [order[0]] && [order[0]] + order[1..] == order;
    FoldedTail(recs, rrset, order);
    GroupMore(section, cur, recs[1..], rrset, order[1..]);
    built := cur.(items := order);
  }

  lemma PermutationDistinct(a: seq<Rdata>, b: seq<Rdata>)
    requires multiset(a) == multiset(b) && Distinct(b)
    ensures Distinct(a)
  {
    forall i, j | 0 <= i < j < |a|
      ensures a[i] != a[j]
    {
      if a[i] == a[j] {
        assert multiset(a) == multiset(a[..i]) + multiset{a[i]} + multiset(a[i + 1..j])
                              + multiset{a[j]} + multiset(a[j + 1..]) by {
          assert a == a[..i] + [a[i]] + a[i + 1..j] + [a[j]] + a[j + 1..];
        }
        DistinctOnce(b, a[i]);
      }
    }
  }

  lemma {:induction false} DistinctOnce(b: seq<Rdata>, x: Rdata)
    requires Distinct(b)
    ensures multiset(b)[x] <= 1
  {
    if b != [] {
      var last := |b| - 1;
      DistinctOnce(b[..last], x);
      assert b == b[..last] + [b[last]];
      assert b[last] !in multiset(b[..last]);
    }
  }

  ghost predicate DistinctKeys(rrsets: seq<RRset>) {
    forall i, j | 0 <= i < j < |rrsets| :: KeyOf(rrsets[i]) != KeyOf(rrsets[j])
  }

  ghost predicate Unknown(section: seq<RRset>, rrsets: seq<RRset>) {
    forall i | 0 <= i < |rrsets| :: Find(section, KeyOf(rrsets[i])) == None
  }

  ghost predicate AllReadBack(built: seq<RRset>, rrsets: seq<RRset>, orders: seq<seq<Rdata>>) {
    |built| == |rrsets| == |orders| && forall i | 0 <= i < |built| :: ReadBack(built[i], rrsets[i], orders[i])
  }

  /** The records of a section regroup into its RRsets, in the same order. */
  lemma {:induction false} GroupSection(
      section: seq<RRset>, recs: seq<Record>, rrsets: seq<RRset>, orders: seq<seq<Rdata>>)
    returns (built: seq<RRset>)
    requires OrdersOf(orders, rrsets) && Folded(recs) == ExpectedAll(rrsets, orders)
    requires (forall i | 0 <= i < |rrsets| :: Plain(rrsets[i])) && DistinctKeys(rrsets)
    requires Unknown(section, rrsets)
    ensures Group(section, recs) == section + built && AllReadBack(built, rrsets, orders)
    decreases |rrsets|
  {
    built := [];
    if rrsets == [] {
      assert |recs| == |Folded(recs)| == 0;
      assert section + [] == section;
    } else {
      hide AddRecord, Expected, ExpectedAll, Folded, ReadBack, Find, Plain, KeyOf, Group, AllReadBack;
      var (a, b) := SplitFolded(recs, rrsets, orders);
      var first := GroupRRset(section, a, rrsets[0], orders[0]);
      GroupAppend(section, a, b);
      FirstReadBack(section, first, rrsets, orders[0]);
      var rest := GroupSection(section + [first], b, rrsets[1..], orders[1..]);
      SeqAssociative(section, [first], rest);
      built := [first] + rest;
      assert built[1..] == rest;
      AllReadBackStep(built, rrsets, orders);
    }
  }

  lemma AllReadBackStep(built: seq<RRset>, rrsets: seq<RRset>, orders: seq<seq<Rdata>>)
    requires built != [] && rrsets != [] && orders != []
    requires ReadBack(built[0], rrsets[0], orders[0]) && AllReadBack(built[1..], rrsets[1..], orders[1..])
    ensures AllReadBack(built, rrsets, orders)
  {
    hide ReadBack;
    forall i | 1 <= i < |built|
      ensures ReadBack(built[i], rrsets[i], orders[i])
    {
      assert ReadBack(built[1..][i - 1], rrsets[1..][i - 1], orders[1..][i - 1]);
    }
  }

  function SplitFolded(recs: seq<Record>, rrsets: seq<RRset>, orders: seq<seq<Rdata>>)
    : (r: (seq<Record>, seq<Record>))
    requires rrsets != [] && |orders| == |rrsets| && Folded(recs) == ExpectedAll(rrsets, orders)
    ensures recs == r.0 + r.1
    ensures Folded(r.0) == Expected(rrsets[0], orders[0])
    ensures Folded(r.1) == ExpectedAll(rrsets[1..], orders[1..])
  {
    var n := |orders[0]|;
    assert |recs| == |Folded(recs)| >= n;
    assert Folded(recs[..n]) == Folded(recs)[..n];
    assert Folded(recs[n..]) == Folded(recs)[n..];
    (recs[..n], recs[n..])
  }

  lemma FirstReadBack(section: seq<RRset>, first: RRset, rrsets: seq<RRset>, order: seq<Rdata>)
    requires rrsets != [] && KeyOf(first) == KeyOf(rrsets[0]) && DistinctKeys(rrsets) && Unknown(section, rrsets)
    ensures Unknown(section + [first], rrsets[1..])
  {
    forall i | 0 <= i < |rrsets[1..]|
      ensures Find(section + [first], KeyOf(rrsets[1..][i])) == None
    {
      assert rrsets[1..][i] == rrsets[i + 1];
      Reader.FindAppend(section, first, KeyOf(rrsets[i + 1]));
    }
  }

  // ---------- The whole message ----------

  /** What reading must give: ids, flags and sections as sent, RRset by RRset. */
  ghost predicate MessageReadBack(got: Message, m: Message, orders: seq<seq<seq<Rdata>>>)
    requires |m.sections| == 4 && |orders| == 4
  {
    && got.id == m.id && got.flags == m.flags && |got.sections| == 4
    && SameQuestions(got.sections[0], m.sections[0])
    && AllReadBack(got.sections[1], m.sections[1], orders[1])
    && AllReadBack(got.sections[2], m.sections[2], orders[2])
    && AllReadBack(got.sections[3], m.sections[3], orders[3])
  }

  lemma HeaderRead(wire: seq<byte>, id: uint16, flags: uint16, counts: seq<nat>)
    requires |counts| == 4 && forall i | 0 <= i < 4 :: counts[i] < 0x1_0000
    requires |wire| >= HEADER_SIZE && wire[..HEADER_SIZE] == Header(id, flags, counts)
    ensures Read16(wire, 0) == id && Read16(wire, 2) == flags
    ensures Read16(wire, 4) == counts[0] && Read16(wire, 6) == counts[1]
    ensures Read16(wire, 8) == counts[2] && Read16(wire, 10) == counts[3]
  {
    var h := Header(id, flags, counts);
    forall i | 0 <= i < HEADER_SIZE
      ensures wire[i] == h[i]
    {
      assert wire[..HEADER_SIZE][i] == wire[i];
    }
    Unpack16(id);
    Unpack16(flags);
    Unpack16(counts[0]);
    Unpack16(counts[1]);
    Unpack16(counts[2]);
    Unpack16(counts[3]);
  }

  /** Where the four sections lie in the rendered octets, and what they read as. */
  ghost predicate Layout(w: seq<byte>, qs: seq<RRset>, recs: seq<seq<Record>>, ends: seq<nat>) {
    && |recs| == 4 && |ends| == 4 && ends[3] == |w|
    && QuestionsAt(w, HEADER_SIZE, qs, ends[0])
    && RecordsAt(w, ends[0], recs[1], ends[1])
    && RecordsAt(w, ends[1], recs[2], ends[2])
    && RecordsAt(w, ends[2], recs[3], ends[3])
  }

  lemma MessageWritten(m: Message, orders: seq<seq<seq<Rdata>>>, origin: Origin, maxSize: nat)
    returns (qs: seq<RRset>, recs: seq<seq<Record>>, ends: seq<nat>)
    requires PlainMessage(m) && MessageNamed(m, origin) && Orders(orders, m)
    requires AddMessage(m, orders, origin, maxSize).1 == None
    ensures var st := AddMessage(m, orders, origin, maxSize).0;
            && Layout(st.wr.out, qs, recs, ends)
            && st.counts == [|qs|, |recs[1]|, |recs[2]|, |recs[3]|]
    ensures SameQuestions(qs, m.sections[0])
    ensures Folded(recs[1]) == ExpectedAll(m.sections[1], orders[1])
    ensures Folded(recs[2]) == ExpectedAll(m.sections[2], orders[2])
    ensures Folded(recs[3]) == ExpectedAll(m.sections[3], orders[3])
  {
    var st0 := Start(maxSize);
    StartGoing(maxSize);
    hide Start, Going, AddQuestions, AddSections, Folded, ExpectedAll, QuestionsAt, RecordsAt, SameQuestions;
    hide PlainSection;
    hide Rendered, Orders, AllNamed, Wrote, Layout, AbsoluteNames;
    assert MessageNamed(m, origin) && Orders(orders, m);
    var st1 := AddQuestions(st0, m.sections[0], origin).0;
    qs := QuestionsWritten(st0, m.sections[0], origin);
    var st2, st3, st4;
    recs, st2, st3, st4 := SectionsWritten(st1, m, orders, origin);
    ends := LayoutFrom(st1, st2, st3, st4, qs, recs);
  }

  lemma StartGoing(maxSize: nat)
    ensures var st := Start(maxSize);
            Going(st) && st.counts == [0, 0, 0, 0] && |st.wr.out| == HEADER_SIZE
  {
  }

  lemma LayoutFrom(st1: Rendering, st2: Rendering, st3: Rendering, st4: Rendering,
      qs: seq<RRset>, recs: seq<seq<Record>>) returns (ends: seq<nat>)
    requires QuestionsAt(st1.wr.out, HEADER_SIZE, qs, |st1.wr.out|) && st1.counts == [|qs|, 0, 0, 0]
    requires |recs| == 4 && Wrote(st1, st2, 1, recs[1]) && Wrote(st2, st3, 2, recs[2]) && Wrote(st3, st4, 3, recs[3])
    ensures Layout(st4.wr.out, qs, recs, ends)
    ensures st4.counts == [|qs|, |recs[1]|, |recs[2]|, |recs[3]|]
  {
    hide QuestionsAt, RecordsAt, Rendered;
    var w := st4.wr.out;
    QuestionsStay(st1.wr.out, w, HEADER_SIZE, qs);
    RecordsStay(st2.wr.out, w, |st1.wr.out|, recs[1]);
    RecordsStay(st3.wr.out, w, |st2.wr.out|, recs[2]);
    ends := [|st1.wr.out|, |st2.wr.out|, |st3.wr.out|, |w|];
  }

  lemma SectionsWritten(st: Rendering, m: Message, orders: seq<seq<seq<Rdata>>>, origin: Origin)
    returns (recs: seq<seq<Record>>, st2: Rendering, st3: Rendering, st4: Rendering)
    requires Going(st) && PlainMessage(m) && MessageNamed(m, origin) && Orders(orders, m)
    requires AddSections(st, m, orders, origin, 4).1 == None
    ensures st4 == AddSections(st, m, orders, origin, 4).0
    ensures |recs| == 4 && Wrote(st, st2, 1, recs[1]) && Wrote(st2, st3, 2, recs[2]) && Wrote(st3, st4, 3, recs[3])
    ensures Folded(recs[1]) == ExpectedAll(m.sections[1], orders[1])
    ensures Folded(recs[2]) == ExpectedAll(m.sections[2], orders[2])
    ensures Folded(recs[3]) == ExpectedAll(m.sections[3], orders[3])
  {
    hide AddRRsets, Wrote, Folded, ExpectedAll;
    assert AddSections(st, m, orders, origin, 1) == (st, None);
    var (s2, e2) := AddSections(st, m, orders, origin, 2);
    var (s3, e3) := AddSections(st, m, orders, origin, 3);
    assert e3 == None && e2 == None;
    st2, st3, st4 := s2, s3, AddSections(st, m, orders, origin, 4).0;
    var r1 := SectionWritten(st, 1, m.sections[1], orders[1], origin);
    var r2 := SectionWritten(st2, 2, m.sections[2], orders[2], origin);
    var r3 := SectionWritten(st3, 3, m.sections[3], orders[3], origin);
    recs := [[], r1, r2, r3];
  }

  lemma QuestionsStay(w: seq<byte>, w': seq<byte>, pos: nat, qs: seq<RRset>)
    requires QuestionsAt(w, pos, qs, |w|) && w <= w' && HEADER_SIZE <= pos
    ensures QuestionsAt(w', pos, qs, |w|)
  {
    assert w == w'[..|w|];
    QuestionsFrame(w, w', pos, qs, |w|);
  }

  /** Reading rendered octets gives the message back: every section with the same RRsets in the same
      order, names up to case, items in the order they were written in, TTLs up to 2^31-1 unchanged. */
  lemma RenderedReads(m: Message, orders: seq<seq<seq<Rdata>>>, origin: Origin, maxSize: nat, wire: seq<byte>)
    requires PlainMessage(m) && MessageNamed(m, origin) && Orders(orders, m)
    requires RenderResult(m, orders, origin, maxSize) == Success(wire)
    ensures var got := ReadMessage(wire);
            got.Success? && MessageReadBack(got.value, m, orders)
  {
    hide AddQuestions, AddSections, Folded, ExpectedAll, Group, AllReadBack, OrdersOf, SameQuestions, Plain;
    var st := AddMessage(m, orders, origin, maxSize).0;
    var w := st.wr.out;
    var qs, recs, ends := MessageWritten(m, orders, origin, maxSize);
    assert wire[..HEADER_SIZE] == Header(m.id, m.flags, st.counts);
    assert |wire| == |w| >= HEADER_SIZE && wire[HEADER_SIZE..] == w[HEADER_SIZE..];
    hide AddMessage, RenderResult, Layout, Rendered, Header, ReadMessage, RecordsAt, QuestionsAt, MessageNamed;
    HeaderRead(wire, m.id, m.flags, st.counts);
    LayoutMoves(w, wire, qs, recs, ends);
    var b1 := GroupSection([], recs[1], m.sections[1], orders[1]);
    var b2 := GroupSection([], recs[2], m.sections[2], orders[2]);
    var b3 := GroupSection([], recs[3], m.sections[3], orders[3]);
    LayoutReads(wire, qs, recs, ends, b1, b2, b3);
  }

  lemma LayoutMoves(w: seq<byte>, wire: seq<byte>, qs: seq<RRset>, recs: seq<seq<Record>>, ends: seq<nat>)
    requires Layout(w, qs, recs, ends)
    requires |wire| == |w| >= HEADER_SIZE && wire[HEADER_SIZE..] == w[HEADER_SIZE..]
    ensures Layout(wire, qs, recs, ends)
  {
    forall i | HEADER_SIZE <= i < |w|
      ensures w[i] == wire[i]
    {
      assert w[HEADER_SIZE..][i - HEADER_SIZE] == wire[HEADER_SIZE..][i - HEADER_SIZE];
    }
    RecordsOrder(w, ends[2], recs[3], ends[3]);
    RecordsOrder(w, ends[1], recs[2], ends[2]);
    RecordsOrder(w, ends[0], recs[1], ends[1]);
    QuestionsFrame(w, wire, HEADER_SIZE, qs, ends[0]);
    RecordsFrame(w, wire, ends[0], recs[1], ends[1]);
    RecordsFrame(w, wire, ends[1], recs[2], ends[2]);
    RecordsFrame(w, wire, ends[2], recs[3], ends[3]);
  }

  lemma LayoutReads(wire: seq<byte>, qs: seq<RRset>, recs: seq<seq<Record>>, ends: seq<nat>,
      b1: seq<RRset>, b2: seq<RRset>, b3: seq<RRset>)
    requires Layout(wire, qs, recs, ends) && |wire| >= HEADER_SIZE
    requires Opcode(Read16(wire, 2)) != UPDATE
    requires Read16(wire, 4) == |qs| && Read16(wire, 6) == |recs[1]|
    requires Read16(wire, 8) == |recs[2]| && Read16(wire, 10) == |recs[3]|
    requires Group([], recs[1]) == b1 && Group([], recs[2]) == b2 && Group([], recs[3]) == b3
    ensures ReadMessage(wire) == Success(Message(Read16(wire, 0), Read16(wire, 2), [qs, b1, b2, b3]))
  {
    hide Read16, ReadRecords, ReadQuestions, RecordsAt, QuestionsAt, Group;
    ReadQuestionsAll(wire, HEADER_SIZE, qs, ends[0], []);
    assert [] + qs == qs;
    ReadRecordsGroups(wire, ends[0], recs[1], ends[1], []);
    ReadRecordsGroups(wire, ends[1], recs[2], ends[2], []);
    ReadRecordsGroups(wire, ends[2], recs[3], ends[3], []);
  }

  lemma SectionReadBackEq(built: seq<RRset>, rrsets: seq<RRset>, orders: seq<seq<Rdata>>)
    requires AllReadBack(built, rrsets, orders) && OrdersOf(orders, rrsets)
    ensures SectionEq(rrsets, built)
  {
    forall i | 0 <= i < |rrsets|
      ensures RRsetEq(rrsets[i], built[i]) && RRsetEq(built[i], rrsets[i])
    {
      PermutationSameItems(orders[i], rrsets[i].items);
      assert ReadBack(built[i], rrsets[i], orders[i]);
    }
  }

  lemma PermutationSameItems(a: seq<Rdata>, b: seq<Rdata>)
    requires multiset(a) == multiset(b)
    ensures SameItems(a, b)
  {
    forall x
      ensures x in a <==> x in b
    {
      assert x in a <==> x in multiset(a);
      assert x in b <==> x in multiset(b);
    }
  }

  lemma SameQuestionsEq(qs: seq<RRset>, rrsets: seq<RRset>)
    requires SameQuestions(qs, rrsets) && forall i | 0 <= i < |rrsets| :: rrsets[i].items == []
    ensures SectionEq(rrsets, qs)
  {
    forall i | 0 <= i < |rrsets|
      ensures RRsetEq(rrsets[i], qs[i]) && RRsetEq(qs[i], rrsets[i])
    {
    }
  }

  lemma RenderedEqual(m: Message, orders: seq<seq<seq<Rdata>>>, origin: Origin, maxSize: nat, wire: seq<byte>)
    requires PlainMessage(m) && MessageNamed(m, origin) && Orders(orders, m)
    requires RenderResult(m, orders, origin, maxSize) == Success(wire)
    ensures ReadMessage(wire).Success?
    ensures MessageReadBack(ReadMessage(wire).value, m, orders) && MessageEq(m, ReadMessage(wire).value)
  {
    hide RenderResult, ReadMessage;
    RenderedReads(m, orders, origin, maxSize, wire);
    var got := ReadMessage(wire).value;
    SameQuestionsEq(got.sections[0], m.sections[0]);
    SectionReadBackEq(got.sections[1], m.sections[1], orders[1]);
    SectionReadBackEq(got.sections[2], m.sections[2], orders[2]);
    SectionReadBackEq(got.sections[3], m.sections[3], orders[3]);
  }

  /** The whole-message round trip: whatever permutation each RRset was written in and wherever
      names were compressed, if rendering does not raise, reading gives an equal message; and in it
      the RRsets in the same order, their items as written and their TTLs. */
  lemma {:induction false} MessageRoundTrip(m: Message, orders: seq<seq<seq<Rdata>>>, origin: Origin, maxSize: nat)
    requires PlainMessage(m) && MessageNamed(m, origin) && Orders(orders, m)
    ensures var sent := RenderResult(m, orders, origin, maxSize);
            sent.Success? ==>
              var got := ReadMessage(sent.value);
              got.Success? && MessageEq(m, got.value) && MessageReadBack(got.value, m, orders)
  {
    hide RenderResult, ReadMessage, PlainMessage, MessageNamed, Orders, MessageEq, MessageReadBack;
    var sent := RenderResult(m, orders, origin, maxSize);
    if sent.Success? {
      RenderedEqual(m, orders, origin, maxSize, sent.value);
    }
  }

  /** `Message.to_wire` followed by `from_wire`, run on the objects. */
  method SendAndReceive(m: Message, maxSize: nat) returns (sent: Result<seq<byte>, DnsError>, got: Result<Message,
      DnsError>)
    requires PlainMessage(m) && MessageNamed(m, None)
    ensures sent.Success? ==> got.Success? && MessageEq(m, got.value)
    ensures SureToFit(m, None, EffectiveSize(maxSize, 0)) ==> sent.Success?
  {
    ghost var orders;
    got := Failure(ShortHeader);
    sent, orders := RenderMessage(m, None, maxSize, 0);
    hide RenderResult, ReadMessage, PlainMessage, MessageNamed, Orders, SureToFit;
    if SureToFit(m, None, EffectiveSize(maxSize, 0)) {
      Renders(m, orders, None, EffectiveSize(maxSize, 0));
    }
    if sent.Success? {
      MessageRoundTrip(m, orders, None, EffectiveSize(maxSize, 0));
      var reader := new Reader.WireReader(sent.value);
      got := reader.Read();
    }
  }
}
