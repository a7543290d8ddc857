/** Messages of `dns/message.py`: rendering a whole message, and reading one back. */
module Messages {
  import opened Wrappers
  import opened Names
  import opened RdataTypes
  import opened Wire
  import opened Records
  import opened Renderer

  /** Sections 0..3 are question, answer, authority and additional. */
  datatype Message = Message(id: uint16, flags: uint16, sections: seq<seq<RRset>>)

  // OPT and TSIG records and dynamic updates cannot be written or read in the model.
  const UPDATE := 5

  function Opcode(flags: uint16): nat {
    flags / 2048 % 16
  }

  // ---------- Rendering ----------

  type Outcome = (Rendering, Option<DnsError>)

  predicate AllNamed(rrsets: seq<RRset>, origin: Origin) {
    forall i | 0 <= i < |rrsets| :: Named(rrsets[i], origin)
  }

  predicate MessageNamed(m: Message, origin: Origin) {
    && |m.sections| == 4
    && AllNamed(m.sections[0], origin) && AllNamed(m.sections[1], origin)
    && AllNamed(m.sections[2], origin) && AllNamed(m.sections[3], origin)
  }

  ghost predicate Going(st: Rendering) {
    |st.counts| == 4 && Rendered(st.wr)
  }

  function AsQuestion(rrset: RRset): Question {
    Question(rrset.name, rrset.rdclass, rrset.rdtype)
  }

  ghost function AddQuestions(st: Rendering, rrsets: seq<RRset>, origin: Origin): (r: Outcome)
    requires Going(st) && AllNamed(rrsets, origin)
    ensures Going(r.0)
    decreases |rrsets|
  {
    if rrsets == [] then (st, None)
    else
      OpKeeps(st, AskOp(AsQuestion(rrsets[0])), origin);
      var first := AddQuestionTo(st, AsQuestion(rrsets[0]), origin);
      if first.1.Some? then first else AddQuestions(first.0, rrsets[1..], origin)
  }

  ghost function AddRRsets(st: Rendering, section: nat, rrsets: seq<RRset>, orders: seq<seq<Rdata>>, origin: Origin)
    : (r: Outcome)
    requires Going(st) && section < 4 && AllNamed(rrsets, origin) && |orders| == |rrsets|
    ensures Going(r.0)
    decreases |rrsets|
  {
    if rrsets == [] then (st, None)
    else
      OpKeeps(st, RRsetOp(section, rrsets[0], orders[0]), origin);
      var first := AddRRsetTo(st, section, rrsets[0], origin, orders[0]);
      if first.1.Some? then first else AddRRsets(first.0, section, rrsets[1..], orders[1..], origin)
  }

  /** Every RRset is written in some order of its own. */
  ghost predicate OrdersOf(orders: seq<seq<Rdata>>, rrsets: seq<RRset>) {
    |orders| == |rrsets| && forall i | 0 <= i < |rrsets| :: multiset(orders[i]) == multiset(rrsets[i].items)
  }

  ghost predicate Orders(orders: seq<seq<seq<Rdata>>>, m: Message)
    requires |m.sections| == 4
  {
    && |orders| == 4
    && OrdersOf(orders[1], m.sections[1])
    && OrdersOf(orders[2], m.sections[2])
    && OrdersOf(orders[3], m.sections[3])
  }

  /** The record sections before section s. */
  ghost function AddSections(st: Rendering, m: Message, orders: seq<seq<seq<Rdata>>>, origin: Origin, s: nat)
    : (r: Outcome)
    requires Going(st) && MessageNamed(m, origin) && Orders(orders, m) && 1 <= s <= 4
    ensures Going(r.0)
  {
    if s == 1 then (st, None)
    else
      var before := AddSections(st, m, orders, origin, s - 1);
      if before.1.Some? then before
      else AddRRsets(before.0, s - 1, m.sections[s - 1], orders[s - 1], origin)
  }

  ghost function AddMessage(m: Message, orders: seq<seq<seq<Rdata>>>, origin: Origin, maxSize: nat): (r: Outcome)
    requires MessageNamed(m, origin) && Orders(orders, m)
    ensures Going(r.0)
  {
    var first := AddQuestions(Start(maxSize), m.sections[0], origin);
    if first.1.Some? then first else AddSections(first.0, m, orders, origin, 4)
  }

  /** The octets of a message rendered in the given orders, or the error that stops it. */
  ghost function RenderResult(m: Message, orders: seq<seq<seq<Rdata>>>, origin: Origin, maxSize: nat)
    : Result<seq<byte>, DnsError>
    requires MessageNamed(m, origin) && Orders(orders, m)
  {
    var (st, error) := AddMessage(m, orders, origin, maxSize);
    if error.Some? then Failure(error.value)
    else if exists i | 0 <= i < 4 :: st.counts[i] >= 0x1_0000 then Failure(CountTooBig)
    else Success(Header(m.id, m.flags, st.counts) + st.wr.out[HEADER_SIZE..])
  }

  /** 0 asks for the requestor's payload size, or for the largest message. */
  function EffectiveSize(maxSize: nat, requestPayload: nat): nat {
    var size := if maxSize != 0 then maxSize else if requestPayload != 0 then requestPayload else 65535;
    Max(512, Min(size, 65535))
  }

  method AddQuestionSection(r: Renderer, rrsets: seq<RRset>) returns (error: Option<DnsError>)
    requires r.Valid() && AllNamed(rrsets, r.origin)
    modifies r`section, r`counts, r.output, r.compress
    ensures r.Valid()
    ensures (r.State(), error) == AddQuestions(old(r.State()), rrsets, r.origin)
  {
    assert rrsets[0..] == rrsets;
    for i := 0 to |rrsets|
      invariant r.Valid()
      invariant AddQuestions(r.State(), rrsets[i..], r.origin) == AddQuestions(old(r.State()), rrsets, r.origin)
    {
      assert rrsets[i..][1..] == rrsets[i + 1..];
      error := r.AddQuestion(AsQuestion(rrsets[i]));
      if error.Some? {
        return;
      }
    }
    error := None;
  }

  method AddRRsetSection(r: Renderer, section: nat, rrsets: seq<RRset>)
    returns (error: Option<DnsError>, ghost orders: seq<seq<Rdata>>)
    requires r.Valid() && section < 4 && AllNamed(rrsets, r.origin)
    modifies r`section, r`counts, r.output, r.compress
    ensures r.Valid()
    ensures OrdersOf(orders, rrsets)
    ensures (r.State(), error) == AddRRsets(old(r.State()), section, rrsets, orders, r.origin)
  {
    orders := [];
    ghost var before := r.State();
    assert rrsets[..0] == [] && rrsets[..|rrsets|] == rrsets;
    for i := 0 to |rrsets|
      invariant r.Valid()
      invariant OrdersOf(orders, rrsets[..i])
      invariant AddRRsets(before, section, rrsets[..i], orders, r.origin) == (r.State(), None)
    {
      ghost var order;
      error, order := r.AddRRset(section, rrsets[i]);
      AddRRsetsNext(before, section, rrsets, i, orders, order, r.origin);
      OrdersNext(orders, rrsets, i, order);
      orders := orders + [order];
      if error.Some? {
        ghost var rest := ItemsOf(rrsets[i + 1..]);
        AddRRsetsStop(before, section, rrsets, i + 1, orders, rest, r.origin);
        OrdersComplete(orders, rrsets, i + 1, rest);
        orders := orders + rest;
        return;
      }
    }
    error := None;
  }

  lemma OrdersNext(orders: seq<seq<Rdata>>, rrsets: seq<RRset>, i: nat, order: seq<Rdata>)
    requires i < |rrsets| && OrdersOf(orders, rrsets[..i]) && multiset(order) == multiset(rrsets[i].items)
    ensures OrdersOf(orders + [order], rrsets[..i + 1])
  {
  }

  lemma OrdersComplete(orders: seq<seq<Rdata>>, rrsets: seq<RRset>, i: nat, rest: seq<seq<Rdata>>)
    requires i <= |rrsets| && OrdersOf(orders, rrsets[..i]) && OrdersOf(rest, rrsets[i..])
    ensures OrdersOf(orders + rest, rrsets)
  {
    forall j | 0 <= j < |rrsets|
      ensures multiset((orders + rest)[j]) == multiset(rrsets[j].items)
    {
      if j >= i {
        assert rrsets[i..][j - i] == rrsets[j];
      } else {
        assert rrsets[..i][j] == rrsets[j];
      }
    }
  }

  lemma AddOneRRset(st: Rendering, section: nat, rrset: RRset, order: seq<Rdata>, origin: Origin)
    requires Going(st) && section < 4 && Named(rrset, origin)
    ensures AddRRsets(st, section, [rrset], [order], origin) == AddRRsetTo(st, section, rrset, origin, order)
  {
    hide AddRRsetTo, Named, Rendered;
    assert [rrset][1..] == [] && [order][1..] == [];
  }

  lemma AddRRsetsNext(st: Rendering, section: nat, rrsets: seq<RRset>, i: nat, orders: seq<seq<Rdata>>,
      order: seq<Rdata>, origin: Origin)
    requires Going(st) && section < 4 && AllNamed(rrsets, origin) && |orders| == i < |rrsets|
    requires AddRRsets(st, section, rrsets[..i], orders, origin).1 == None
    ensures var here := AddRRsets(st, section, rrsets[..i], orders, origin).0;
            AddRRsets(st, section, rrsets[..i + 1], orders + [order], origin)
            == AddRRsetTo(here, section, rrsets[i], origin, order)
  {
    hide AddRRsets, AddRRsetTo, Named, Rendered;
    var here := AddRRsets(st, section, rrsets[..i], orders, origin).0;
    AddRRsetsAppend(st, section, rrsets[..i], orders, [rrsets[i]], [order], origin);
    assert rrsets[..i + 1] == rrsets[..i] + [rrsets[i]];
    AddOneRRset(here, section, rrsets[i], order, origin);
  }

  lemma AddRRsetsStop(st: Rendering, section: nat, rrsets: seq<RRset>, i: nat, orders: seq<seq<Rdata>>,
      rest: seq<seq<Rdata>>, origin: Origin)
    requires Going(st) && section < 4 && AllNamed(rrsets, origin)
    requires |orders| == i <= |rrsets| && |rest| == |rrsets| - i
    requires AddRRsets(st, section, rrsets[..i], orders, origin).1.Some?
    ensures AddRRsets(st, section, rrsets, orders + rest, origin)
            == AddRRsets(st, section, rrsets[..i], orders, origin)
  {
    AddRRsetsAppend(st, section, rrsets[..i], orders, rrsets[i..], rest, origin);
    assert rrsets[..i] + rrsets[i..] == rrsets;
  }

  lemma {:induction false} AddRRsetsAppend(st: Rendering, section: nat, a: seq<RRset>, oa: seq<seq<Rdata>>,
      b: seq<RRset>, ob: seq<seq<Rdata>>, origin: Origin)
    requires Going(st) && section < 4 && AllNamed(a, origin) && AllNamed(b, origin)
    requires |oa| == |a| && |ob| == |b|
    ensures AllNamed(a + b, origin)
    ensures var first := AddRRsets(st, section, a, oa, origin);
            AddRRsets(st, section, a + b, oa + ob, origin)
            == if first.1.Some? then first else AddRRsets(first.0, section, b, ob, origin)
    decreases |a|
  {
    if a == [] {
      assert a + b == b && oa + ob == ob;
    } else {
      assert (a + b)[1..] == a[1..] + b && (oa + ob)[1..] == oa[1..] + ob;
      OpKeeps(st, RRsetOp(section, a[0], oa[0]), origin);
      var first := AddRRsetTo(st, section, a[0], origin, oa[0]);
      if first.1.None? {
        AddRRsetsAppend(first.0, section, a[1..], oa[1..], b, ob, origin);
      }
    }
  }

  ghost function ItemsOf(rrsets: seq<RRset>): (r: seq<seq<Rdata>>)
    ensures OrdersOf(r, rrsets)
  {
    seq(|rrsets|, i requires 0 <= i < |rrsets| => rrsets[i].items)
  }

  /** The three record sections in turn; `orders` is filled up with some order where an error has
      stopped the writing. */
  method AddRecordSections(r: Renderer, m: Message)
    returns (error: Option<DnsError>, ghost orders: seq<seq<seq<Rdata>>>)
    requires r.Valid() && MessageNamed(m, r.origin)
    modifies r`section, r`counts, r.output, r.compress
    ensures r.Valid() && Orders(orders, m)
    ensures (r.State(), error) == AddSections(old(r.State()), m, orders, r.origin, 4)
  {
    ghost var o1, o2, o3 := ItemsOf(m.sections[1]), ItemsOf(m.sections[2]), ItemsOf(m.sections[3]);
    ghost var st0 := r.State();
    error, o1 := AddRRsetSection(r, ANSWER, m.sections[1]);
    ghost var st1, e1 := r.State(), error;
    if error.None? {
      error, o2 := AddRRsetSection(r, AUTHORITY, m.sections[2]);
    }
    ghost var st2, e2 := r.State(), error;
    if error.None? {
      error, o3 := AddRRsetSection(r, ADDITIONAL, m.sections[3]);
    }
    orders := [[], o1, o2, o3];
    assert AddSections(st0, m, orders, r.origin, 1) == (st0, None);
    assert AddSections(st0, m, orders, r.origin, 2) == (st1, e1);
    assert AddSections(st0, m, orders, r.origin, 3) == (st2, e2);
  }

  lemma {:induction false} QuestionsFit(st: Rendering, rrsets: seq<RRset>, origin: Origin)
    requires Going(st) && AllNamed(rrsets, origin) && |st.wr.out| <= st.maxSize
    ensures var (r, error) := AddQuestions(st, rrsets, origin);
            error.None? ==> |r.wr.out| <= r.maxSize == st.maxSize
    decreases |rrsets|
  {
    if rrsets != [] {
      OpKeeps(st, AskOp(AsQuestion(rrsets[0])), origin);
      var first := AddQuestionTo(st, AsQuestion(rrsets[0]), origin);
      if first.1.None? {
        QuestionsFit(first.0, rrsets[1..], origin);
      }
    }
  }

  lemma {:induction false} RRsetsFit(st: Rendering, section: nat, rrsets: seq<RRset>, orders: seq<seq<Rdata>>,
      origin: Origin)
    requires Going(st) && section < 4 && AllNamed(rrsets, origin) && |orders| == |rrsets|
    requires |st.wr.out| <= st.maxSize
    ensures var (r, error) := AddRRsets(st, section, rrsets, orders, origin);
            error.None? ==> |r.wr.out| <= r.maxSize == st.maxSize
    decreases |rrsets|
  {
    if rrsets != [] {
      OpKeeps(st, RRsetOp(section, rrsets[0], orders[0]), origin);
      var first := AddRRsetTo(st, section, rrsets[0], origin, orders[0]);
      if first.1.None? {
        RRsetsFit(first.0, section, rrsets[1..], orders[1..], origin);
      }
    }
  }

  lemma {:induction false} SectionsFit(st: Rendering, m: Message, orders: seq<seq<seq<Rdata>>>, origin: Origin, s: nat)
    requires Going(st) && MessageNamed(m, origin) && Orders(orders, m) && 1 <= s <= 4 && |st.wr.out| <= st.maxSize
    ensures var (r, error) := AddSections(st, m, orders, origin, s);
            error.None? ==> |r.wr.out| <= r.maxSize == st.maxSize
    decreases s
  {
    hide AddRRsets, AllNamed, Rendered;
    if s > 1 {
      SectionsFit(st, m, orders, origin, s - 1);
      var before := AddSections(st, m, orders, origin, s - 1);
      if before.1.None? {
        RRsetsFit(before.0, s - 1, m.sections[s - 1], orders[s - 1], origin);
      }
    }
  }

  /** A message that is rendered fits the limit. */
  lemma {:induction false} RenderedFits(m: Message, orders: seq<seq<seq<Rdata>>>, origin: Origin, maxSize: nat)
    requires MessageNamed(m, origin) && Orders(orders, m) && maxSize >= HEADER_SIZE
    ensures var sent := RenderResult(m, orders, origin, maxSize);
            sent.Success? ==> HEADER_SIZE <= |sent.value| <= maxSize
  {
    var st0 := Start(maxSize);
    QuestionsFit(st0, m.sections[0], origin);
    var (st1, e1) := AddQuestions(st0, m.sections[0], origin);
    hide AddQuestions, AddSections;
    if e1.None? {
      SectionsFit(st1, m, orders, origin, 4);
    }
  }

  method RenderMessage(m: Message, origin: Origin, maxSize: nat, requestPayload: nat)
    returns (result: Result<seq<byte>, DnsError>, ghost orders: seq<seq<seq<Rdata>>>)
    requires MessageNamed(m, origin) && (origin.Some? ==> ValidName(origin.value))
    ensures Orders(orders, m)
    ensures result == RenderResult(m, orders, origin, EffectiveSize(maxSize, requestPayload))
    ensures result.Success? ==> HEADER_SIZE <= |result.value| <= EffectiveSize(maxSize, requestPayload)
  {
    orders := [[], ItemsOf(m.sections[1]), ItemsOf(m.sections[2]), ItemsOf(m.sections[3])];
    var r := new Renderer(m.id, m.flags, EffectiveSize(maxSize, requestPayload), origin);
    var _ := r.Reserve(0);   // no OPT record
    var _ := r.Reserve(0);   // no TSIG record
    var error := AddQuestionSection(r, m.sections[0]);
    if error.Some? {
      return Failure(error.value), orders;
    }
    error, orders := AddRecordSections(r, m);
    if error.Some? {
      return Failure(error.value), orders;
    }
    r.ReleaseReserved();
    error := r.WriteHeader();
    if error.Some? {
      return Failure(error.value), orders;
    }
    RenderedFits(m, orders, origin, EffectiveSize(maxSize, requestPayload));
    return Success(r.output.data), orders;
  }

  // ---------- Reading ----------

  datatype Record = Record(name: seq<Label>, rdclass: uint16, rdtype: uint16, ttl: uint32, data: Rdata)

  function Read16(w: seq<byte>, pos: nat): uint16
    requires pos + 2 <= |w|
  {
    Uint16(w[pos], w[pos + 1])
  }

  function Read32(w: seq<byte>, pos: nat): uint32
    requires pos + 4 <= |w|
  {
    Uint32(w[pos], w[pos + 1], w[pos + 2], w[pos + 3])
  }

  function ReadName(w: seq<byte>, pos: nat): (r: Result<(seq<Label>, nat), DnsError>)
  {
    var name :- NameAt(w, |w|, pos);
    Success((name, WalkFrom(w, |w|, pos, pos).hi))
  }

  datatype Fields = Fields(rdtype: uint16, rdclass: uint16, ttl: uint32, rdlen: uint16)

  /** The ten octets between a record's name and its data. */
  function FieldsOf(b: seq<byte>): Fields
    requires |b| == 10
  {
    Fields(Read16(b, 0), Read16(b, 2), Read32(b, 4), Read16(b, 8))
  }

  /** The four octets after a question's name: type and class. */
  function AskedOf(b: seq<byte>): (uint16, uint16)
    requires |b| == 4
  {
    (Read16(b, 0), Read16(b, 2))
  }

  function ReadQuestion(w: seq<byte>, pos: nat): Result<(RRset, nat), DnsError> {
    var (name, p) :- ReadName(w, pos);
    if p + 4 > |w| then Failure(ShortRead)
    else
      var (rdtype, rdclass) := AskedOf(w[p..p + 4]);
      Success((RRset(name, rdclass, rdtype, 0, []), p + 4))
  }

  function ReadRecord(w: seq<byte>, pos: nat): Result<(Record, nat), DnsError> {
    var (name, p) :- ReadName(w, pos);
    if p + 10 > |w| then Failure(ShortRead)
    else
      var f := FieldsOf(w[p..p + 10]);
      if f.rdtype == OPT || f.rdtype == TSIG then Failure(NotModelled)
      else if p + 10 + f.rdlen > |w| then Failure(ShortRead)
      else Success((Record(name, f.rdclass, f.rdtype, f.ttl, w[p + 10..p + 10 + f.rdlen]), p + 10 + f.rdlen))
  }

  /** TTLs with the top bit set are read as zero. */
  function NormalTtl(ttl: uint32): uint32 {
    if ttl > 0x7FFFFFFF then 0 else ttl
  }

  /** `Rdataset.add`: the smallest TTL wins, and a singleton type keeps only the newest item. */
  function AddItem(rrset: RRset, data: Rdata, ttl: uint32): RRset {
    var ttl' := if rrset.items == [] || ttl < rrset.ttl then ttl else rrset.ttl;
    var items := if IsSingleton(rrset.rdtype) && rrset.items != [] then [data]
                 else if data in rrset.items then rrset.items
                 else rrset.items + [data];
    rrset.(ttl := ttl', items := items)
  }

  datatype Key = Key(name: seq<Label>, rdclass: uint16, rdtype: uint16)

  function KeyOf(rrset: RRset): Key {
    Key(Canonical(rrset.name), rrset.rdclass, rrset.rdtype)
  }

  /** The position of the first RRset with the key, as a scan of the section finds it. */
  function Find(section: seq<RRset>, key: Key): (r: Option<nat>)
    ensures r.Some? ==> r.value < |section| && KeyOf(section[r.value]) == key
  {
    if section == [] then None
    else
      var last := |section| - 1;
      var earlier := Find(section[..last], key);
      if earlier.Some? then earlier else if KeyOf(section[last]) == key then Some(last) else None
  }

  /** A record joins the RRset of its section that has its name (up to case), class and type, or
      starts a new one. */
  function AddRecord(section: seq<RRset>, rec: Record): seq<RRset> {
    var ttl := NormalTtl(rec.ttl);
    var new_ := RRset(rec.name, rec.rdclass, rec.rdtype, 0, []);
    match Find(section, KeyOf(new_))
    case Some(i) => section[i := AddItem(section[i], rec.data, ttl)]
    case None => section + [AddItem(new_, rec.data, ttl)]
  }

  function ReadQuestions(w: seq<byte>, pos: nat, n: nat, section: seq<RRset>): Result<(seq<RRset>, nat), DnsError>
    decreases n
  {
    if n == 0 then Success((section, pos))
    else
      var (q, p) :- ReadQuestion(w, pos);
      ReadQuestions(w, p, n - 1, section + [q])
  }

  function ReadRecords(w: seq<byte>, pos: nat, n: nat, section: seq<RRset>): Result<(seq<RRset>, nat), DnsError>
    decreases n
  {
    if n == 0 then Success((section, pos))
    else
      var (rec, p) :- ReadRecord(w, pos);
      ReadRecords(w, p, n - 1, AddRecord(section, rec))
  }

  function ReadMessage(w: seq<byte>): Result<Message, DnsError> {
    if |w| < HEADER_SIZE then Failure(ShortHeader)
    else if Opcode(Read16(w, 2)) == UPDATE then Failure(NotModelled)
    else
      var (question, p1) :- ReadQuestions(w, HEADER_SIZE, Read16(w, 4), []);
      var (answer, p2) :- ReadRecords(w, p1, Read16(w, 6), []);
      var (authority, p3) :- ReadRecords(w, p2, Read16(w, 8), []);
      var (additional, p4) :- ReadRecords(w, p3, Read16(w, 10), []);
      if p4 != |w| then Failure(TrailingJunk)
      else Success(Message(Read16(w, 0), Read16(w, 2), [question, answer, authority, additional]))
  }
}
