/** Which messages can be rendered: a bound on the octets, without looking at the compression. */
module Sizes {
  import opened Wrappers
  import opened Names
  import opened NameWire
  import opened Records
  import opened Renderer
  import opened Messages

  // ---------- One add ----------

  /** What an add writes when nothing limits it. */
  function Unlimited(wr: Written, op: Op, origin: Origin): (Written, Option<DnsError>)
    requires wr.Fits() && OpOk(op, origin) && (op.AskOp? || op.RRsetOp?)
  {
    if op.AskOp? then QuestionResult(wr, op.q, origin) else RRsetResult(wr, op.rrset, origin, op.order)
  }

  /** An add is too big exactly when what it writes passes the limit; when it does not, it stays. */
  lemma TooBigExactly(st: Rendering, op: Op, origin: Origin)
    requires |st.counts| == 4 && Rendered(st.wr) && OpOk(op, origin) && (op.AskOp? || op.RRsetOp?)
    ensures var ((r, error), (wr, failed)) := (Do(st, op, origin), Unlimited(st.wr, op, origin));
            var passed := st.section > if op.AskOp? then 0 else op.section;
            && (error == Some(TooBig) <==> !passed && failed.None? && |wr.out| > st.maxSize)
            && (error.None? <==> !passed && failed.None? && |wr.out| <= st.maxSize)
            && (error.None? ==> r.wr == wr)
  {
    if op.AskOp? {
      QuestionErrors(st.wr, op.q, origin);
    } else {
      RecordsErrors(st.wr, op.rrset, origin, op.order);
    }
    hide QuestionResult, RecordsResult, RecordResult;
  }

  // ---------- Octets without compression ----------

  /** The name can be completed to an absolute one. */
  predicate Completable(labels: seq<Label>, origin: Origin) {
    || IsAbsolute(labels)
    || (origin.Some? && IsAbsolute(origin.value) && WireLength(labels + origin.value) <= 255)
  }

  function NameSize(labels: seq<Label>, origin: Origin): nat
    requires Completable(labels, origin)
  {
    WireLength(if IsAbsolute(labels) then labels else labels + origin.value)
  }

  function ItemsSize(name: nat, items: seq<Rdata>): nat {
    if items == [] then 0 else name + 10 + |items[0]| + ItemsSize(name, items[1..])
  }

  /** An RRset without items is one record without data. */
  function RRsetSize(rrset: RRset, origin: Origin): nat
    requires Completable(rrset.name, origin)
  {
    ItemsSize(NameSize(rrset.name, origin), if rrset.items == [] then [[]] else rrset.items)
  }

  predicate Writable(rrsets: seq<RRset>, origin: Origin) {
    forall rrset | rrset in rrsets ::
      Completable(rrset.name, origin) && forall data | data in rrset.items :: |data| < 0x1_0000
  }

  function QuestionsSize(rrsets: seq<RRset>, origin: Origin): nat
    requires Writable(rrsets, origin)
  {
    if rrsets == [] then 0 else NameSize(rrsets[0].name, origin) + 4 + QuestionsSize(rrsets[1..], origin)
  }

  function SectionSize(rrsets: seq<RRset>, origin: Origin): nat
    requires Writable(rrsets, origin)
  {
    if rrsets == [] then 0 else RRsetSize(rrsets[0], origin) + SectionSize(rrsets[1..], origin)
  }

  function RecordsIn(rrsets: seq<RRset>): nat {
    if rrsets == [] then 0 else RecordCount(rrsets[0]) + RecordsIn(rrsets[1..])
  }

  /** Every name can be completed, every item and count fits its field, and all the octets together fit
      the limit even if no name were compressed. */
  predicate SureToFit(m: Message, origin: Origin, maxSize: nat) {
    && |m.sections| == 4
    && Writable(m.sections[0], origin) && Writable(m.sections[1], origin)
    && Writable(m.sections[2], origin) && Writable(m.sections[3], origin)
    && |m.sections[0]| < 0x1_0000 && RecordsIn(m.sections[1]) < 0x1_0000
    && RecordsIn(m.sections[2]) < 0x1_0000 && RecordsIn(m.sections[3]) < 0x1_0000
    && 12 + QuestionsSize(m.sections[0], origin) + SectionSize(m.sections[1], origin)
       + SectionSize(m.sections[2], origin) + SectionSize(m.sections[3], origin) <= maxSize
  }

  // ---------- The order of the items does not matter ----------

  lemma {:induction false} ItemsSizeAppend(name: nat, a: seq<Rdata>, b: seq<Rdata>)
    ensures ItemsSize(name, a + b) == ItemsSize(name, a) + ItemsSize(name, b)
    decreases a
  {
    if a == [] {
      assert a + b == b;
    } else {
      assert (a + b)[1..] == a[1..] + b;
      ItemsSizeAppend(name, a[1..], b);
    }
  }

  lemma {:induction false} ItemsSizePermuted(name: nat, a: seq<Rdata>, b: seq<Rdata>)
    requires multiset(a) == multiset(b)
    ensures ItemsSize(name, a) == ItemsSize(name, b)
    decreases a
  {
    if a == [] {
      assert |multiset(b)| == |b|;
    } else {
      assert a[0] in multiset(b);
      var j :| 0 <= j < |b| && b[j] == a[0];
      TakeOut(a, b, j);
      ItemsSizePermuted(name, a[1..], b[..j] + b[j + 1..]);
      ItemsSizeAppend(name, b[..j], b[j + 1..]);
      ItemsSizeAppend(name, b[..j], [b[j]] + b[j + 1..]);
    }
  }

  // ---------- Rendering ----------

  lemma NameFits(wr: Written, labels: seq<Label>, origin: Origin)
    requires ValidName(labels) && (origin.Some? ==> ValidName(origin.value)) && wr.Fits() && Completable(labels, origin)
    ensures var (r, error) := NameResult(wr, labels, origin, false);
            && error.None? && |r.out| <= |wr.out| + NameSize(labels, origin)
            && WireLabels(labels, origin).Success? && r == WriteFrom(WireLabels(labels, origin).value, wr, false)
  {
    WriteFromExtends(WireLabels(labels, origin).value, wr, false);
  }

  lemma RecordFits(wr: Written, rrset: RRset, origin: Origin, data: Rdata)
    requires Named(rrset, origin) && wr.Fits() && Completable(rrset.name, origin) && |data| < 0x1_0000
    ensures var (r, error) := RecordResult(wr, rrset, origin, data);
            error.None? && |r.out| <= |wr.out| + NameSize(rrset.name, origin) + 10 + |data|
  {
    NameFits(wr, rrset.name, origin);
    hide NameSize, WriteFrom;
  }

  lemma {:induction false} RecordsFit(wr: Written, rrset: RRset, origin: Origin, order: seq<Rdata>)
    requires Named(rrset, origin) && wr.Fits() && Completable(rrset.name, origin)
    requires forall data | data in order :: |data| < 0x1_0000
    ensures var (r, error) := RecordsResult(wr, rrset, origin, order);
            error.None? && |r.out| <= |wr.out| + ItemsSize(NameSize(rrset.name, origin), order)
    decreases |order|
  {
    if order != [] {
      RecordFits(wr, rrset, origin, order[0]);
      hide RecordResult, NameSize, Completable;
      RecordsFit(RecordResult(wr, rrset, origin, order[0]).0, rrset, origin, order[1..]);
    }
  }

  lemma RRsetFits(wr: Written, rrset: RRset, origin: Origin, order: seq<Rdata>)
    requires Named(rrset, origin) && wr.Fits() && Writable([rrset], origin)
    requires multiset(order) == multiset(rrset.items)
    ensures Completable(rrset.name, origin)
    ensures var (r, error) := RRsetResult(wr, rrset, origin, order);
            error.None? && |r.out| <= |wr.out| + RRsetSize(rrset, origin)
  {
    assert rrset in [rrset];
    hide RecordResult, RecordsResult, NameSize, Completable;
    if rrset.items == [] {
      RecordFits(wr, rrset.(ttl := 0), origin, []);
      var none: Rdata := [];
      assert [none][1..] == [];
    } else {
      assert forall data | data in order :: data in multiset(rrset.items);
      RecordsFit(wr, rrset, origin, order);
      ItemsSizePermuted(NameSize(rrset.name, origin), order, rrset.items);
    }
  }

  /** Some adds to a section have succeeded: this many octets more at most, and this many records. */
  predicate Grown(st: Rendering, r: Rendering, section: nat, octets: nat, records: nat) {
    && |st.counts| == 4 && section < 4
    && |r.wr.out| <= |st.wr.out| + octets && r.maxSize == st.maxSize
    && st.section <= section && r.section <= section
    && r.counts == st.counts[section := st.counts[section] + records]
  }

  lemma GrownTwice(a: Rendering, b: Rendering, c: Rendering, section: nat, o: nat, n: nat, o': nat, n': nat)
    requires Grown(a, b, section, o, n) && Grown(b, c, section, o', n')
    ensures Grown(a, c, section, o + o', n + n')
  {
  }

  lemma GrownRoom(a: Rendering, b: Rendering, section: nat, o: nat, n: nat, more: nat)
    requires Grown(a, b, section, o, n) && |a.wr.out| + o + more <= a.maxSize
    ensures |b.wr.out| + more <= b.maxSize && b.section <= section
  {
  }

  lemma AddRRsetFits(st: Rendering, section: nat, rrset: RRset, origin: Origin, order: seq<Rdata>)
    returns (r: Rendering)
    requires Going(st) && st.section <= section < 4 && Named(rrset, origin) && Writable([rrset], origin)
    requires multiset(order) == multiset(rrset.items) && Completable(rrset.name, origin)
    requires |st.wr.out| + RRsetSize(rrset, origin) <= st.maxSize
    ensures AddRRsetTo(st, section, rrset, origin, order) == (r, None)
    ensures Grown(st, r, section, RRsetSize(rrset, origin), RecordCount(rrset))
  {
    RRsetFits(st.wr, rrset, origin, order);
    hide RRsetResult, RRsetSize, Rendered, Named, Writable;
    r := AddRRsetTo(st, section, rrset, origin, order).0;
  }

  lemma AddRRsetsStep(st: Rendering, section: nat, rrsets: seq<RRset>, orders: seq<seq<Rdata>>, origin: Origin,
      r: Rendering)
    requires Going(st) && section < 4 && AllNamed(rrsets, origin) && OrdersOf(orders, rrsets) && rrsets != []
    requires AddRRsetTo(st, section, rrsets[0], origin, orders[0]) == (r, None)
    ensures Going(r) && AllNamed(rrsets[1..], origin) && OrdersOf(orders[1..], rrsets[1..])
    ensures AddRRsets(st, section, rrsets, orders, origin) == AddRRsets(r, section, rrsets[1..], orders[1..], origin)
  {
    OpKeeps(st, RRsetOp(section, rrsets[0], orders[0]), origin);
    hide AddRRsetTo, Named, Rendered;
  }

  lemma SizesStep(rrsets: seq<RRset>, origin: Origin)
    requires rrsets != [] && Writable(rrsets, origin)
    ensures Writable([rrsets[0]], origin) && Writable(rrsets[1..], origin) && Completable(rrsets[0].name, origin)
    ensures SectionSize(rrsets, origin) == RRsetSize(rrsets[0], origin) + SectionSize(rrsets[1..], origin)
    ensures QuestionsSize(rrsets, origin)
            == NameSize(rrsets[0].name, origin) + 4 + QuestionsSize(rrsets[1..], origin)
    ensures RecordsIn(rrsets) == RecordCount(rrsets[0]) + RecordsIn(rrsets[1..])
  {
    assert rrsets[0] in rrsets && forall r | r in rrsets[1..] :: r in rrsets;
    hide RRsetSize, NameSize, Completable, RecordCount;
  }

  lemma RRsetsFacts(st: Rendering, section: nat, rrsets: seq<RRset>, orders: seq<seq<Rdata>>, origin: Origin)
    requires Going(st) && st.section <= section < 4 && AllNamed(rrsets, origin) && OrdersOf(orders, rrsets)
    requires Writable(rrsets, origin)
    ensures |orders| == |rrsets| && |st.counts| == 4 && st.wr.Fits()
    ensures rrsets != [] ==> Named(rrsets[0], origin) && multiset(orders[0]) == multiset(rrsets[0].items)
    ensures rrsets == [] ==>
              && AddRRsets(st, section, rrsets, orders, origin) == (st, None)
              && Grown(st, st, section, SectionSize(rrsets, origin), RecordsIn(rrsets))
  {
    hide Named;
  }

  lemma {:induction false} SectionFits(st: Rendering, section: nat, rrsets: seq<RRset>, orders: seq<seq<Rdata>>,
      origin: Origin)
    returns (r: Rendering)
    requires Going(st) && st.section <= section < 4 && AllNamed(rrsets, origin) && OrdersOf(orders, rrsets)
    requires Writable(rrsets, origin) && |st.wr.out| + SectionSize(rrsets, origin) <= st.maxSize
    ensures AddRRsets(st, section, rrsets, orders, origin) == (r, None)
    ensures Grown(st, r, section, SectionSize(rrsets, origin), RecordsIn(rrsets))
    decreases |rrsets|
  {
    hide *;
    RRsetsFacts(st, section, rrsets, orders, origin);
    r := st;
    if rrsets != [] {
      SizesStep(rrsets, origin);
      var one := AddRRsetFits(st, section, rrsets[0], origin, orders[0]);
      AddRRsetsStep(st, section, rrsets, orders, origin, one);
      var (size, count) := (RRsetSize(rrsets[0], origin), RecordCount(rrsets[0]));
      var (sizes, counts) := (SectionSize(rrsets[1..], origin), RecordsIn(rrsets[1..]));
      GrownRoom(st, one, section, size, count, sizes);
      r := SectionFits(one, section, rrsets[1..], orders[1..], origin);
      GrownTwice(st, one, r, section, size, count, sizes, counts);
    }
  }

  lemma AddQuestionFits(st: Rendering, q: Question, origin: Origin) returns (r: Rendering)
    requires Going(st) && st.section == 0 && QuestionNamed(q, origin) && Completable(q.name, origin)
    requires |st.wr.out| + NameSize(q.name, origin) + 4 <= st.maxSize
    ensures AddQuestionTo(st, q, origin) == (r, None) && Grown(st, r, 0, NameSize(q.name, origin) + 4, 1)
  {
    NameFits(st.wr, q.name, origin);
    hide NameSize, NameResult, Rendered;
    r := AddQuestionTo(st, q, origin).0;
  }

  lemma AddQuestionsStep(st: Rendering, rrsets: seq<RRset>, origin: Origin, r: Rendering)
    requires Going(st) && AllNamed(rrsets, origin) && rrsets != []
    requires AddQuestionTo(st, AsQuestion(rrsets[0]), origin) == (r, None)
    ensures Going(r) && AllNamed(rrsets[1..], origin)
    ensures AddQuestions(st, rrsets, origin) == AddQuestions(r, rrsets[1..], origin)
  {
    OpKeeps(st, AskOp(AsQuestion(rrsets[0])), origin);
    hide AddQuestionTo, Rendered;
  }

  lemma QuestionsFacts(st: Rendering, rrsets: seq<RRset>, origin: Origin)
    requires Going(st) && st.section == 0 && AllNamed(rrsets, origin) && Writable(rrsets, origin)
    ensures |st.counts| == 4 && st.wr.Fits()
    ensures rrsets != [] ==>
              QuestionNamed(AsQuestion(rrsets[0]), origin) && AsQuestion(rrsets[0]).name == rrsets[0].name
    ensures rrsets == [] ==>
              && AddQuestions(st, rrsets, origin) == (st, None)
              && Grown(st, st, 0, QuestionsSize(rrsets, origin), 0)
  {
  }

  lemma {:induction false} AllQuestionsFit(st: Rendering, rrsets: seq<RRset>, origin: Origin) returns (r: Rendering)
    requires Going(st) && st.section == 0 && AllNamed(rrsets, origin) && Writable(rrsets, origin)
    requires |st.wr.out| + QuestionsSize(rrsets, origin) <= st.maxSize
    ensures AddQuestions(st, rrsets, origin) == (r, None) && Grown(st, r, 0, QuestionsSize(rrsets, origin), |rrsets|)
    decreases |rrsets|
  {
    hide *;
    QuestionsFacts(st, rrsets, origin);
    r := st;
    if rrsets != [] {
      SizesStep(rrsets, origin);
      var one := AddQuestionFits(st, AsQuestion(rrsets[0]), origin);
      AddQuestionsStep(st, rrsets, origin, one);
      var (size, sizes) := (NameSize(rrsets[0].name, origin) + 4, QuestionsSize(rrsets[1..], origin));
      GrownRoom(st, one, 0, size, 1, sizes);
      r := AllQuestionsFit(one, rrsets[1..], origin);
      GrownTwice(st, one, r, 0, size, 1, sizes, |rrsets| - 1);
    }
  }

  lemma AddSectionsStep(st: Rendering, m: Message, orders: seq<seq<seq<Rdata>>>, origin: Origin, s: nat,
      before: Rendering)
    requires Going(st) && MessageNamed(m, origin) && Orders(orders, m) && 1 <= s <= 3
    requires AddSections(st, m, orders, origin, s) == (before, None)
    ensures Going(before) && AllNamed(m.sections[s], origin) && OrdersOf(orders[s], m.sections[s])
    ensures |m.sections| == 4 == |orders| && |orders[s]| == |m.sections[s]|
    ensures AddSections(st, m, orders, origin, s + 1) == AddRRsets(before, s, m.sections[s], orders[s], origin)
  {
    hide AddRRsets, Rendered, AllNamed;
  }

  /** From one record section to the next. */
  lemma NextSectionFits(st: Rendering, m: Message, orders: seq<seq<seq<Rdata>>>, origin: Origin, s: nat,
      before: Rendering)
    returns (r: Rendering)
    requires Going(st) && MessageNamed(m, origin) && Orders(orders, m) && 1 <= s <= 3 && Writable(m.sections[s], origin)
    requires AddSections(st, m, orders, origin, s) == (before, None) && before.section <= s
    requires |before.wr.out| + SectionSize(m.sections[s], origin) <= before.maxSize
    ensures AddSections(st, m, orders, origin, s + 1) == (r, None)
    ensures Grown(before, r, s, SectionSize(m.sections[s], origin), RecordsIn(m.sections[s]))
  {
    hide *;
    AddSectionsStep(st, m, orders, origin, s, before);
    r := SectionFits(before, s, m.sections[s], orders[s], origin);
  }

  lemma NoSectionsAdded(st: Rendering, m: Message, orders: seq<seq<seq<Rdata>>>, origin: Origin)
    requires Going(st) && MessageNamed(m, origin) && Orders(orders, m)
    ensures |m.sections| == 4 && AddSections(st, m, orders, origin, 1) == (st, None)
  {
    hide AllNamed, OrdersOf, Rendered;
  }

  lemma RecordSectionsFit(st: Rendering, m: Message, orders: seq<seq<seq<Rdata>>>, origin: Origin)
    returns (r: Rendering)
    requires Going(st) && MessageNamed(m, origin) && Orders(orders, m) && st.section <= 1 && |st.counts| == 4
    requires Writable(m.sections[1], origin) && Writable(m.sections[2], origin) && Writable(m.sections[3], origin)
    requires |st.wr.out| + SectionSize(m.sections[1], origin) + SectionSize(m.sections[2], origin)
             + SectionSize(m.sections[3], origin) <= st.maxSize
    ensures AddSections(st, m, orders, origin, 4) == (r, None)
    ensures r.counts == [st.counts[0], st.counts[1] + RecordsIn(m.sections[1]),
                         st.counts[2] + RecordsIn(m.sections[2]), st.counts[3] + RecordsIn(m.sections[3])]
  {
    hide *;
    NoSectionsAdded(st, m, orders, origin);
    var (n1, n2, n3) := (SectionSize(m.sections[1], origin), SectionSize(m.sections[2], origin),
                         SectionSize(m.sections[3], origin));
    var st2 := NextSectionFits(st, m, orders, origin, 1, st);
    GrownRoom(st, st2, 1, n1, RecordsIn(m.sections[1]), n2 + n3);
    var st3 := NextSectionFits(st, m, orders, origin, 2, st2);
    GrownRoom(st2, st3, 2, n2, RecordsIn(m.sections[2]), n3);
    r := NextSectionFits(st, m, orders, origin, 3, st3);
    GrownCounts(st, st2, 1, n1, RecordsIn(m.sections[1]));
    GrownCounts(st2, st3, 2, n2, RecordsIn(m.sections[2]));
    GrownCounts(st3, r, 3, n3, RecordsIn(m.sections[3]));
  }

  lemma GrownCounts(a: Rendering, b: Rendering, section: nat, o: nat, n: nat)
    requires Grown(a, b, section, o, n)
    ensures |a.counts| == 4 && section < 4 && b.counts == a.counts[section := a.counts[section] + n]
  {
  }

  lemma StartsEmpty(maxSize: nat)
    ensures var st := Start(maxSize);
            Going(st) && |st.wr.out| == 12 && st.section == 0 && st.counts == [0, 0, 0, 0] && st.maxSize == maxSize
  {
  }

  /** Whatever order the items are written in, such a message is rendered. */
  lemma {:induction false} Renders(m: Message, orders: seq<seq<seq<Rdata>>>, origin: Origin, maxSize: nat)
    requires MessageNamed(m, origin) && Orders(orders, m) && SureToFit(m, origin, maxSize)
    ensures RenderResult(m, orders, origin, maxSize).Success?
  {
    var st := Start(maxSize);
    StartsEmpty(maxSize);
    hide AddQuestions, AddSections, Writable, AllNamed, OrdersOf, SectionSize, QuestionsSize, RecordsIn, Rendered;
    hide Start, Header;
    var asked := AllQuestionsFit(st, m.sections[0], origin);
    var r := RecordSectionsFit(asked, m, orders, origin);
  }

  /** The limit in force: what is asked for, or else what the requestor can take, or else the most there
      is, but never out of the range from 512 to 65535. */
  lemma LimitInForce(maxSize: nat, payload: nat)
    ensures var limit := EffectiveSize(maxSize, payload);
            && 512 <= limit <= 65535
            && (512 <= maxSize <= 65535 ==> limit == maxSize)
            && (0 < maxSize < 512 ==> limit == 512)
            && (maxSize > 65535 ==> limit == 65535)
            && (maxSize == 0 ==> limit == EffectiveSize(if payload == 0 then 65535 else payload, 0))
  {
  }
}
