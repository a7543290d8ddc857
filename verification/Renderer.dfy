/** The renderer of `dns/renderer.py`: sections, size limit, rollback and header. */
module Renderer {
  import opened Wrappers
  import opened Names
  import opened Wire
  import opened NameWire
  import opened Records

  const HEADER_SIZE := 12

  const QUESTION := 0
  const ANSWER := 1
  const AUTHORITY := 2
  const ADDITIONAL := 3

  type Origin = Option<seq<Label>>

  // ---------- The renderer as a value ----------

  datatype Rendering = Rendering(
    wr: Written, section: nat, counts: seq<nat>, maxSize: nat, reserved: nat)

  /** What adding something comes to, given what writing it came to: an add that makes the output
      too big leaves no trace in output, table or counts. */
  function Track(st: Rendering, wr: Written, error: Option<DnsError>, n: nat): (Rendering, Option<DnsError>)
    requires st.section < |st.counts|
  {
    if error.Some? then (st.(wr := wr), error)
    else if |wr.out| > st.maxSize then (st, Some(TooBig))
    else (st.(wr := wr, counts := st.counts[st.section := st.counts[st.section] + n]), None)
  }

  datatype Question = Question(name: seq<Label>, rdclass: uint16, rdtype: uint16)

  predicate QuestionNamed(q: Question, origin: Origin) {
    ValidName(q.name) && (origin.Some? ==> ValidName(origin.value))
  }

  function QuestionResult(wr: Written, q: Question, origin: Origin): (r: (Written, Option<DnsError>))
    requires QuestionNamed(q, origin) && wr.Fits()
  {
    var (named, error) := NameResult(wr, q.name, origin, false);
    if error.Some? then (named, error)
    else (named.Append(PackUint16(q.rdtype) + PackUint16(q.rdclass)), None)
  }

  function AddQuestionTo(st: Rendering, q: Question, origin: Origin): (Rendering, Option<DnsError>)
    requires |st.counts| == 4 && st.wr.Fits() && QuestionNamed(q, origin)
  {
    if st.section > QUESTION then (st, Some(WrongSection))
    else
      var (wr, error) := QuestionResult(st.wr, q, origin);
      Track(st, wr, error, 1)
  }

  function AddRRsetTo(st: Rendering, section: nat, rrset: RRset, origin: Origin, order: seq<Rdata>)
    : (Rendering, Option<DnsError>)
    requires |st.counts| == 4 && section < 4 && st.wr.Fits() && Named(rrset, origin)
  {
    if st.section > section then (st, Some(WrongSection))
    else
      var (wr, error) := RRsetResult(st.wr, rrset, origin, order);
      Track(st.(section := section), wr, error, RecordCount(rrset))
  }

  function Header(id: uint16, flags: uint16, counts: seq<nat>): (r: seq<byte>)
    requires |counts| == 4 && forall i | 0 <= i < 4 :: counts[i] < 0x1_0000
    ensures |r| == HEADER_SIZE
  {
    PackUint16(id) + PackUint16(flags)
    + PackUint16(counts[0]) + PackUint16(counts[1]) + PackUint16(counts[2]) + PackUint16(counts[3])
  }

  // ---------- Writing keeps the table sound ----------

  ghost predicate Rendered(wr: Written) {
    wr.table.Some? && HEADER_SIZE <= |wr.out| && Sound(wr.out, wr.table.value, HEADER_SIZE)
  }

  lemma AppendRendered(wr: Written, bytes: seq<byte>)
    requires Rendered(wr)
    ensures Rendered(wr.Append(bytes)) && Extends(wr, wr.Append(bytes))
  {
    SoundExtend(wr.out, bytes, wr.table.value, HEADER_SIZE);
  }

  lemma NameRendered(wr: Written, labels: seq<Label>, origin: Origin)
    requires Rendered(wr) && ValidName(labels) && (origin.Some? ==> ValidName(origin.value))
    ensures var r := NameResult(wr, labels, origin, false).0; Rendered(r) && Extends(wr, r)
  {
    var full := WireLabels(labels, origin);
    if full.Success? {
      CompressionSound(full.value, wr, HEADER_SIZE, false);
    }
  }

  lemma QuestionRendered(wr: Written, q: Question, origin: Origin)
    requires Rendered(wr) && QuestionNamed(q, origin)
    ensures var r := QuestionResult(wr, q, origin).0; Rendered(r) && Extends(wr, r)
  {
    NameRendered(wr, q.name, origin);
    AppendRendered(NameResult(wr, q.name, origin, false).0, PackUint16(q.rdtype) + PackUint16(q.rdclass));
  }

  lemma RecordRendered(wr: Written, rrset: RRset, origin: Origin, data: Rdata)
    requires Rendered(wr) && Named(rrset, origin)
    ensures var r := RecordResult(wr, rrset, origin, data).0; Rendered(r) && Extends(wr, r)
  {
    NameRendered(wr, rrset.name, origin);
    var named := NameResult(wr, rrset.name, origin, false).0;
    var header := RecordHeader(rrset.rdtype, rrset.rdclass, rrset.ttl, if |data| < 0x1_0000 then |data| else 0);
    AppendRendered(named, header);
    AppendRendered(named.Append(header), data);
  }

  lemma {:induction false} RecordsRendered(wr: Written, rrset: RRset, origin: Origin, order: seq<Rdata>)
    requires Rendered(wr) && Named(rrset, origin)
    ensures var r := RecordsResult(wr, rrset, origin, order).0; Rendered(r) && Extends(wr, r)
    decreases |order|
  {
    if order != [] {
      RecordRendered(wr, rrset, origin, order[0]);
      var first := RecordResult(wr, rrset, origin, order[0]);
      if first.1.None? {
        RecordsRendered(first.0, rrset, origin, order[1..]);
      }
    }
  }

  lemma RRsetRendered(wr: Written, rrset: RRset, origin: Origin, order: seq<Rdata>)
    requires Rendered(wr) && Named(rrset, origin)
    ensures var r := RRsetResult(wr, rrset, origin, order).0; Rendered(r) && Extends(wr, r)
  {
    if rrset.items == [] {
      RecordRendered(wr, rrset.(ttl := 0), origin, []);
    } else {
      RecordsRendered(wr, rrset, origin, order);
    }
  }

  /** Cutting the output back and dropping the entries at or beyond the cut undoes a write exactly. */
  lemma RollbackUndoes(before: Written, after: Written)
    requires Rendered(before) && Extends(before, after)
    ensures after.out[..|before.out|] == before.out
    ensures Below(after.table.value, |before.out|) == before.table.value
  {
  }

  function Below(table: Table, where: nat): Table {
    map k | k in table && table[k] < where :: table[k]
  }

  /** Rewriting the octets below base leaves the table sound: no name reaches them. */
  lemma SoundPatch(out: seq<byte>, out': seq<byte>, table: Table, base: nat)
    requires Sound(out, table, base) && |out'| == |out| >= base && out'[base..] == out[base..]
    ensures Sound(out', table, base)
  {
    forall k | k in table
      ensures SpellsKey(out', table[k], k, base)
    {
      WalkShape(out, |out|, table[k], table[k]);
      forall i | base <= i < |out|
        ensures out[i] == out'[i]
      {
        assert out[base..][i - base] == out'[base..][i - base];
      }
      WalkFrame(out, |out|, out', |out'|, table[k], table[k]);
    }
  }

  method WriteQuestion(q: Question, file: WireFile, compress: CompressTable, origin: Origin)
    returns (r: Option<DnsError>)
    requires QuestionNamed(q, origin) && TableFits(compress.offsets)
    modifies file, compress
    ensures (View(file, compress), r) == QuestionResult(old(View(file, compress)), q, origin)
  {
    r := ToWire(q.name, file, compress, origin, false);
    if r.None? {
      file.Write(PackUint16(q.rdtype) + PackUint16(q.rdclass));
    }
  }

  // ---------- The renderer as an object ----------

  class Renderer {
    const id: uint16
    const flags: uint16
    const origin: Origin
    const output: WireFile
    const compress: CompressTable
    var section: nat
    var counts: seq<nat>
    var maxSize: nat
    var reserved: nat

    ghost function State(): Rendering
      reads this, output, compress
    {
      Rendering(View(output, compress), section, counts, maxSize, reserved)
    }

    ghost predicate Valid()
      reads this, output, compress
    {
      && |counts| == 4 && section < 4
      && Rendered(View(output, compress))
      && (origin.Some? ==> ValidName(origin.value))
    }

    constructor (id: uint16, flags: uint16, maxSize: nat, origin: Origin)
      requires origin.Some? ==> ValidName(origin.value)
      ensures Valid() && fresh(output) && fresh(compress)
      ensures this.id == id && this.flags == flags && this.origin == origin
      ensures State() == Start(maxSize)
    {
      this.id := id;
      this.flags := flags;
      this.origin := origin;
      this.maxSize := maxSize;
      output := new WireFile();
      compress := new CompressTable();
      section := QUESTION;
      counts := [0, 0, 0, 0];
      reserved := 0;
      new;
      output.Write(seq(HEADER_SIZE, i => 0));
    }

    method Rollback(where: nat)
      requires where <= |output.data|
      modifies output, compress
      ensures output.data == old(output.data)[..where]
      ensures compress.offsets == Below(old(compress.offsets), where)
    {
      output.data := output.data[..where];
      var keys := compress.offsets.Keys;
      while keys != {}
        invariant output.data == old(output.data)[..where]
        invariant keys <= compress.offsets.Keys <= old(compress.offsets).Keys
        invariant forall k | k in compress.offsets :: compress.offsets[k] == old(compress.offsets)[k]
        invariant forall k | k in old(compress.offsets) && k !in keys ::
          k in compress.offsets <==> old(compress.offsets)[k] < where
        decreases |keys|
      {
        var k :| k in keys;
        keys := keys - {k};
        if compress.offsets[k] >= where {
          compress.offsets := compress.offsets - {k};
        }
      }
    }

    method SetSection(section: nat) returns (ok: bool)
      modifies this`section
      ensures ok <==> old(this.section) <= section
      ensures this.section == if ok then section else old(this.section)
    {
      if this.section != section {
        if this.section > section {
          return false;
        }
        this.section := section;
      }
      return true;
    }

    /** The end of `_track_size`: n records were written after start octets of output. */
    method EndTracking(start: nat, n: nat, ghost before: Written) returns (r: Option<DnsError>)
      requires Valid() && Rendered(before) && start == |before.out| && Extends(before, View(output, compress))
      modifies this`counts, output, compress
      ensures Valid()
      ensures (State(), r) == Track(old(State()).(wr := before), old(View(output, compress)), None, n)
    {
      if |output.data| > maxSize {
        RollbackUndoes(before, View(output, compress));
        Rollback(start);
        return Some(TooBig);
      }
      counts := counts[section := counts[section] + n];
      return None;
    }

    method AddQuestion(q: Question) returns (r: Option<DnsError>)
      requires Valid() && QuestionNamed(q, origin)
      modifies this`section, this`counts, output, compress
      ensures Valid()
      ensures (State(), r) == AddQuestionTo(old(State()), q, origin)
    {
      var ok := SetSection(QUESTION);
      if !ok {
        return Some(WrongSection);
      }
      ghost var before := View(output, compress);
      var start := |output.data|;
      r := WriteQuestion(q, output, compress, origin);
      QuestionRendered(before, q, origin);
      if r.None? {
        r := EndTracking(start, 1, before);
      }
    }

    method AddRRset(section: nat, rrset: RRset) returns (r: Option<DnsError>, ghost order: seq<Rdata>)
      requires Valid() && section < 4 && Named(rrset, origin)
      modifies this`section, this`counts, output, compress
      ensures Valid()
      ensures multiset(order) == multiset(rrset.items)
      ensures (State(), r) == AddRRsetTo(old(State()), section, rrset, origin, order)
    {
      order := rrset.items;
      var ok := SetSection(section);
      if !ok {
        return Some(WrongSection), order;
      }
      ghost var before := View(output, compress);
      var start := |output.data|;
      var n, o := WriteRRset(rrset, output, compress, origin);
      order := o;
      RRsetRendered(before, rrset, origin, order);
      if n.Failure? {
        return Some(n.error), order;
      }
      r := EndTracking(start, n.value, before);
    }

    method WriteHeader() returns (r: Option<DnsError>)
      requires Valid()
      modifies output
      ensures Valid()
      ensures if exists i | 0 <= i < 4 :: counts[i] >= 0x1_0000
              then r == Some(CountTooBig) && output.data == old(output.data)
              else r == None && output.data == Header(id, flags, counts) + old(output.data)[HEADER_SIZE..]
    {
      if counts[0] >= 0x1_0000 || counts[1] >= 0x1_0000 || counts[2] >= 0x1_0000 || counts[3] >= 0x1_0000 {
        return Some(CountTooBig);
      }
      ghost var before := output.data;
      Patch(output, 0, Header(id, flags, counts));
      assert output.data[HEADER_SIZE..] == before[HEADER_SIZE..];
      SoundPatch(before, output.data, compress.offsets, HEADER_SIZE);
      return None;
    }

    method Reserve(size: int) returns (ok: bool)
      requires Valid()
      modifies this`reserved, this`maxSize
      ensures Valid() && (ok <==> 0 <= size <= old(maxSize))
      ensures State() == if ok then ReserveIn(old(State()), size) else old(State())
    {
      if size < 0 {
        return false;
      }
      if size > maxSize {
        return false;
      }
      reserved := reserved + size;
      maxSize := maxSize - size;
      return true;
    }

    method ReleaseReserved()
      requires Valid()
      modifies this`reserved, this`maxSize
      ensures Valid() && State() == ReleaseIn(old(State()))
    {
      maxSize := maxSize + reserved;
      reserved := 0;
    }
  }

  // ---------- Whole runs ----------

  function Start(maxSize: nat): Rendering {
    Rendering(Written(seq(HEADER_SIZE, i => 0), Some(map[])), QUESTION, [0, 0, 0, 0], maxSize, 0)
  }

  function ReserveIn(st: Rendering, size: nat): Rendering
    requires size <= st.maxSize
  {
    st.(maxSize := st.maxSize - size, reserved := st.reserved + size)
  }

  function ReleaseIn(st: Rendering): Rendering {
    st.(maxSize := st.maxSize + st.reserved, reserved := 0)
  }

  datatype Op =
    | AskOp(q: Question)
    | RRsetOp(section: nat, rrset: RRset, order: seq<Rdata>)
    | ReserveOp(size: int)
    | ReleaseOp

  predicate OpOk(op: Op, origin: Origin) {
    match op
    case AskOp(q) => QuestionNamed(q, origin)
    case RRsetOp(section, rrset, _) => section < 4 && Named(rrset, origin)
    case _ => true
  }

  function Do(st: Rendering, op: Op, origin: Origin): (Rendering, Option<DnsError>)
    requires |st.counts| == 4 && st.wr.Fits() && OpOk(op, origin)
  {
    match op
    case AskOp(q) => AddQuestionTo(st, q, origin)
    case RRsetOp(section, rrset, order) => AddRRsetTo(st, section, rrset, origin, order)
    case ReserveOp(size) => (if 0 <= size <= st.maxSize then ReserveIn(st, size) else st, None)
    case ReleaseOp => (ReleaseIn(st), None)
  }

  /** The error does not mean that a write failed part-way. */
  predicate CleanEnd(error: Option<DnsError>) {
    error in {None, Some(TooBig), Some(WrongSection)}
  }

  /** What every operation does to the renderer.  An add that ends in TooBig or WrongSection changes
      neither output, table nor counts; nothing that was there is changed; the table stays sound; limit
      plus reserve stays the same; and only a write that failed can leave more octets than the limit. */
  ghost predicate Kept(st: Rendering, r: Rendering, error: Option<DnsError>) {
    && |r.counts| == |st.counts| && Rendered(r.wr) && st.wr.out <= r.wr.out
    && r.maxSize + r.reserved == st.maxSize + st.reserved
    && (error in {Some(TooBig), Some(WrongSection)} ==> r.wr == st.wr && r.counts == st.counts)
    && (CleanEnd(error) ==> |r.wr.out| <= Max(|st.wr.out|, st.maxSize))
  }

  lemma QuestionErrors(wr: Written, q: Question, origin: Origin)
    requires QuestionNamed(q, origin) && wr.Fits()
    ensures QuestionResult(wr, q, origin).1 !in {Some(TooBig), Some(WrongSection)}
  {
  }

  lemma {:induction false} RecordsErrors(wr: Written, rrset: RRset, origin: Origin, order: seq<Rdata>)
    requires Named(rrset, origin) && wr.Fits()
    ensures RecordsResult(wr, rrset, origin, order).1 !in {Some(TooBig), Some(WrongSection)}
    decreases |order|
  {
    if order != [] {
      var first := RecordResult(wr, rrset, origin, order[0]);
      if first.1.None? {
        RecordsErrors(first.0, rrset, origin, order[1..]);
      }
    }
  }

  lemma TrackKeeps(st: Rendering, wr: Written, error: Option<DnsError>, n: nat)
    requires |st.counts| == 4 && st.section < 4 && Rendered(st.wr) && Rendered(wr) && st.wr.out <= wr.out
    requires error !in {Some(TooBig), Some(WrongSection)}
    ensures var (r, e) := Track(st, wr, error, n); Kept(st, r, e)
  {
  }

  lemma OpKeeps(st: Rendering, op: Op, origin: Origin)
    requires |st.counts| == 4 && Rendered(st.wr) && OpOk(op, origin)
    ensures var (r, error) := Do(st, op, origin); Kept(st, r, error)
  {
    match op
    case AskOp(q) =>
      if st.section <= QUESTION {
        var (wr, error) := QuestionResult(st.wr, q, origin);
        QuestionRendered(st.wr, q, origin);
        QuestionErrors(st.wr, q, origin);
        TrackKeeps(st, wr, error, 1);
      }
    case RRsetOp(section, rrset, order) =>
      if st.section <= section {
        var (wr, error) := RRsetResult(st.wr, rrset, origin, order);
        RRsetRendered(st.wr, rrset, origin, order);
        RecordsErrors(st.wr, rrset, origin, order);
        TrackKeeps(st.(section := section), wr, error, RecordCount(rrset));
      }
    case ReserveOp(size) =>
    case ReleaseOp =>
  }

  /** Every operation, whatever errors the earlier ones returned. */
  ghost function Run(st: Rendering, ops: seq<Op>, origin: Origin): (r: Rendering)
    requires |st.counts| == 4 && Rendered(st.wr) && forall op | op in ops :: OpOk(op, origin)
    ensures |r.counts| == 4 && Rendered(r.wr)
    decreases |ops|
  {
    if ops == [] then st
    else
      OpKeeps(st, ops[0], origin);
      Run(Do(st, ops[0], origin).0, ops[1..], origin)
  }

  /** The items are written in some order of their own. */
  predicate Permuted(op: Op) {
    op.RRsetOp? ==> multiset(op.order) == multiset(op.rrset.items)
  }

  predicate AllOk(ops: seq<Op>, origin: Origin) {
    forall op | op in ops :: OpOk(op, origin) && Permuted(op)
  }

  /** The section that an operation leaves in force, also when it raises. */
  function NextSection(section: nat, op: Op): nat {
    if op.RRsetOp? then Max(section, op.section) else section
  }

  /** An item does not fit its length field, and nothing keeps it from being written: neither the
      section in force nor the name. */
  predicate WritesTooLong(section: nat, op: Op, origin: Origin)
    requires OpOk(op, origin)
  {
    && op.RRsetOp? && section <= op.section && WireLabels(op.rrset.name, origin).Success?
    && exists data | data in op.rrset.items :: |data| >= 0x1_0000
  }

  predicate SomeWriteTooLong(section: nat, ops: seq<Op>, origin: Origin)
    requires AllOk(ops, origin)
    decreases ops
  {
    ops != []
    && (|| WritesTooLong(section, ops[0], origin)
        || SomeWriteTooLong(NextSection(section, ops[0]), ops[1..], origin))
  }

  lemma RecordSize(wr: Written, rrset: RRset, origin: Origin, data: Rdata)
    requires Named(rrset, origin) && wr.Fits()
    ensures var (r, error) := RecordResult(wr, rrset, origin, data);
            && (WireLabels(rrset.name, origin).Failure? ==> error.Some? && r == wr)
            && (WireLabels(rrset.name, origin).Success? ==>
                  (error.Some? <==> |data| >= 0x1_0000) && |r.out| >= |data|)
  {
  }

  lemma {:induction false} RecordsTooLong(wr: Written, rrset: RRset, origin: Origin, order: seq<Rdata>)
    requires Named(rrset, origin) && wr.Fits()
    ensures var (r, error) := RecordsResult(wr, rrset, origin, order);
            && (WireLabels(rrset.name, origin).Failure? ==> r == wr)
            && (WireLabels(rrset.name, origin).Success? ==>
                  && (error.Some? <==> exists data | data in order :: |data| >= 0x1_0000)
                  && (error.Some? ==> |r.out| >= 0x1_0000))
    decreases |order|
  {
    if order != [] {
      RecordSize(wr, rrset, origin, order[0]);
      var first := RecordResult(wr, rrset, origin, order[0]);
      assert order == [order[0]] + order[1..];
      hide RecordResult;
      if first.1.None? {
        RecordsTooLong(first.0, rrset, origin, order[1..]);
      }
    }
  }

  /** One operation goes over a limit not below its own for no other reason, and over one that a length
      field can hold for certain then. */
  lemma OpOverruns(st: Rendering, op: Op, origin: Origin, limit: nat)
    requires |st.counts| == 4 && Rendered(st.wr) && OpOk(op, origin) && Permuted(op)
    requires |st.wr.out| <= limit && st.maxSize <= limit
    ensures var r := Do(st, op, origin).0;
            && r.section == NextSection(st.section, op)
            && (|r.wr.out| > limit ==> WritesTooLong(st.section, op, origin))
            && (limit < 0x1_0000 && WritesTooLong(st.section, op, origin) ==> |r.wr.out| > limit)
  {
    OpKeeps(st, op, origin);
    if op.AskOp? {
      QuestionUnwritten(st, op.q, origin);
    } else if op.RRsetOp? && st.section <= op.section {
      assert forall data :: data in op.order <==> data in multiset(op.order);
      assert forall data :: data in op.rrset.items <==> data in multiset(op.rrset.items);
      if op.rrset.items == [] {
        RecordSize(st.wr, op.rrset.(ttl := 0), origin, []);
      } else {
        RecordsTooLong(st.wr, op.rrset, origin, op.order);
      }
      hide RecordResult, RecordsResult, WireLabels, Rendered;
    }
  }

  lemma QuestionUnwritten(st: Rendering, q: Question, origin: Origin)
    requires |st.counts| == 4 && st.wr.Fits() && QuestionNamed(q, origin)
    ensures var (r, error) := AddQuestionTo(st, q, origin);
            r.section == st.section && (error.Some? ==> r.wr == st.wr)
  {
  }

  /** Once there are too many octets, so there are ever after. */
  lemma {:induction false} RunGrows(st: Rendering, ops: seq<Op>, origin: Origin)
    requires |st.counts| == 4 && Rendered(st.wr) && forall op | op in ops :: OpOk(op, origin)
    ensures var r := Run(st, ops, origin);
            st.wr.out <= r.wr.out && r.maxSize + r.reserved == st.maxSize + st.reserved
    decreases |ops|
  {
    if ops != [] {
      OpKeeps(st, ops[0], origin);
      var r := Do(st, ops[0], origin).0;
      hide Do, Rendered;
      RunGrows(r, ops[1..], origin);
    }
  }

  /** Over every run, whatever its errors: limit plus reserve never changes, and the output holds more
      octets than that in the end only if some item did not fit its length field; if the sum itself
      would fit one, as it does for every message, then exactly if so. */
  lemma {:induction false} RunBounded(st: Rendering, ops: seq<Op>, origin: Origin)
    requires |st.counts| == 4 && Rendered(st.wr) && AllOk(ops, origin)
    requires |st.wr.out| <= st.maxSize + st.reserved
    ensures var (r, limit) := (Run(st, ops, origin), st.maxSize + st.reserved);
            && r.maxSize + r.reserved == limit
            && (|r.wr.out| > limit ==> SomeWriteTooLong(st.section, ops, origin))
            && (limit < 0x1_0000 && SomeWriteTooLong(st.section, ops, origin) ==> |r.wr.out| > limit)
    decreases |ops|
  {
    if ops != [] {
      OpKeeps(st, ops[0], origin);
      OpOverruns(st, ops[0], origin, st.maxSize + st.reserved);
      var r := Do(st, ops[0], origin).0;
      hide Do, Rendered, OpOk, WritesTooLong;
      RunGrows(r, ops[1..], origin);
      if |r.wr.out| <= st.maxSize + st.reserved {
        RunBounded(r, ops[1..], origin);
      }
    }
  }

  /** One item of 65536 octets, whatever the limit of the message. */
  lemma OverlongItem(maxSize: nat)
    requires HEADER_SIZE <= maxSize < 0x1_0000
    ensures var items := [seq(0x1_0000, i => 0)];
            var op := RRsetOp(ANSWER, RRset([[]], 1, 16, 300, items), items);
            && Rendered(Start(maxSize).wr) && OpOk(op, None)
            && |Run(Start(maxSize), [op], None).wr.out| > maxSize
  {
    var items := [seq(0x1_0000, i => 0)];
    var op := RRsetOp(ANSWER, RRset([[]], 1, 16, 300, items), items);
    assert |items[0]| == 0x1_0000 && items[0] in op.rrset.items;
    assert WritesTooLong(QUESTION, op, None);
    RunBounded(Start(maxSize), [op], None);
  }

  // ---------- Reserving ----------

  /** After reserving, adds leave that many octets free, which a release makes available again. */
  lemma {:induction false} ReservedStaysFree(st: Rendering, ops: seq<Op>, origin: Origin)
    requires |st.counts| == 4 && Rendered(st.wr) && AllOk(ops, origin) && |st.wr.out| <= st.maxSize
    requires forall op | op in ops :: op.AskOp? || op.RRsetOp?
    requires !SomeWriteTooLong(st.section, ops, origin)
    ensures var r := Run(st, ops, origin);
            |r.wr.out| <= st.maxSize && r.maxSize == st.maxSize && r.reserved == st.reserved
    decreases |ops|
  {
    if ops != [] {
      OpKeeps(st, ops[0], origin);
      OpOverruns(st, ops[0], origin, st.maxSize);
      var r := Do(st, ops[0], origin).0;
      assert r.maxSize == st.maxSize && r.reserved == st.reserved;
      hide Do, Rendered, OpOk, WritesTooLong;
      ReservedStaysFree(r, ops[1..], origin);
    }
  }

  lemma {:induction false} ReserveThenRelease(st: Rendering, size: nat, ops: seq<Op>, origin: Origin)
    requires |st.counts| == 4 && Rendered(st.wr) && AllOk(ops, origin)
    requires st.reserved == 0 && |st.wr.out| + size <= st.maxSize
    requires forall op | op in ops :: op.AskOp? || op.RRsetOp?
    requires !SomeWriteTooLong(st.section, ops, origin)
    ensures var r := Do(Run(Do(st, ReserveOp(size), origin).0, ops, origin), ReleaseOp, origin).0;
            |r.wr.out| + size <= r.maxSize == st.maxSize && r.reserved == 0
  {
    ReservedStaysFree(Do(st, ReserveOp(size), origin).0, ops, origin);
    hide Run, SomeWriteTooLong, Rendered;
  }
}
