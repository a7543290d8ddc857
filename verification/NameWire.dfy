/** `Name.to_wire` of `dns/name.py`: writing a name, with compression. */
module NameWire {
  import opened Wrappers
  import opened Names
  import opened Wire

  /** The compression table: the case-folded name that starts at an offset of the output. */
  type Table = map<seq<Label>, nat>

  // The largest offset a pointer's 14 bits can hold.
  const MAX_OFFSET := 0x3FFF

  predicate TableFits(table: Table) {
    forall k | k in table :: table[k] <= MAX_OFFSET && |k| > 1
  }

  // ---------- What is written ----------

  function PointerBytes(offset: nat): seq<byte>
    requires offset <= MAX_OFFSET
  {
    [192 + offset / 256, offset % 256]
  }

  function LabelBytes(lbl: Label, canonicalize: bool): (r: seq<byte>)
    requires |lbl| <= 63
    ensures |r| == 1 + |lbl|
  {
    [|lbl|] + if canonicalize then LowerLabel(lbl) else lbl
  }

  /** An output and the compression table that goes with it; None when names are not compressed. */
  datatype Written = Written(out: seq<byte>, table: Option<Table>) {
    predicate Fits() {
      table.Some? ==> TableFits(table.value)
    }

    predicate Knows(labels: seq<Label>) {
      table.Some? && Canonical(labels) in table.value
    }

    /** Only names longer than the root, at offsets a pointer can hold, are entered. */
    function Enter(labels: seq<Label>): Written {
      if table.Some? && |labels| > 1 && |out| <= MAX_OFFSET
      then Written(out, Some(table.value[Canonical(labels) := |out|]))
      else this
    }

    function Append(bytes: seq<byte>): Written {
      Written(out + bytes, table)
    }
  }

  /** Writing labels one by one, up to the first suffix the table knows, which becomes a pointer. */
  function WriteFrom(labels: seq<Label>, wr: Written, canonicalize: bool): (r: Written)
    requires LabelsFit(labels) && wr.Fits()
    ensures r.Fits()
    decreases |labels|
  {
    if labels == [] then wr
    else if wr.Knows(labels) then wr.Append(PointerBytes(wr.table.value[Canonical(labels)]))
    else WriteFrom(labels[1..], wr.Enter(labels).Append(LabelBytes(labels[0], canonicalize)), canonicalize)
  }

  /** The labels that go on the wire: the name itself, or the name completed by its origin. */
  function WireLabels(labels: seq<Label>, origin: Option<seq<Label>>): (r: Result<seq<Label>, DnsError>)
    requires ValidName(labels) && (origin.Some? ==> ValidName(origin.value))
    ensures r.Success? ==> ValidName(r.value) && IsAbsolute(r.value)
  {
    if IsAbsolute(labels) then Success(labels)
    else if origin.None? || !IsAbsolute(origin.value) then Failure(NeedAbsoluteNameOrOrigin)
    else if WireLength(labels + origin.value) > 255 then Failure(NameTooLong)
    else
      CompletedShape(labels, origin.value);
      Success(labels + origin.value)
  }

  lemma SuffixValid(labels: seq<Label>, i: nat)
    requires i <= |labels| && LabelsFit(labels) && EmptyOnlyAtEnd(labels)
    ensures LabelsFit(labels[i..]) && EmptyOnlyAtEnd(labels[i..])
    ensures WireLength(labels[i..]) <= WireLength(labels)
  {
    WireLengthAppend(labels[..i], labels[i..]);
    assert labels[..i] + labels[i..] == labels;
  }

  // ---------- The encoder ----------

  /** The `io.BytesIO` that names and records are appended to. */
  class WireFile {
    var data: seq<byte>

    constructor ()
      ensures data == []
    {
      data := [];
    }

    method Write(bytes: seq<byte>)
      modifies this
      ensures data == old(data) + bytes
    {
      data := data + bytes;
    }

    method WriteLabel(lbl: Label, canonicalize: bool)
      requires |lbl| <= 63
      modifies this
      ensures data == old(data) + LabelBytes(lbl, canonicalize)
    {
      Write([|lbl|]);
      if |lbl| > 0 {
        Write(if canonicalize then LowerLabel(lbl) else lbl);
      }
    }
  }

  /** The `dict` that encoders of one message share. */
  class CompressTable {
    var offsets: Table

    constructor ()
      ensures offsets == map[]
    {
      offsets := map[];
    }

    method Enter(labels: seq<Label>, pos: nat)
      requires TableFits(offsets)
      modifies this
      ensures TableFits(offsets)
      ensures offsets == if |labels| > 1 && pos <= MAX_OFFSET then old(offsets)[Canonical(labels) := pos]
                         else old(offsets)
    {
      if |labels| > 1 {
        if pos <= MAX_OFFSET {
          offsets := offsets[Canonical(labels) := pos];
        }
      }
    }
  }

  ghost function View(file: WireFile, compress: CompressTable?): Written
    reads file, compress
  {
    Written(file.data, if compress == null then None else Some(compress.offsets))
  }

  /** The loop of `to_wire` over the completed name.  A name that is too long is found out by the
      first `Name` built, before anything is written. */
  method WriteLabels(full: seq<Label>, file: WireFile, compress: CompressTable?, canonicalize: bool)
    returns (r: Option<DnsError>)
    requires full != [] && LabelsFit(full) && EmptyOnlyAtEnd(full)
    requires View(file, compress).Fits()
    modifies file, compress
    ensures r == if WireLength(full) > 255 then Some(NameTooLong) else None
    ensures View(file, compress) == if r.Some? then old(View(file, compress))
                                    else WriteFrom(full, old(View(file, compress)), canonicalize)
  {
    assert full[0..] == full;
    for i := 0 to |full|
      invariant i > 0 ==> WireLength(full) <= 255
      invariant i == 0 ==> View(file, compress) == old(View(file, compress))
      invariant LabelsFit(full[i..]) && View(file, compress).Fits()
      invariant WriteFrom(full[i..], View(file, compress), canonicalize)
                == WriteFrom(full, old(View(file, compress)), canonicalize)
    {
      SuffixValid(full, i);
      var error := ValidateLabels(full[i..]);
      if error.Some? {
        return error;
      }
      ghost var wr := View(file, compress);
      var n := Canonical(full[i..]);
      if compress != null && n in compress.offsets {
        file.Write(PointerBytes(compress.offsets[n]));
        return None;
      }
      if compress != null {
        compress.Enter(full[i..], |file.data|);
      }
      file.WriteLabel(full[i], canonicalize);
      assert full[i..][1..] == full[i + 1..];
      assert View(file, compress) == wr.Enter(full[i..]).Append(LabelBytes(full[i], canonicalize));
    }
    return None;
  }

  /** The outcome of writing a name: an error leaves the output and the table as they were. */
  function NameResult(wr: Written, labels: seq<Label>, origin: Option<seq<Label>>, canonicalize: bool)
    : (r: (Written, Option<DnsError>))
    requires ValidName(labels) && (origin.Some? ==> ValidName(origin.value)) && wr.Fits()
    ensures r.0.Fits()
  {
    match WireLabels(labels, origin)
    case Failure(error) => (wr, Some(error))
    case Success(full) => (WriteFrom(full, wr, canonicalize), None)
  }

  /** Writes a name.  An error is raised before anything is written. */
  method ToWire(labels: seq<Label>, file: WireFile, compress: CompressTable?,
      origin: Option<seq<Label>>, canonicalize: bool) returns (r: Option<DnsError>)
    requires ValidName(labels) && (origin.Some? ==> ValidName(origin.value))
    requires View(file, compress).Fits()
    modifies file, compress
    ensures (View(file, compress), r) == NameResult(old(View(file, compress)), labels, origin, canonicalize)
  {
    var full := labels;
    if !IsAbsolute(labels) {
      if origin.None? || !IsAbsolute(origin.value) {
        return Some(NeedAbsoluteNameOrOrigin);
      }
      full := labels + origin.value;
      CompletedShape(labels, origin.value);
    }
    r := WriteLabels(full, file, compress, canonicalize);
  }

  // ---------- What was written decodes to the name ----------

  /** Every entry is an offset a pointer can hold, not below base, from which the output so far
      spells (through pointers, none of them below base) a name equal to the entry's key. */
  ghost predicate Sound(out: seq<byte>, table: Table, base: nat) {
    && TableFits(table)
    && forall k | k in table :: table[k] < |out| && SpellsKey(out, table[k], k, base)
  }

  ghost predicate SpellsKey(out: seq<byte>, pos: nat, key: seq<Label>, base: nat) {
    var k := WalkFrom(out, |out|, pos, pos);
    k.name.Success? && Canonical(k.name.value) == key && k.lo >= base
  }

  /** Appending to the output disturbs nothing: names already there still decode the same. */
  lemma SoundExtend(out: seq<byte>, more: seq<byte>, table: Table, base: nat)
    requires Sound(out, table, base)
    ensures Sound(out + more, table, base)
  {
    forall k | k in table
      ensures SpellsKey(out + more, table[k], k, base)
    {
      WalkShape(out, |out|, table[k], table[k]);
      WalkFrame(out, |out|, out + more, |out + more|, table[k], table[k]);
    }
  }

  /** Entries made for longer names never matter to what remains to be written. */
  ghost predicate AgreeUpTo(table: Option<Table>, base: Table, n: nat) {
    table.Some? ==>
      forall k: seq<Label> | |k| <= n ::
        (k in table.value <==> k in base) && (k in base ==> table.value[k] == base[k])
  }

  ghost predicate Writable(labels: seq<Label>, wr: Written, known: Table, base: nat) {
    && LabelsFit(labels) && EmptyOnlyAtEnd(labels) && IsAbsolute(labels)
    && wr.Fits() && AgreeUpTo(wr.table, known, |labels|)
    && Sound(wr.out, known, base) && base <= |wr.out|
  }

  /** One label was written: what the rest of the name may rely on. */
  lemma WritableStep(labels: seq<Label>, wr: Written, known: Table, base: nat, canonicalize: bool)
    requires Writable(labels, wr, known, base) && |labels| > 1
    ensures var next := wr.Enter(labels).Append(LabelBytes(labels[0], canonicalize));
            Writable(labels[1..], next, known, base)
  {
    SuffixValid(labels, 1);
    SoundExtend(wr.out, LabelBytes(labels[0], canonicalize), known, base);
  }

  /** b is a with octets appended: entries of a are kept, new ones point into the new octets. */
  ghost predicate Extends(a: Written, b: Written) {
    && a.out <= b.out
    && (a.table.Some? <==> b.table.Some?)
    && (a.table.Some? ==>
          && (forall k | k in a.table.value :: k in b.table.value && b.table.value[k] == a.table.value[k])
          && (forall k | k in b.table.value && k !in a.table.value :: |a.out| <= b.table.value[k] < |b.out|))
  }

  lemma {:induction false} WriteFromExtends(labels: seq<Label>, wr: Written, canonicalize: bool)
    requires LabelsFit(labels) && wr.Fits()
    ensures var r := WriteFrom(labels, wr, canonicalize);
            Extends(wr, r) && |r.out| <= |wr.out| + WireLength(labels)
    decreases |labels|
  {
    if labels != [] && !wr.Knows(labels) {
      WriteFromExtends(labels[1..], wr.Enter(labels).Append(LabelBytes(labels[0], canonicalize)), canonicalize);
    } else if labels != [] {
      assert |labels| > 1;
      assert WireLength(labels) == |labels[0]| + 1 + WireLength(labels[1..]);
      assert WireLength(labels[1..]) >= 1;
    }
  }

  function Cased(labels: seq<Label>, canonicalize: bool): seq<Label> {
    if canonicalize then Canonical(labels) else labels
  }

  /** Decoding at pos gives the labels up to case (and exactly as written when nothing was
      compressed), follows no pointer below base, and reads up to the end of the output. */
  ghost predicate Decodes(w: seq<byte>, pos: nat, biggest: nat, labels: seq<Label>, base: nat,
      compressed: bool, canonicalize: bool)
  {
    var k := WalkFrom(w, |w|, pos, biggest);
    && k.name.Success? && Canonical(k.name.value) == Canonical(labels)
    && k.lo >= base && k.hi == |w|
    && (!compressed ==> k.name.value == Cased(labels, canonicalize))
  }

  /** Decoding where a name was written gives the name back.  Its pointers only reach entries that
      were known before, below `biggest`. */
  lemma {:induction false} WrittenNameDecodes(
      labels: seq<Label>, wr: Written, known: Table, base: nat, canonicalize: bool, biggest: nat)
    requires Writable(labels, wr, known, base)
    requires forall k | k in known :: known[k] < biggest
    ensures Decodes(WriteFrom(labels, wr, canonicalize).out, |wr.out|, biggest, labels, base,
                    wr.table.Some?, canonicalize)
    decreases |labels|
  {
    if wr.Knows(labels) {
      PointerDecodes(labels, wr, known, base, canonicalize, biggest);
    } else if |labels| == 1 {
      RootDecodes(labels, wr, base, canonicalize, biggest);
    } else {
      var next := wr.Enter(labels).Append(LabelBytes(labels[0], canonicalize));
      WritableStep(labels, wr, known, base, canonicalize);
      WrittenNameDecodes(labels[1..], next, known, base, canonicalize, biggest);
      WriteFromExtends(labels[1..], next, canonicalize);
      LabelDecodes(labels, wr.out, next.out, WriteFrom(labels[1..], next, canonicalize).out, base,
                   wr.table.Some?, canonicalize, biggest);
    }
  }

  lemma RootDecodes(labels: seq<Label>, wr: Written, base: nat, canonicalize: bool, biggest: nat)
    requires labels == [[]] && wr.Fits() && !wr.Knows(labels) && base <= |wr.out|
    ensures Decodes(WriteFrom(labels, wr, canonicalize).out, |wr.out|, biggest, labels, base,
                    wr.table.Some?, canonicalize)
  {
    assert labels[1..] == [];
    assert LabelBytes(labels[0], canonicalize) == [0];
    assert WriteFrom(labels, wr, canonicalize).out == wr.out + [0];
    assert Canonical(labels) == labels;
  }

  lemma LabelDecodes(labels: seq<Label>, out: seq<byte>, next: seq<byte>, w: seq<byte>, base: nat,
      compressed: bool, canonicalize: bool, biggest: nat)
    requires |labels| > 1 && 1 <= |labels[0]| <= 63 && base <= |out|
    requires next == out + LabelBytes(labels[0], canonicalize) && next <= w
    requires Decodes(w, |next|, biggest, labels[1..], base, compressed, canonicalize)
    ensures Decodes(w, |out|, biggest, labels, base, compressed, canonicalize)
  {
    var bytes := LabelBytes(labels[0], canonicalize);
    var lbl := if canonicalize then LowerLabel(labels[0]) else labels[0];
    assert w[..|next|] == out + bytes;
    assert w[|out|] == bytes[0] == |labels[0]|;
    assert w[|out| + 1..|out| + 1 + |lbl|] == bytes[1..] == lbl;
    var rest := WalkFrom(w, |w|, |out| + 1 + |labels[0]|, biggest);
    assert WalkFrom(w, |w|, |out|, biggest) == rest.After([lbl], |out|, |out| + 1 + |labels[0]|);
    LowerLabelIdempotent(labels[0]);
    CanonicalSplit([lbl], rest.name.value);
    CanonicalSplit([labels[0]], labels[1..]);
    assert [labels[0]] + labels[1..] == labels;
    assert Canonical([lbl]) == Canonical([labels[0]]) == [LowerLabel(labels[0])];
    assert [lbl] + Cased(labels[1..], canonicalize) == Cased(labels, canonicalize);
  }

  lemma PointerDecodes(labels: seq<Label>, wr: Written, known: Table, base: nat, canonicalize: bool,
      biggest: nat)
    requires Writable(labels, wr, known, base) && wr.Knows(labels)
    requires forall k | k in known :: known[k] < biggest
    ensures Decodes(WriteFrom(labels, wr, canonicalize).out, |wr.out|, biggest, labels, base,
                    true, canonicalize)
  {
    var n := Canonical(labels);
    var bytes := PointerBytes(known[n]);
    var w := wr.out + bytes;
    SoundExtend(wr.out, bytes, known, base);
    assert w[|wr.out|] == bytes[0] && w[|wr.out| + 1] == bytes[1];
    assert PointerTarget(w[|wr.out|], w[|wr.out| + 1]) == known[n];
    var k := WalkFrom(wr.out, |wr.out|, known[n], known[n]);
    WalkShape(wr.out, |wr.out|, known[n], known[n]);
    WalkFrame(wr.out, |wr.out|, w, |w|, known[n], known[n]);
    JoinedTwice(k, [], 0, 0, []);
  }

  ghost predicate NewEntriesSpell(wr: Written, r: Written, base: nat) {
    wr.table.Some? && r.table.Some? ==>
      forall k | k in r.table.value && k !in wr.table.value :: SpellsKey(r.out, r.table.value[k], k, base)
  }

  lemma {:induction false} WrittenEntriesSpell(
      labels: seq<Label>, wr: Written, known: Table, base: nat, canonicalize: bool)
    requires Writable(labels, wr, known, base)
    ensures NewEntriesSpell(wr, WriteFrom(labels, wr, canonicalize), base)
    decreases |labels|
  {
    if !wr.Knows(labels) && |labels| > 1 {
      var next := wr.Enter(labels).Append(LabelBytes(labels[0], canonicalize));
      var r := WriteFrom(labels[1..], next, canonicalize);
      WritableStep(labels, wr, known, base, canonicalize);
      WrittenEntriesSpell(labels[1..], next, known, base, canonicalize);
      WriteFromExtends(labels[1..], next, canonicalize);
      WrittenNameDecodes(labels, wr, known, base, canonicalize, |wr.out|);
      assert r == WriteFrom(labels, wr, canonicalize);
      assert SpellsKey(r.out, |wr.out|, Canonical(labels), base);
    } else if !wr.Knows(labels) {
      assert labels[1..] == [];
    }
  }

  /** Compression is sound.  Whatever sound table a name is written with, afterwards the table is
      sound again; decoding where the name starts gives the name up to case, ends exactly where the
      writing ended, and the octets are never more than the uncompressed form takes. */
  lemma CompressionSound(labels: seq<Label>, wr: Written, base: nat, canonicalize: bool)
    requires ValidName(labels) && IsAbsolute(labels) && base <= |wr.out| && wr.Fits()
    requires wr.table.Some? ==> Sound(wr.out, wr.table.value, base)
    ensures var r := WriteFrom(labels, wr, canonicalize);
            && (r.table.Some? ==> Sound(r.out, r.table.value, base))
            && Decodes(r.out, |wr.out|, |wr.out|, labels, base, wr.table.Some?, canonicalize)
            && Extends(wr, r) && |r.out| <= |wr.out| + WireLength(labels)
  {
    var known := if wr.table.Some? then wr.table.value else map[];
    var r := WriteFrom(labels, wr, canonicalize);
    WrittenNameDecodes(labels, wr, known, base, canonicalize, |wr.out|);
    WrittenEntriesSpell(labels, wr, known, base, canonicalize);
    WriteFromExtends(labels, wr, canonicalize);
    assert r.out == wr.out + r.out[|wr.out|..];
    SoundExtend(wr.out, r.out[|wr.out|..], known, base);
  }
}
