/** RRsets with opaque data, and how `dns/rdataset.py` writes them. */
module Records {
  import opened Wrappers
  import opened Names
  import opened Wire
  import opened NameWire

  type uint16 = x: int | 0 <= x < 0x1_0000

  type uint32 = x: int | 0 <= x < 0x1_0000_0000

  type Rdata = seq<byte>

  /** The items of a `dns.set.Set` are the keys of a dictionary: no item occurs twice. */
  datatype RRset = RRset(name: seq<Label>, rdclass: uint16, rdtype: uint16, ttl: uint32, items: seq<Rdata>)

  function PackUint16(n: uint16): (r: seq<byte>)
    ensures |r| == 2
  {
    [n / 256, n % 256]
  }

  function PackUint32(n: uint32): (r: seq<byte>)
    ensures |r| == 4
  {
    PackUint16(n / 65536) + PackUint16(n % 65536)
  }

  lemma Unpack16(n: uint16)
    ensures var r := PackUint16(n); Uint16(r[0], r[1]) == n
  {
  }

  lemma Unpack32(n: uint32)
    ensures var r := PackUint32(n); Uint32(r[0], r[1], r[2], r[3]) == n
  {
    Unpack16(n / 65536);
    Unpack16(n % 65536);
  }

  // ---------- What is written ----------

  function FixedFields(rdtype: uint16, rdclass: uint16, ttl: uint32): (r: seq<byte>)
    ensures |r| == 8
  {
    PackUint16(rdtype) + PackUint16(rdclass) + PackUint32(ttl)
  }

  /** The ten octets between a record's name and its data. */
  function RecordHeader(rdtype: uint16, rdclass: uint16, ttl: uint32, rdlen: uint16): (r: seq<byte>)
    ensures |r| == 10
  {
    FixedFields(rdtype, rdclass, ttl) + PackUint16(rdlen)
  }

  function PutRecord(wr: Written, full: seq<Label>, rrset: RRset, rdlen: uint16, data: Rdata): (r: Written)
    requires LabelsFit(full) && wr.Fits()
    ensures r.Fits()
  {
    WriteFrom(full, wr, false)
    .Append(RecordHeader(rrset.rdtype, rrset.rdclass, rrset.ttl, rdlen)).Append(data)
  }

  predicate Named(rrset: RRset, origin: Option<seq<Label>>) {
    ValidName(rrset.name) && (origin.Some? ==> ValidName(origin.value))
  }

  /** The outcome of writing one record.  Data of 65536 octets or more is an error, with the octets
      already out and the length field still zero. */
  function RecordResult(wr: Written, rrset: RRset, origin: Option<seq<Label>>, data: Rdata)
    : (r: (Written, Option<DnsError>))
    requires Named(rrset, origin) && wr.Fits()
    ensures r.0.Fits()
  {
    match WireLabels(rrset.name, origin)
    case Failure(error) => (wr, Some(error))
    case Success(full) =>
      if |data| >= 0x1_0000 then (PutRecord(wr, full, rrset, 0, data), Some(RdataTooLong))
      else (PutRecord(wr, full, rrset, |data|, data), None)
  }

  /** One record per item, in the given order, up to the first error. */
  function RecordsResult(wr: Written, rrset: RRset, origin: Option<seq<Label>>, order: seq<Rdata>)
    : (r: (Written, Option<DnsError>))
    requires Named(rrset, origin) && wr.Fits()
    ensures r.0.Fits()
    decreases |order|
  {
    if order == [] then (wr, None)
    else
      var first := RecordResult(wr, rrset, origin, order[0]);
      if first.1.Some? then first else RecordsResult(first.0, rrset, origin, order[1..])
  }

  /** An RRset without data is written as one record with no data and no TTL. */
  function RRsetResult(wr: Written, rrset: RRset, origin: Option<seq<Label>>, order: seq<Rdata>)
    : (r: (Written, Option<DnsError>))
    requires Named(rrset, origin) && wr.Fits()
    ensures r.0.Fits()
  {
    if rrset.items == [] then RecordResult(wr, rrset.(ttl := 0), origin, [])
    else RecordsResult(wr, rrset, origin, order)
  }

  function RecordCount(rrset: RRset): nat {
    if rrset.items == [] then 1 else |rrset.items|
  }

  // ---------- The writer ----------

  lemma PatchMiddle<T>(a: seq<T>, old_: seq<T>, new_: seq<T>, c: seq<T>)
    requires |old_| == |new_|
    ensures (a + old_ + c)[..|a|] + new_ + (a + old_ + c)[|a| + |new_|..] == a + new_ + c
  {
    assert (a + old_ + c)[..|a|] == a;
    assert (a + old_ + c)[|a| + |new_|..] == c;
  }

  lemma PatchedLength(named: seq<byte>, fixed: seq<byte>, was: seq<byte>, rdlen: seq<byte>, data: Rdata)
    requires |was| == |rdlen|
    ensures var out := named + (fixed + was) + data;
            var pos := |named| + |fixed|;
            out[..pos] + rdlen + out[pos + |rdlen|..] == named + (fixed + rdlen) + data
  {
    SeqAssociative(named, fixed, was);
    SeqAssociative(named, fixed, rdlen);
    PatchMiddle(named + fixed, was, rdlen, data);
  }

  method Patch(file: WireFile, pos: nat, bytes: seq<byte>)
    requires pos + |bytes| <= |file.data|
    modifies file
    ensures file.data == old(file.data[..pos]) + bytes + old(file.data[pos + |bytes|..])
  {
    file.data := file.data[..pos] + bytes + file.data[pos + |bytes|..];
  }

  /** `random.shuffle` with every draw left open: any permutation can come out, and nothing else. */
  method Shuffle(items: seq<Rdata>) returns (order: seq<Rdata>)
    ensures multiset(order) == multiset(items)
  {
    order := items;
    var i := |order|;
    while i > 1
      invariant 0 <= i <= |order| == |items|
      invariant multiset(order) == multiset(items)
    {
      i := i - 1;
      var j: nat :| j <= i;
      order := order[i := order[j]][j := order[i]];
    }
  }

  /** Writes what follows a record's name, with the length of the data patched in once the data is
      out.  Returns false when the data is too long; its length is then left zero. */
  method WriteBody(rrset: RRset, data: Rdata, file: WireFile) returns (fits: bool)
    modifies file
    ensures fits <==> |data| < 0x1_0000
    ensures file.data == old(file.data)
                         + RecordHeader(rrset.rdtype, rrset.rdclass, rrset.ttl, if fits then |data| else 0)
                         + data
  {
    ghost var fixed := FixedFields(rrset.rdtype, rrset.rdclass, rrset.ttl);
    file.Write(RecordHeader(rrset.rdtype, rrset.rdclass, rrset.ttl, 0));
    var start := |file.data|;
    file.Write(data);
    var end := |file.data|;
    assert end - start == |data|;
    if end - start >= 0x1_0000 {
      return false;
    }
    PatchedLength(old(file.data), fixed, PackUint16(0), PackUint16(|data|), data);
    Patch(file, start - 2, PackUint16(end - start));
    return true;
  }

  method WriteRecord(rrset: RRset, data: Rdata, file: WireFile, compress: CompressTable,
      origin: Option<seq<Label>>) returns (r: Option<DnsError>)
    requires Named(rrset, origin) && TableFits(compress.offsets)
    modifies file, compress
    ensures (View(file, compress), r) == RecordResult(old(View(file, compress)), rrset, origin, data)
  {
    var error := ToWire(rrset.name, file, compress, origin, false);
    if error.Some? {
      return error;
    }
    var fits := WriteBody(rrset, data, file);
    return if fits then None else Some(RdataTooLong);
  }

  method WriteRRset(rrset: RRset, file: WireFile, compress: CompressTable, origin: Option<seq<Label>>)
    returns (r: Result<nat, DnsError>, ghost order: seq<Rdata>)
    requires Named(rrset, origin) && TableFits(compress.offsets)
    modifies file, compress
    ensures multiset(order) == multiset(rrset.items)
    ensures var (wr, error) := RRsetResult(old(View(file, compress)), rrset, origin, order);
            && View(file, compress) == wr
            && r == if error.Some? then Failure(error.value) else Success(RecordCount(rrset))
  {
    order := [];
    if |rrset.items| == 0 {
      var error := WriteRecord(rrset.(ttl := 0), [], file, compress, origin);
      if error.Some? {
        return Failure(error.value), order;
      }
      return Success(1), order;
    }
    var l := Shuffle(rrset.items);
    order := l;
    assert l[0..] == l;
    for i := 0 to |l|
      invariant TableFits(compress.offsets)
      invariant RecordsResult(View(file, compress), rrset, origin, l[i..])
                == RecordsResult(old(View(file, compress)), rrset, origin, l)
    {
      assert l[i..][1..] == l[i + 1..];
      ghost var wr := View(file, compress);
      var error := WriteRecord(rrset, l[i], file, compress, origin);
      assert wr.Fits() && (View(file, compress), error) == RecordResult(wr, rrset, origin, l[i]);
      if error.Some? {
        return Failure(error.value), order;
      }
    }
    return Success(|rrset.items|), order;
  }
}
