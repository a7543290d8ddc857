/** How far names are compressed: `Name.to_wire` of `dns/name.py` with a table. */
module Compression {
  import opened Wrappers
  import opened Names
  import opened NameWire

  // The largest offset that a pointer of fourteen bits reaches.
  const REACH := 16383

  /** Some earlier name ended with these labels, in any case. */
  predicate Earlier(table: Table, labels: seq<Label>) {
    Canonical(labels) in table
  }

  /** `n` is the number of labels written out: those before the longest suffix that the table has. */
  predicate WrittenOut(table: Table, labels: seq<Label>, n: nat) {
    && n <= |labels|
    && (forall j | 0 <= j < n :: !Earlier(table, labels[j..]))
    && (n < |labels| ==> Earlier(table, labels[n..]))
  }

  /** The suffix from the j-th label on can be pointed to where it was written. */
  predicate Pointable(labels: seq<Label>, start: nat, j: nat)
    requires j <= |labels|
  {
    j + 1 < |labels| && start + WireLength(labels[..j]) <= REACH
  }

  /** The table has the suffix from the j-th label on, where it was written if a pointer reaches that far. */
  predicate Entered(table: Table, labels: seq<Label>, start: nat, j: nat)
    requires j <= |labels|
  {
    Pointable(labels, start, j) ==>
      Earlier(table, labels[j..]) && table[Canonical(labels[j..])] == start + WireLength(labels[..j])
  }

  predicate EnteredUpTo(table: Table, labels: seq<Label>, start: nat, n: nat)
    requires n <= |labels|
  {
    forall j | 0 <= j < n :: Entered(table, labels, start, j)
  }

  lemma OneLater(labels: seq<Label>, table: Table, start: nat, j: nat)
    requires 0 < j <= |labels| && LabelsFit(labels)
    ensures labels[1..][j - 1..] == labels[j..]
    ensures WireLength(labels[..j]) == |labels[0]| + 1 + WireLength(labels[1..][..j - 1])
    ensures Entered(table, labels[1..], start + 1 + |labels[0]|, j - 1) ==> Entered(table, labels, start, j)
  {
    assert labels[..j][1..] == labels[1..][..j - 1];
  }

  lemma FirstEntered(labels: seq<Label>, wr: Written, next: Written, r: Written, bytes: seq<byte>)
    requires wr.table.Some? && labels != []
    requires next == wr.Enter(labels).Append(bytes) && Extends(next, r)
    ensures r.table.Some? && Entered(r.table.value, labels, |wr.out|, 0)
  {
    assert labels[0..] == labels && labels[..0] == [];
  }

  /** Only shorter suffixes matter to what is still to be written. */
  lemma WrittenOutStep(labels: seq<Label>, wr: Written, next: Written, bytes: seq<byte>, n: nat)
    requires wr.table.Some? && 0 < n && WrittenOut(wr.table.value, labels, n)
    requires next == wr.Enter(labels).Append(bytes)
    ensures !wr.Knows(labels) && next.table.Some? && WrittenOut(next.table.value, labels[1..], n - 1)
  {
    assert labels[0..] == labels;
    assert !Earlier(wr.table.value, labels[0..]);
    forall j | 0 < j <= n
      ensures Earlier(next.table.value, labels[1..][j - 1..]) <==> Earlier(wr.table.value, labels[j..])
    {
      assert labels[1..][j - 1..] == labels[j..];
      assert |Canonical(labels[j..])| < |Canonical(labels)|;
    }
  }

  /** From wr, n labels have been written out and then a pointer if any are left. */
  predicate Compressed(labels: seq<Label>, wr: Written, r: Written, n: nat)
    requires n <= |labels|
  {
    && |r.out| == |wr.out| + WireLength(labels[..n]) + (if n < |labels| then 2 else 0)
    && r.table.Some? && EnteredUpTo(r.table.value, labels, |wr.out|, n)
  }

  /** All n labels are entered when the first is and the others are among those after it. */
  lemma AllEntered(labels: seq<Label>, table: Table, start: nat, n: nat)
    requires LabelsFit(labels) && 0 < n <= |labels| && Entered(table, labels, start, 0)
    requires EnteredUpTo(table, labels[1..], start + 1 + |labels[0]|, n - 1)
    ensures EnteredUpTo(table, labels, start, n)
  {
    hide Entered;
    forall j | 0 <= j < n ensures Entered(table, labels, start, j) {
      if j > 0 {
        OneLater(labels, table, start, j);
      }
    }
  }

  lemma CompressedStep(labels: seq<Label>, wr: Written, next: Written, r: Written, bytes: seq<byte>, n: nat)
    requires LabelsFit(labels) && wr.table.Some? && 0 < n <= |labels| && |bytes| == 1 + |labels[0]|
    requires next == wr.Enter(labels).Append(bytes) && Extends(next, r) && Compressed(labels[1..], next, r, n - 1)
    ensures Compressed(labels, wr, r, n)
  {
    hide WireLength, Canonical, EnteredUpTo, Entered;
    FirstEntered(labels, wr, next, r, bytes);
    OneLater(labels, r.table.value, |wr.out|, n);
    assert |next.out| == |wr.out| + 1 + |labels[0]|;
    AllEntered(labels, r.table.value, |wr.out|, n);
  }

  /** Labels are written out up to the longest suffix that is in the table already, two octets stand for
      that suffix, and afterwards each suffix on the way that a pointer can reach is in the table too, where
      it starts. */
  lemma {:induction false} CompressedExactly(labels: seq<Label>, wr: Written, canonicalize: bool, n: nat)
    requires LabelsFit(labels) && wr.Fits() && wr.table.Some? && WrittenOut(wr.table.value, labels, n)
    ensures Compressed(labels, wr, WriteFrom(labels, wr, canonicalize), n)
    decreases |labels|
  {
    if n == 0 {
      assert labels[0..] == labels && labels[..0] == [];
    } else {
      hide Canonical, LabelBytes, Compressed, WrittenOut;
      var bytes := LabelBytes(labels[0], canonicalize);
      var next := wr.Enter(labels).Append(bytes);
      WrittenOutStep(labels, wr, next, bytes, n);
      CompressedExactly(labels[1..], next, canonicalize, n - 1);
      WriteFromExtends(labels[1..], next, canonicalize);
      CompressedStep(labels, wr, next, WriteFrom(labels, wr, canonicalize), bytes, n);
    }
  }

  /** There always is such a number of labels, and only one. */
  lemma {:induction false} WrittenOutOnce(table: Table, labels: seq<Label>) returns (n: nat)
    ensures WrittenOut(table, labels, n) && forall m :: WrittenOut(table, labels, m) ==> m == n
  {
    n := 0;
    while n < |labels| && !Earlier(table, labels[n..])
      invariant n <= |labels| && forall j | 0 <= j < n :: !Earlier(table, labels[j..])
    {
      n := n + 1;
    }
  }

  /** A name that was written where a pointer can reach it takes two octets the next time. */
  lemma WrittenAgain(labels: seq<Label>, again: seq<Label>, wr: Written, canonicalize: bool, more: seq<byte>)
    requires LabelsFit(labels) && wr.Fits() && wr.table.Some?
    requires |labels| > 1 && |wr.out| <= REACH && Canonical(again) == Canonical(labels)
    ensures LabelsFit(again)
    ensures var once := WriteFrom(labels, wr, canonicalize).Append(more);
            |WriteFrom(again, once, canonicalize).out| == |once.out| + 2
  {
    forall i | 0 <= i < |again| ensures |again[i]| <= 63 {
      assert |Canonical(again)[i]| == |Canonical(labels)[i]|;
    }
    var n := WrittenOutOnce(wr.table.value, labels);
    CompressedExactly(labels, wr, canonicalize, n);
    var once := WriteFrom(labels, wr, canonicalize).Append(more);
    assert labels[0..] == labels && again[0..] == again && labels[..0] == [];
    WriteFromExtends(labels, wr, canonicalize);
    assert n > 0 ==> Entered(once.table.value, labels, |wr.out|, 0);
    assert Pointable(labels, |wr.out|, 0);
    assert Earlier(once.table.value, again);
    CompressedExactly(again, once, canonicalize, 0);
  }

  /** Without a table a name takes all its octets. */
  lemma {:induction false} Uncompressed(labels: seq<Label>, wr: Written, canonicalize: bool)
    requires LabelsFit(labels) && wr.table.None?
    ensures var r := WriteFrom(labels, wr, canonicalize);
            |r.out| == |wr.out| + WireLength(labels) && r.table.None?
    decreases |labels|
  {
    if labels != [] {
      Uncompressed(labels[1..], wr.Enter(labels).Append(LabelBytes(labels[0], canonicalize)), canonicalize);
    }
  }
}
