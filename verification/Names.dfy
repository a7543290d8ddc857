/** Names of `dns/name.py`: label validation, case folding, comparison and hashing. */
module Names {
  import opened Wrappers

  type byte = x: int | 0 <= x < 256

  type Label = seq<byte>

  // ---------- Case folding ----------

  function LowerByte(b: byte): byte {
    if 65 <= b <= 90 then b + 32 else b
  }

  function LowerLabel(lbl: Label): (r: Label)
    ensures |r| == |lbl|
  {
    seq(|lbl|, i requires 0 <= i < |lbl| => LowerByte(lbl[i]))
  }

  /** The case-folded labels.  Two names are equal, and are the same dictionary key, exactly
      when their canonical forms are (`OrderZeroIsCanonicalEquality`, `EqualNamesHashEqually`). */
  function Canonical(labels: seq<Label>): (r: seq<Label>)
    ensures |r| == |labels|
  {
    seq(|labels|, i requires 0 <= i < |labels| => LowerLabel(labels[i]))
  }

  lemma LowerLabelIdempotent(lbl: Label)
    ensures LowerLabel(LowerLabel(lbl)) == LowerLabel(lbl)
  {
    assert forall i | 0 <= i < |lbl| :: LowerByte(LowerByte(lbl[i])) == LowerByte(lbl[i]);
  }

  lemma CanonicalSplit(a: seq<Label>, b: seq<Label>)
    ensures Canonical(a + b) == Canonical(a) + Canonical(b)
  {
  }

  // ---------- Validation ----------

  /** Octets the labels take on the wire: each label with its length octet. */
  function WireLength(labels: seq<Label>): nat {
    if labels == [] then 0 else |labels[0]| + 1 + WireLength(labels[1..])
  }

  predicate LabelsFit(labels: seq<Label>) {
    forall i | 0 <= i < |labels| :: |labels[i]| <= 63
  }

  predicate EmptyOnlyAtEnd(labels: seq<Label>) {
    forall i | 0 <= i < |labels| :: labels[i] == [] ==> i == |labels| - 1
  }

  predicate ValidName(labels: seq<Label>) {
    LabelsFit(labels) && WireLength(labels) <= 255 && EmptyOnlyAtEnd(labels)
  }

  predicate IsAbsolute(labels: seq<Label>) {
    |labels| > 0 && labels[|labels| - 1] == []
  }

  lemma {:induction false} WireLengthAppend(labels: seq<Label>, more: seq<Label>)
    ensures WireLength(labels + more) == WireLength(labels) + WireLength(more)
  {
    if labels == [] {
      assert labels + more == more;
    } else {
      assert (labels + more)[1..] == labels[1..] + more;
      WireLengthAppend(labels[1..], more);
    }
  }

  /** Which error the constructor raises: a long label wins over a long name, and a long name
      over a misplaced empty label. */
  function NameError(labels: seq<Label>): Option<DnsError> {
    if !LabelsFit(labels) then Some(LabelTooLong)
    else if WireLength(labels) > 255 then Some(NameTooLong)
    else if !EmptyOnlyAtEnd(labels) then Some(EmptyLabel)
    else None
  }

  method ValidateLabels(labels: seq<Label>) returns (r: Option<DnsError>)
    ensures r == NameError(labels)
    ensures r == None <==> ValidName(labels)
  {
    var total := 0;
    var i := -1;
    var j := 0;
    while j < |labels|
      invariant 0 <= j <= |labels|
      invariant LabelsFit(labels[..j])
      invariant total == WireLength(labels[..j])
      invariant -1 <= i < j
      invariant i >= 0 ==> labels[i] == []
      invariant forall m | 0 <= m < (if i < 0 then j else i) :: labels[m] != []
    {
      var lbl := labels[j];
      assert labels[..j + 1] == labels[..j] + [lbl];
      WireLengthAppend(labels[..j], [lbl]);
      total := total + |lbl| + 1;
      if |lbl| > 63 {
        return Some(LabelTooLong);
      }
      if i < 0 && lbl == [] {
        i := j;
      }
      j := j + 1;
    }
    assert labels[..j] == labels;
    if total > 255 {
      return Some(NameTooLong);
    }
    if i >= 0 && i != |labels| - 1 {
      return Some(EmptyLabel);
    }
    return None;
  }

  /** A relative name completed by an origin can only be too long. */
  lemma CompletedShape(labels: seq<Label>, origin: seq<Label>)
    requires ValidName(labels) && ValidName(origin) && !IsAbsolute(labels)
    ensures LabelsFit(labels + origin) && EmptyOnlyAtEnd(labels + origin)
    ensures IsAbsolute(origin) ==> IsAbsolute(labels + origin)
  {
    var full := labels + origin;
    forall i | 0 <= i < |full|
      ensures |full[i]| <= 63 && (full[i] == [] ==> i == |full| - 1)
    {
      assert full[i] == if i < |labels| then labels[i] else origin[i - |labels|];
    }
  }

  // ---------- Comparison ----------

  /** Python's order on `bytes`: the first difference decides, a proper prefix is smaller. */
  function CompareLabels(a: Label, b: Label): int {
    if a == [] || b == [] then (if a == b then 0 else if a == [] then -1 else 1)
    else if a[0] < b[0] then -1
    else if a[0] > b[0] then 1
    else CompareLabels(a[1..], b[1..])
  }

  datatype NameRelation = None_ | SuperDomain | SubDomain | Equal | CommonAncestor

  datatype Comparison = Comparison(relation: NameRelation, order: int, nlabels: nat)

  /** Compares the first i labels of a with the first j of b; the rightmost labels decide first. */
  function CompareRight(a: seq<Label>, i: nat, b: seq<Label>, j: nat): int
    requires i <= |a| && j <= |b|
  {
    if i == 0 || j == 0 then i - j
    else
      var c := CompareLabels(a[i - 1], b[j - 1]);
      if c != 0 then c else CompareRight(a, i - 1, b, j - 1)
  }

  /** How many labels a[..i] and b[..j] have in common at the right. */
  function CommonSuffix(a: seq<Label>, i: nat, b: seq<Label>, j: nat): (n: nat)
    requires i <= |a| && j <= |b|
    ensures n <= i && n <= j
  {
    if i == 0 || j == 0 || a[i - 1] != b[j - 1] then 0
    else 1 + CommonSuffix(a, i - 1, b, j - 1)
  }

  function Order(a: seq<Label>, b: seq<Label>): int {
    if IsAbsolute(a) && !IsAbsolute(b) then 1
    else if !IsAbsolute(a) && IsAbsolute(b) then -1
    else CompareRight(Canonical(a), |a|, Canonical(b), |b|)
  }

  predicate ProperSuffix(a: seq<Label>, b: seq<Label>) {
    |a| < |b| && b[|b| - |a|..] == a
  }

  /** The relation of two names of one relativity, given how many labels they share at the right
      (`RelationMeaning` says what it amounts to). */
  function RelationByCount(la: nat, lb: nat, k: nat): NameRelation {
    if k == la == lb then Equal
    else if k == la then SuperDomain
    else if k == lb then SubDomain
    else if k > 0 then CommonAncestor
    else None_
  }

  function Compare(a: seq<Label>, b: seq<Label>): Comparison {
    if IsAbsolute(a) != IsAbsolute(b) then Comparison(None_, Order(a, b), 0)
    else
      var k := CommonSuffix(Canonical(a), |a|, Canonical(b), |b|);
      Comparison(RelationByCount(|a|, |b|, k), Order(a, b), k)
  }

  lemma {:induction false} CompareLabelsLaws(a: Label, b: Label)
    ensures CompareLabels(a, b) == -CompareLabels(b, a)
    ensures CompareLabels(a, b) == 0 <==> a == b
    ensures -1 <= CompareLabels(a, b) <= 1
  {
    if a != [] && b != [] {
      CompareLabelsLaws(a[1..], b[1..]);
      if a[0] == b[0] {
        assert a == [a[0]] + a[1..] && b == [b[0]] + b[1..];
      }
    }
  }

  /** Labels are compared octet by octet: the first that differ decide, and a label that runs out is
      smaller. */
  lemma {:induction false} CompareLabelsMeaning(a: Label, b: Label) returns (i: nat)
    ensures i <= |a| && i <= |b| && a[..i] == b[..i]
    ensures i < |a| && i < |b| ==> a[i] != b[i]
    ensures CompareLabels(a, b)
            == if i == |a| == |b| then 0
               else if i == |a| || (i < |b| && a[i] < b[i]) then -1
               else 1
  {
    if a == [] || b == [] || a[0] != b[0] {
      i := 0;
    } else {
      var j := CompareLabelsMeaning(a[1..], b[1..]);
      i := j + 1;
      assert a[..i] == [a[0]] + a[1..][..j] && b[..i] == [b[0]] + b[1..][..j];
    }
  }

  lemma {:induction false} CompareLabelsTransitive(a: Label, b: Label, c: Label)
    requires CompareLabels(a, b) <= 0 && CompareLabels(b, c) <= 0
    ensures CompareLabels(a, c) <= 0
    ensures CompareLabels(a, b) < 0 || CompareLabels(b, c) < 0 ==> CompareLabels(a, c) < 0
  {
    if a != [] && b != [] && c != [] && a[0] == b[0] == c[0] {
      CompareLabelsTransitive(a[1..], b[1..], c[1..]);
    }
  }

  lemma {:induction false} CompareRightLaws(a: seq<Label>, i: nat, b: seq<Label>, j: nat)
    requires i <= |a| && j <= |b|
    ensures CompareRight(a, i, b, j) == -CompareRight(b, j, a, i)
    ensures CompareRight(a, i, b, j) == 0 <==> a[..i] == b[..j]
  {
    if i > 0 && j > 0 {
      CompareLabelsLaws(a[i - 1], b[j - 1]);
      CompareRightLaws(a, i - 1, b, j - 1);
      assert a[..i] == a[..i - 1] + [a[i - 1]] && b[..j] == b[..j - 1] + [b[j - 1]];
    }
  }

  lemma {:induction false} CompareRightTransitive(
      a: seq<Label>, i: nat, b: seq<Label>, j: nat, c: seq<Label>, k: nat)
    requires i <= |a| && j <= |b| && k <= |c|
    requires CompareRight(a, i, b, j) <= 0 && CompareRight(b, j, c, k) <= 0
    ensures CompareRight(a, i, c, k) <= 0
  {
    if i > 0 && j > 0 && k > 0 {
      var (x, y, z) := (a[i - 1], b[j - 1], c[k - 1]);
      CompareLabelsLaws(x, y);
      CompareLabelsLaws(y, z);
      CompareLabelsTransitive(x, y, z);
      CompareLabelsLaws(x, z);
      if x == y == z {
        CompareRightTransitive(a, i - 1, b, j - 1, c, k - 1);
      }
    }
  }

  predicate SharesSuffix(a: seq<Label>, i: nat, b: seq<Label>, j: nat, k: nat)
    requires k <= i <= |a| && k <= j <= |b|
  {
    a[i - k..i] == b[j - k..j]
  }

  lemma SharesOneMore(a: seq<Label>, i: nat, b: seq<Label>, j: nat, k: nat)
    requires 0 < k <= i <= |a| && k <= j <= |b|
    ensures SharesSuffix(a, i, b, j, k) <==> a[i - 1] == b[j - 1] && SharesSuffix(a, i - 1, b, j - 1, k - 1)
  {
    var (x, y) := (a[i - k..i], b[j - k..j]);
    assert x[..k - 1] == a[i - k..i - 1] && x[k - 1] == a[i - 1];
    assert y[..k - 1] == b[j - k..j - 1] && y[k - 1] == b[j - 1];
    assert x == x[..k - 1] + [x[k - 1]] && y == y[..k - 1] + [y[k - 1]];
  }

  /** The common suffix is one, and nothing longer is. */
  lemma {:induction false} CommonSuffixIsLongest(a: seq<Label>, i: nat, b: seq<Label>, j: nat, k: nat)
    requires k <= i <= |a| && k <= j <= |b|
    ensures SharesSuffix(a, i, b, j, k) <==> k <= CommonSuffix(a, i, b, j)
  {
    if k > 0 {
      SharesOneMore(a, i, b, j, k);
      hide SharesSuffix;
      CommonSuffixIsLongest(a, i - 1, b, j - 1, k - 1);
    } else {
      assert a[i - k..i] == [] == b[j - k..j];
    }
  }

  /** The order of RFC 4034, section 6.1: after the labels two names share at the right, the next
      label decides; a name that has no label left is the smaller one. */
  lemma {:induction false} CompareRightMeaning(a: seq<Label>, i: nat, b: seq<Label>, j: nat)
    requires i <= |a| && j <= |b|
    ensures var k := CommonSuffix(a, i, b, j);
            if k == i || k == j then CompareRight(a, i, b, j) == i - j
            else CompareRight(a, i, b, j) == CompareLabels(a[i - k - 1], b[j - k - 1]) != 0
  {
    if i > 0 && j > 0 {
      CompareLabelsLaws(a[i - 1], b[j - 1]);
      CompareRightMeaning(a, i - 1, b, j - 1);
    }
  }

  /** Comparing a[..i] with b[..j] decides when the n labels at the right of both are the same. */
  predicate Aligned(a: seq<Label>, i: nat, b: seq<Label>, j: nat, n: nat)
    requires i <= |a| && j <= |b|
  {
    && CompareRight(a, i, b, j) == CompareRight(a, |a|, b, |b|)
    && CommonSuffix(a, i, b, j) + n == CommonSuffix(a, |a|, b, |b|)
  }

  lemma PeelLabel(self: seq<Label>, i: nat, other: seq<Label>, j: nat, n: nat)
    requires i < |self| && j < |other| && Aligned(Canonical(self), i + 1, Canonical(other), j + 1, n)
    ensures var (a, b) := (Canonical(self), Canonical(other));
            var c := CompareLabels(LowerLabel(self[i]), LowerLabel(other[j]));
            if c == 0 then Aligned(a, i, b, j, n + 1)
            else CompareRight(a, |a|, b, |b|) == c && CommonSuffix(a, |a|, b, |b|) == n
  {
    CompareLabelsLaws(LowerLabel(self[i]), LowerLabel(other[j]));
  }

  lemma NothingToPeel(a: seq<Label>, i: nat, b: seq<Label>, j: nat, n: nat)
    requires i <= |a| && j <= |b| && (i == 0 || j == 0) && Aligned(a, i, b, j, n)
    ensures CompareRight(a, |a|, b, |b|) == i - j && CommonSuffix(a, |a|, b, |b|) == n
  {
  }

  lemma Settled(a: seq<Label>, b: seq<Label>)
    requires IsAbsolute(a) == IsAbsolute(b)
    ensures var (i, j) := (|Canonical(a)|, |Canonical(b)|);
            var k := CommonSuffix(Canonical(a), i, Canonical(b), j);
            Compare(a, b) == Comparison(RelationByCount(i, j, k), CompareRight(Canonical(a), i, Canonical(b), j), k)
  {
  }

  method FullCompare(self: seq<Label>, other: seq<Label>) returns (r: Comparison)
    ensures r == Compare(self, other)
  {
    var sabs := IsAbsolute(self);
    var oabs := IsAbsolute(other);
    if sabs != oabs {
      if sabs {
        return Comparison(None_, 1, 0);
      } else {
        return Comparison(None_, -1, 0);
      }
    }
    ghost var (cs, co) := (Canonical(self), Canonical(other));
    Settled(self, other);
    assert Aligned(cs, |cs|, co, |co|, 0);
    hide Compare, Aligned, CompareLabels, LowerLabel, IsAbsolute, Canonical, CompareRight, CommonSuffix;
    var l1 := |self|;
    var l2 := |other|;
    var ldiff := l1 - l2;
    var l := if ldiff < 0 then l1 else l2;
    var nlabels := 0;
    while l > 0
      invariant 0 <= l <= l1 && l <= l2 && (l == l1 || l == l2) && l1 - l2 == ldiff
      invariant l1 <= |cs| && l2 <= |co| && nlabels == |cs| - l1
      invariant Aligned(cs, l1, co, l2, nlabels)
    {
      l := l - 1;
      l1 := l1 - 1;
      l2 := l2 - 1;
      var label1 := LowerLabel(self[l1]);
      var label2 := LowerLabel(other[l2]);
      PeelLabel(self, l1, other, l2, nlabels);
      var c := CompareLabels(label1, label2);
      if c != 0 {
        return Comparison(if nlabels > 0 then CommonAncestor else None_, c, nlabels);
      }
      nlabels := nlabels + 1;
    }
    NothingToPeel(cs, l1, co, l2, nlabels);
    var relation := if ldiff < 0 then SuperDomain else if ldiff > 0 then SubDomain else Equal;
    return Comparison(relation, ldiff, nlabels);
  }

  lemma OrderAntisymmetric(a: seq<Label>, b: seq<Label>)
    ensures Order(a, b) == -Order(b, a)
  {
    CompareRightLaws(Canonical(a), |a|, Canonical(b), |b|);
  }

  /** Relative names come before absolute ones; the empty name is the first of all, and the root the
      first of the absolute. */
  lemma OrderAcrossKinds(a: seq<Label>, b: seq<Label>)
    requires ValidName(a) && ValidName(b)
    ensures !IsAbsolute(a) && IsAbsolute(b) ==> Order(a, b) < 0
    ensures Order([], b) <= 0 && (IsAbsolute(b) ==> Order([[]], b) <= 0)
  {
    var root: seq<Label> := [[]];
    assert Canonical(root) == root;
    if IsAbsolute(b) {
      assert Canonical(b)[|b| - 1] == [];
      assert CompareRight(root, 0, Canonical(b), |b| - 1) == 1 - |b|;
    }
  }

  lemma OrderTransitive(a: seq<Label>, b: seq<Label>, c: seq<Label>)
    requires Order(a, b) <= 0 && Order(b, c) <= 0
    ensures Order(a, c) <= 0
  {
    if IsAbsolute(a) == IsAbsolute(b) == IsAbsolute(c) {
      CompareRightTransitive(Canonical(a), |a|, Canonical(b), |b|, Canonical(c), |c|);
    }
  }

  lemma OrderZeroIsCanonicalEquality(a: seq<Label>, b: seq<Label>)
    ensures Order(a, b) == 0 <==> Canonical(a) == Canonical(b)
  {
    CompareRightLaws(Canonical(a), |a|, Canonical(b), |b|);
    if Canonical(a) == Canonical(b) && |a| > 0 {
      assert |Canonical(a)[|a| - 1]| == |Canonical(b)[|b| - 1]|;
    }
  }

  /** The same octet, or the same letter of the other case. */
  predicate SameLetter(x: byte, y: byte) {
    || x == y
    || ('A' <= x as char <= 'Z' && y == x + 32)
    || ('a' <= x as char <= 'z' && y == x - 32)
  }

  predicate SameUpToCase(a: Label, b: Label) {
    |a| == |b| && forall i | 0 <= i < |a| :: SameLetter(a[i], b[i])
  }

  lemma SameLabelUpToCase(a: Label, b: Label)
    ensures LowerLabel(a) == LowerLabel(b) <==> SameUpToCase(a, b)
  {
    if LowerLabel(a) == LowerLabel(b) {
      assert |LowerLabel(a)| == |LowerLabel(b)|;
      forall i | 0 <= i < |a| ensures SameLetter(a[i], b[i]) {
        assert LowerByte(a[i]) == LowerLabel(a)[i] == LowerLabel(b)[i] == LowerByte(b[i]);
      }
    }
    if SameUpToCase(a, b) {
      forall i | 0 <= i < |a| ensures LowerLabel(a)[i] == LowerLabel(b)[i] {
        assert SameLetter(a[i], b[i]);
      }
    }
  }

  /** Names compare equal exactly when they differ at most in the case of ASCII letters. */
  lemma EqualUpToCase(a: seq<Label>, b: seq<Label>)
    ensures Order(a, b) == 0 <==> |a| == |b| && forall i | 0 <= i < |a| :: SameUpToCase(a[i], b[i])
  {
    OrderZeroIsCanonicalEquality(a, b);
    if Canonical(a) == Canonical(b) {
      assert |Canonical(a)| == |Canonical(b)|;
      forall i | 0 <= i < |a| ensures SameUpToCase(a[i], b[i]) {
        assert Canonical(a)[i] == Canonical(b)[i];
        SameLabelUpToCase(a[i], b[i]);
      }
    }
    if |a| == |b| && forall i | 0 <= i < |a| :: SameUpToCase(a[i], b[i]) {
      forall i | 0 <= i < |a| ensures Canonical(a)[i] == Canonical(b)[i] {
        SameLabelUpToCase(a[i], b[i]);
      }
    }
  }

  /** SUBDOMAIN and SUPERDOMAIN say exactly which name is a proper suffix of the other, EQUAL
      that the order is zero, and nlabels counts the longest suffix the two share. */
  lemma RelationMeaning(a: seq<Label>, b: seq<Label>)
    requires IsAbsolute(a) == IsAbsolute(b)
    ensures var (ca, cb, r) := (Canonical(a), Canonical(b), Compare(a, b));
            && (r.relation == SuperDomain <==> ProperSuffix(ca, cb))
            && (r.relation == SubDomain <==> ProperSuffix(cb, ca))
            && (r.relation == Equal <==> ca == cb)
            && r.nlabels <= Min(|a|, |b|)
            && SharesSuffix(ca, |a|, cb, |b|, r.nlabels)
            && forall k: nat | k <= Min(|a|, |b|) && SharesSuffix(ca, |a|, cb, |b|, k) :: k <= r.nlabels
  {
    var (ca, cb) := (Canonical(a), Canonical(b));
    forall k: nat | k <= Min(|a|, |b|)
      ensures SharesSuffix(ca, |a|, cb, |b|, k) <==> k <= CommonSuffix(ca, |a|, cb, |b|)
    {
      CommonSuffixIsLongest(ca, |a|, cb, |b|, k);
    }
    assert ca[0..|a|] == ca && cb[0..|b|] == cb;
    if |a| <= |b| {
      assert SharesSuffix(ca, |a|, cb, |b|, |a|) <==> cb[|b| - |a|..] == ca;
    }
    if |b| <= |a| {
      assert SharesSuffix(ca, |a|, cb, |b|, |b|) <==> ca[|a| - |b|..] == cb;
    }
  }

  // ---------- Hashing ----------

  function HashBytes(h: nat, lbl: Label): nat
    decreases lbl
  {
    if lbl == [] then h else HashBytes(h + (h * 8 + lbl[0]), lbl[1..])
  }

  function HashLabels(h: nat, labels: seq<Label>): nat
    decreases labels
  {
    if labels == [] then h else HashLabels(HashBytes(h, LowerLabel(labels[0])), labels[1..])
  }

  method Hash(labels: seq<Label>) returns (h: nat)
    ensures h == HashLabels(0, labels)
  {
    h := 0;
    for i := 0 to |labels|
      invariant HashLabels(h, labels[i..]) == HashLabels(0, labels)
    {
      var lbl := LowerLabel(labels[i]);
      ghost var h0 := h;
      for j := 0 to |lbl|
        invariant HashBytes(h, lbl[j..]) == HashBytes(h0, lbl)
      {
        h := h + (h * 8 + lbl[j]);
        assert lbl[j..][1..] == lbl[j + 1..];
      }
      assert labels[i..][1..] == labels[i + 1..];
    }
  }

  lemma {:induction false} HashFromCanonical(h: nat, labels: seq<Label>)
    ensures HashLabels(h, labels) == HashLabels(h, Canonical(labels))
    decreases labels
  {
    if labels != [] {
      LowerLabelIdempotent(labels[0]);
      assert Canonical(labels)[1..] == Canonical(labels[1..]);
      HashFromCanonical(HashBytes(h, LowerLabel(labels[0])), labels[1..]);
    }
  }

  /** What makes names usable as dictionary keys: equal names hash equally. */
  lemma EqualNamesHashEqually(a: seq<Label>, b: seq<Label>)
    requires Order(a, b) == 0
    ensures HashLabels(0, a) == HashLabels(0, b)
  {
    OrderZeroIsCanonicalEquality(a, b);
    HashFromCanonical(0, a);
    HashFromCanonical(0, b);
  }
}
