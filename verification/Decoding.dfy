/** Which octets are a name, and why others are not one: `from_wire_parser` of `dns/name.py`. */
module Decoding {
  import opened Wrappers
  import opened Names
  import opened Wire

  /** The octets of labels one after the other, each after its length. */
  function Octets(labels: seq<Label>): seq<byte>
    requires LabelsFit(labels)
  {
    if labels == [] then [] else [|labels[0]|] + labels[0] + Octets(labels[1..])
  }

  predicate Proper(labels: seq<Label>) {
    forall i | 0 <= i < |labels| :: 1 <= |labels[i]| <= 63
  }

  /** These labels stand at pos, and q is the offset after them. */
  predicate StandAt(w: seq<byte>, end: nat, pos: nat, labels: seq<Label>, q: nat)
    requires end <= |w|
  {
    && Proper(labels) && q == pos + |Octets(labels)|
    && (labels != [] ==> q <= end && w[pos..q] == Octets(labels))
  }

  /** The offset in the fourteen low bits of a pointer. */
  function Offset(high: byte, low: byte): nat
    requires high >= 192
  {
    var first: int := high;
    (first - 192) * 256 + low
  }

  /** A pointer stands at q, to an offset below the bound. */
  predicate PointsBelow(w: seq<byte>, end: nat, q: nat, bound: nat, target: nat)
    requires end <= |w|
  {
    q + 2 <= end && w[q] >= 192 && target == Offset(w[q], w[q + 1]) && target < bound && target <= end
  }

  /** From pos on there are groups of labels, each but the last with a pointer to the next one, and each of
      these pointers to below where its own group starts; after the last group the offset is p, and pointers
      from there have to stay below `bound`. */
  ghost predicate Leads(w: seq<byte>, end: nat, pos: nat, limit: nat, groups: seq<seq<Label>>, p: nat, bound: nat)
    requires end <= |w|
    decreases |groups|
  {
    && groups != []
    && if |groups| == 1 then StandAt(w, end, pos, groups[0], p) && bound == limit
       else exists q, target: nat ::
              && StandAt(w, end, pos, groups[0], q) && PointsBelow(w, end, q, limit, target)
              && Leads(w, end, target, target, groups[1..], p, bound)
  }

  function Flat(groups: seq<seq<Label>>): seq<Label> {
    if groups == [] then [] else groups[0] + Flat(groups[1..])
  }

  /** At p there is neither a label nor a pointer that can be followed: the name ends well or with an error. */
  function EndAt(w: seq<byte>, end: nat, p: nat, bound: nat): Option<Result<(), DnsError>>
    requires end <= |w|
  {
    if p >= end then Some(Failure(ShortRead))
    else if w[p] == 0 then Some(Success(()))
    else if w[p] <= 63 then (if p + 1 + w[p] <= end then None else Some(Failure(ShortRead)))
    else if w[p] <= 191 then Some(Failure(BadLabelType))
    else if p + 2 > end then Some(Failure(ShortRead))
    else
      var target := Offset(w[p], w[p + 1]);
      if target >= bound then Some(Failure(BadPointer))
      else if target > end then Some(Failure(ShortRead))
      else None
  }

  /** What has been found when the name ends so. */
  function Ending(labels: seq<Label>, e: Result<(), DnsError>): Result<seq<Label>, DnsError> {
    if e.Failure? then Failure(e.error)
    else if WireLength(labels + [[]]) > 255 then Failure(NameTooLong)
    else Success(labels + [[]])
  }

  lemma HeadOfSlice<T>(w: seq<T>, a: nat, b: nat, first: T, head: seq<T>, tail: seq<T>)
    requires a <= b <= |w| && w[a..b] == [first] + head + tail
    ensures a + 1 + |head| <= b && w[a] == first
    ensures w[a + 1..a + 1 + |head|] == head && w[a + 1 + |head|..b] == tail
  {
    var s := w[a..b];
    assert |s| == b - a;
    assert w[a] == s[0];
    forall k | 0 <= k < |head| ensures w[a + 1..a + 1 + |head|][k] == head[k] {
      assert w[a + 1 + k] == s[1 + k];
    }
    forall k | 0 <= k < |tail| ensures w[a + 1 + |head|..b][k] == tail[k] {
      assert w[a + 1 + |head| + k] == s[1 + |head| + k];
    }
  }

  lemma OneLabel(w: seq<byte>, end: nat, pos: nat, labels: seq<Label>, q: nat)
    requires end <= |w| && labels != [] && StandAt(w, end, pos, labels, q)
    ensures pos + 1 + |labels[0]| <= q <= end && w[pos] == |labels[0]|
    ensures w[pos + 1..pos + 1 + |labels[0]|] == labels[0]
    ensures StandAt(w, end, pos + 1 + |labels[0]|, labels[1..], q)
  {
    HeadOfSlice(w, pos, q, |labels[0]|, labels[0], Octets(labels[1..]));
  }

  lemma LabelWalked(w: seq<byte>, end: nat, pos: nat, limit: nat, lbl: Label)
    requires end <= |w| && 1 <= |lbl| <= 63 && pos + 1 + |lbl| <= end
    requires w[pos] == |lbl| && w[pos + 1..pos + 1 + |lbl|] == lbl
    ensures WalkFrom(w, end, pos, limit).name == WalkFrom(w, end, pos + 1 + |lbl|, limit).Joined([lbl])
  {
  }

  lemma {:induction false} LabelsWalked(w: seq<byte>, end: nat, pos: nat, limit: nat, labels: seq<Label>, q: nat)
    requires end <= |w| && StandAt(w, end, pos, labels, q)
    ensures WalkFrom(w, end, pos, limit).name == WalkFrom(w, end, q, limit).Joined(labels)
    decreases |labels|
  {
    hide WalkFrom;
    JoinedTwice(WalkFrom(w, end, pos, limit), [], 0, 0, []);
    if labels != [] {
      OneLabel(w, end, pos, labels, q);
      hide StandAt;
      var next := pos + 1 + |labels[0]|;
      LabelsWalked(w, end, next, limit, labels[1..], q);
      LabelWalked(w, end, pos, limit, labels[0]);
      var rest := WalkFrom(w, end, q, limit).name;
      assert rest.Success? ==> [labels[0]] + (labels[1..] + rest.value) == labels + rest.value;
    }
  }

  lemma PointerWalked(w: seq<byte>, end: nat, q: nat, limit: nat, target: nat)
    requires end <= |w| && PointsBelow(w, end, q, limit, target)
    ensures WalkFrom(w, end, q, limit).name == WalkFrom(w, end, target, target).name
  {
    assert PointerTarget(w[q], w[q + 1]) == target;
    JoinedTwice(WalkFrom(w, end, target, target), [], 0, 0, []);
  }

  /** The walk follows the groups. */
  lemma {:induction false} GroupsWalked(
      w: seq<byte>, end: nat, pos: nat, limit: nat, groups: seq<seq<Label>>, p: nat, bound: nat)
    requires end <= |w| && Leads(w, end, pos, limit, groups, p, bound)
    ensures WalkFrom(w, end, pos, limit).name == WalkFrom(w, end, p, bound).Joined(Flat(groups))
    decreases |groups|
  {
    hide WalkFrom, StandAt, PointsBelow;
    if |groups| == 1 {
      assert groups[1..] == [] && Flat(groups) == groups[0];
      LabelsWalked(w, end, pos, limit, groups[0], p);
    } else {
      var q, target: nat :| StandAt(w, end, pos, groups[0], q) && PointsBelow(w, end, q, limit, target)
                       && Leads(w, end, target, target, groups[1..], p, bound);
      LabelsWalked(w, end, pos, limit, groups[0], q);
      PointerWalked(w, end, q, limit, target);
      GroupsWalked(w, end, target, target, groups[1..], p, bound);
      JoinedTwice(WalkFrom(w, end, p, bound), Flat(groups[1..]), 0, 0, groups[0]);
    }
  }

  /** Where the walk ends, it ends as `EndAt` says. */
  lemma WalkEnds(w: seq<byte>, end: nat, p: nat, bound: nat)
    requires end <= |w| && EndAt(w, end, p, bound).Some?
    ensures var e := EndAt(w, end, p, bound).value;
            WalkFrom(w, end, p, bound).name == if e.Success? then Success([[]]) else Failure(e.error)
  {
    if p + 2 <= end && w[p] >= 192 {
      assert PointerTarget(w[p], w[p + 1]) == Offset(w[p], w[p + 1]);
    }
  }

  /** One more label in front of the first group. */
  lemma LabelBefore(w: seq<byte>, end: nat, pos: nat, limit: nat, lbl: Label,
      groups: seq<seq<Label>>, p: nat, bound: nat)
    requires end <= |w| && 1 <= |lbl| <= 63 && pos + 1 + |lbl| <= end && w[pos] == |lbl|
    requires w[pos + 1..pos + 1 + |lbl|] == lbl
    requires Leads(w, end, pos + 1 + |lbl|, limit, groups, p, bound)
    ensures Leads(w, end, pos, limit, [[lbl] + groups[0]] + groups[1..], p, bound)
  {
    var next := pos + 1 + |lbl|;
    var more := [[lbl] + groups[0]] + groups[1..];
    forall q: nat | StandAt(w, end, next, groups[0], q) ensures StandAt(w, end, pos, [lbl] + groups[0], q) {
      assert ([lbl] + groups[0])[1..] == groups[0];
      assert w[pos..next] == [|lbl|] + lbl;
      assert groups[0] != [] ==> w[pos..q] == w[pos..next] + w[next..q];
    }
    assert more[1..] == groups[1..];
    if |groups| > 1 {
      var q, target: nat :| StandAt(w, end, next, groups[0], q) && PointsBelow(w, end, q, limit, target)
                       && Leads(w, end, target, target, groups[1..], p, bound);
      assert StandAt(w, end, pos, more[0], q);
    }
  }

  /** From everywhere there are such groups, up to where the name ends. */
  lemma {:induction false} GroupsFound(w: seq<byte>, end: nat, pos: nat, limit: nat)
    returns (groups: seq<seq<Label>>, p: nat, bound: nat)
    requires end <= |w|
    ensures Leads(w, end, pos, limit, groups, p, bound) && EndAt(w, end, p, bound).Some?
    decreases limit, if pos <= end then end - pos else 0
  {
    if EndAt(w, end, pos, limit).Some? {
      groups, p, bound := [[]], pos, limit;
    } else if w[pos] <= 63 {
      var next := pos + 1 + w[pos];
      groups, p, bound := GroupsFound(w, end, next, limit);
      LabelBefore(w, end, pos, limit, w[pos + 1..next], groups, p, bound);
      groups := [[w[pos + 1..next]] + groups[0]] + groups[1..];
    } else {
      var target := Offset(w[pos], w[pos + 1]);
      groups, p, bound := GroupsFound(w, end, target, target);
      assert ([[]] + groups)[1..] == groups;
      assert StandAt(w, end, pos, [], pos) && PointsBelow(w, end, pos, limit, target);
      groups := [[]] + groups;
    }
  }

  /** Decoding gives labels, or fails, exactly when groups of labels lead to an end that gives this: a zero
      octet, or what is wrong there. */
  lemma DecodedExactly(w: seq<byte>, end: nat, start: nat, r: Result<seq<Label>, DnsError>)
    requires end <= |w|
    ensures NameAt(w, end, start) == r
            <==> exists groups, p, bound ::
                   && Leads(w, end, start, start, groups, p, bound) && EndAt(w, end, p, bound).Some?
                   && r == Ending(Flat(groups), EndAt(w, end, p, bound).value)
  {
    var groups, p, bound := GroupsFound(w, end, start, start);
    GroupsDecide(w, end, start, groups, p, bound);
    forall g, q, b | Leads(w, end, start, start, g, q, b) && EndAt(w, end, q, b).Some?
      ensures NameAt(w, end, start) == Ending(Flat(g), EndAt(w, end, q, b).value)
    {
      GroupsDecide(w, end, start, g, q, b);
    }
  }

  lemma GroupsDecide(w: seq<byte>, end: nat, start: nat, groups: seq<seq<Label>>, p: nat, bound: nat)
    requires end <= |w| && Leads(w, end, start, start, groups, p, bound) && EndAt(w, end, p, bound).Some?
    ensures NameAt(w, end, start) == Ending(Flat(groups), EndAt(w, end, p, bound).value)
  {
    hide WalkFrom, Leads, EndAt;
    GroupsWalked(w, end, start, start, groups, p, bound);
    WalkEnds(w, end, p, bound);
    DecodedShape(w, end, start);
  }
}
