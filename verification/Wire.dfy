/** The wire parser of `dns/wire.py` and the name decoder of `dns/name.py`. */
module Wire {
  import opened Wrappers
  import opened Names

  function Uint16(hi: byte, lo: byte): nat {
    hi * 256 + lo
  }

  function Uint32(a: byte, b: byte, c: byte, d: byte): nat {
    Uint16(a, b) * 65536 + Uint16(c, d)
  }

  // ---------- What the bytes at an offset spell ----------

  /** The outcome of following length octets and compression pointers: the labels or the error,
      the lowest offset read, and the offset after the furthest octet read. */
  datatype Walk = Walk(name: Result<seq<Label>, DnsError>, lo: nat, hi: nat) {
    /** This walk, seen from an earlier point that already found labels and read lo'..hi'. */
    function After(labels: seq<Label>, lo': nat, hi': nat): Walk {
      Walk(Joined(labels), Min(lo, lo'), Max(hi, hi'))
    }

    function Joined(labels: seq<Label>): Result<seq<Label>, DnsError> {
      if name.Success? then Success(labels + name.value) else name
    }
  }

  /** Labels as section 3.1 of RFC 1035 has them: 1 to 63 octets each, and the root at the end. */
  predicate RootedShape(labels: seq<Label>) {
    && |labels| > 0
    && labels[|labels| - 1] == []
    && forall i | 0 <= i < |labels| - 1 :: 1 <= |labels[i]| <= 63
  }

  /** Where the two octets of a compression pointer point (section 4.1.4 of RFC 1035). */
  function PointerTarget(high: byte, low: byte): nat
    requires high >= 192
  {
    Uint16(high, low) - 0xC000
  }

  /** A pointer must aim below every earlier pointer and below the start: with the label steps
      shortening what is left before `end`, this is why decoding terminates on any bytes. */
  function WalkFrom(w: seq<byte>, end: nat, cur: nat, biggest: nat): (r: Walk)
    requires end <= |w|
    decreases biggest, if cur <= end then end - cur else 0
  {
    if cur + 1 > end then Walk(Failure(ShortRead), cur, 0)
    else
      var count := w[cur];
      if count == 0 then Walk(Success([[]]), cur, cur + 1)
      else if count < 64 then
        if cur + 1 + count > end then Walk(Failure(ShortRead), cur, cur + 1)
        else
          var found := w[cur + 1..cur + 1 + count];
          WalkFrom(w, end, cur + 1 + count, biggest).After([found], cur, cur + 1 + count)
      else if count >= 192 then
        if cur + 2 > end then Walk(Failure(ShortRead), cur, cur + 1)
        else
          var target := PointerTarget(count, w[cur + 1]);
          if target >= biggest then Walk(Failure(BadPointer), cur, cur + 2)
          else if target > end then Walk(Failure(ShortRead), cur, cur + 2)
          else WalkFrom(w, end, target, target).After([], cur, cur + 2)
      else Walk(Failure(BadLabelType), cur, cur + 1)
  }

  lemma JoinedTwice(k: Walk, a: seq<Label>, lo: nat, hi: nat, b: seq<Label>)
    ensures k.After(a, lo, hi).Joined(b) == k.Joined(b + a)
    ensures k.Joined([]) == k.name
  {
    if k.name.Success? {
      assert b + (a + k.name.value) == (b + a) + k.name.value;
      assert [] + k.name.value == k.name.value;
    }
  }

  /** A walk that has nothing left to read, or finds the root. */
  lemma WalkEdge(w: seq<byte>, end: nat, cur: nat, biggest: nat)
    requires end <= |w|
    ensures cur + 1 > end ==> WalkFrom(w, end, cur, biggest) == Walk(Failure(ShortRead), cur, 0)
    ensures cur + 1 <= end && w[cur] == 0 ==> WalkFrom(w, end, cur, biggest) == Walk(Success([[]]), cur, cur + 1)
    ensures cur + 1 <= end ==> WalkFrom(w, end, cur, biggest).hi >= cur + 1
  {
  }

  /** The name at an offset, with the errors of the walk and of the `Name` constructor. */
  function NameAt(w: seq<byte>, end: nat, start: nat): Result<seq<Label>, DnsError>
    requires end <= |w|
  {
    var labels :- WalkFrom(w, end, start, start).name;
    if NameError(labels).Some? then Failure(NameError(labels).value) else Success(labels)
  }

  /** On arbitrary bytes: a decoded name has exactly one empty label, at the end, labels of 1 to 63
      octets and at most 255 octets in all; and the one error its labels can cause is NameTooLong. */
  lemma DecodedShape(w: seq<byte>, end: nat, start: nat)
    requires end <= |w|
    ensures var r := NameAt(w, end, start);
            if r.Success? then RootedShape(r.value) && ValidName(r.value)
            else r.error in {ShortRead, BadPointer, BadLabelType, NameTooLong}
    ensures var k := WalkFrom(w, end, start, start).name;
            NameAt(w, end, start) == Failure(NameTooLong) <==> k.Success? && WireLength(k.value) > 255
  {
    WalkShape(w, end, start, start);
  }

  lemma {:induction false} WalkShape(w: seq<byte>, end: nat, cur: nat, biggest: nat)
    requires end <= |w|
    ensures var k := WalkFrom(w, end, cur, biggest);
            && k.lo <= cur && k.hi <= end
            && if k.name.Success? then cur < k.hi && RootedShape(k.name.value)
               else k.name.error in {ShortRead, BadPointer, BadLabelType}
    decreases biggest, if cur <= end then end - cur else 0
  {
    if cur + 1 <= end && 0 < w[cur] < 64 && cur + 1 + w[cur] <= end {
      WalkShape(w, end, cur + 1 + w[cur], biggest);
    } else if cur + 2 <= end && w[cur] >= 192 {
      var target := PointerTarget(w[cur], w[cur + 1]);
      if target < biggest && target <= end {
        WalkShape(w, end, target, target);
      }
    }
  }

  /** Only the octets between lo and hi matter to a successful walk. */
  lemma {:induction false} WalkFrame(
      w: seq<byte>, end: nat, w': seq<byte>, end': nat, cur: nat, biggest: nat)
    requires end <= |w| && end' <= |w'|
    requires var k := WalkFrom(w, end, cur, biggest);
             && k.name.Success? && k.hi <= end && k.hi <= end'
             && forall i | k.lo <= i < k.hi :: w[i] == w'[i]
    ensures WalkFrom(w', end', cur, biggest) == WalkFrom(w, end, cur, biggest)
    decreases biggest, if cur <= end then end - cur else 0
  {
    var k := WalkFrom(w, end, cur, biggest);
    assert w'[cur] == w[cur];
    var count := w[cur];
    if count == 0 {
    } else if count < 64 {
      var next := cur + 1 + count;
      var rest := WalkFrom(w, end, next, biggest);
      assert k == rest.After([w[cur + 1..next]], cur, next);
      assert w'[cur + 1..next] == w[cur + 1..next];
      WalkFrame(w, end, w', end', next, biggest);
    } else {
      assert w'[cur + 1] == w[cur + 1];
      var target := PointerTarget(count, w[cur + 1]);
      WalkFrame(w, end, w', end', target, target);
    }
  }

  /** The decoder leaves the parser after the furthest octet it read.  For bytes no encoder would
      write this passes the end of the name: here the name at offset 3 is the two octets of a
      pointer to a label that runs over those very octets. */
  lemma FurthestCanPassTheName()
    ensures var w: seq<byte> := [4, 97, 98, 192, 0, 0];
            WalkFrom(w, 6, 3, 3) == Walk(Success([[97, 98, 192, 0], []]), 0, 6)
  {
    var w: seq<byte> := [4, 97, 98, 192, 0, 0];
    assert w[1..5] == [97, 98, 192, 0];
    assert WalkFrom(w, 6, 5, 0) == Walk(Success([[]]), 5, 6);
    var target := WalkFrom(w, 6, 0, 0);
    assert target == WalkFrom(w, 6, 5, 0).After([w[1..5]], 0, 5);
    assert target.name.value == [w[1..5]] + [[]] == [[97, 98, 192, 0], []];
    assert WalkFrom(w, 6, 3, 3) == target.After([], 3, 5);
    JoinedTwice(target, [], 0, 0, []);
  }

  /** Where a name itself ends, after its root label or its pointer, and where the pointer leads. */
  function InPlace(w: seq<byte>, end: nat, cur: nat): (nat, Option<nat>)
    requires end <= |w|
    decreases if cur <= end then end - cur else 0
  {
    if cur + 1 > end then (cur, None)
    else if 0 < w[cur] < 64 && cur + 1 + w[cur] <= end then InPlace(w, end, cur + 1 + w[cur])
    else if w[cur] >= 192 && cur + 2 <= end then (cur + 2, Some(PointerTarget(w[cur], w[cur + 1])))
    else (cur + 1, None)
  }

  /** Where each stretch of a name ends: its own, and from pointer to pointer those it leads to. */
  function Ends(w: seq<byte>, end: nat, cur: nat, biggest: nat): seq<nat>
    requires end <= |w|
    decreases biggest
  {
    var (stop, target) := InPlace(w, end, cur);
    [stop] + if target.Some? && target.value < biggest then Ends(w, end, target.value, target.value) else []
  }

  /** The furthest octet read is the last one of the stretch that ends last. */
  lemma {:induction false} FurthestIsLastEnd(w: seq<byte>, end: nat, cur: nat, biggest: nat)
    requires end <= |w| && WalkFrom(w, end, cur, biggest).name.Success?
    ensures var hi := WalkFrom(w, end, cur, biggest).hi;
            hi > cur && hi in Ends(w, end, cur, biggest) && forall e | e in Ends(w, end, cur, biggest) :: e <= hi
    decreases biggest, if cur <= end then end - cur else 0
  {
    if cur + 1 <= end && 0 < w[cur] < 64 && cur + 1 + w[cur] <= end {
      FurthestIsLastEnd(w, end, cur + 1 + w[cur], biggest);
      assert Ends(w, end, cur, biggest) == Ends(w, end, cur + 1 + w[cur], biggest);
    } else if cur + 2 <= end && w[cur] >= 192 {
      var target := PointerTarget(w[cur], w[cur + 1]);
      FurthestIsLastEnd(w, end, target, target);
      assert Ends(w, end, cur, biggest) == [cur + 2] + Ends(w, end, target, target);
    }
  }

  /** After decoding a name the parser stands at the end of the name itself if and only if none of the
      stretches its pointers lead to ends beyond that. */
  lemma FurthestIsTheEnd(w: seq<byte>, end: nat, start: nat)
    requires end <= |w| && WalkFrom(w, end, start, start).name.Success?
    ensures WalkFrom(w, end, start, start).hi == InPlace(w, end, start).0
            <==> forall e | e in Ends(w, end, start, start) :: e <= InPlace(w, end, start).0
  {
    FurthestIsLastEnd(w, end, start, start);
    var (ends, hi) := (Ends(w, end, start, start), WalkFrom(w, end, start, start).hi);
    assert ends[0] == InPlace(w, end, start).0;
    hide Ends, WalkFrom, InPlace;
    assert ends[0] in ends && hi in ends;
  }

  // ---------- The parser ----------

  class Parser {
    const wire: seq<byte>
    var current: nat
    var end: nat
    var furthest: nat

    ghost predicate Valid()
      reads this
    {
      current <= |wire| && end <= |wire| && furthest <= |wire|
    }

    constructor (wire: seq<byte>)
      ensures Valid() && this.wire == wire
      ensures current == 0 && end == |wire| && furthest == 0
    {
      this.wire := wire;
      current := 0;
      end := |wire|;
      furthest := 0;
    }

    method GetBytes(size: nat) returns (r: Result<seq<byte>, DnsError>)
      requires Valid()
      modifies this`current, this`furthest
      ensures Valid()
      ensures if old(current) + size > end
              then r == Failure(ShortRead) && unchanged(this)
              else && r == Success(wire[old(current)..old(current) + size])
                   && current == old(current) + size
                   && furthest == Max(old(furthest), current)
    {
      if size > end - current {
        return Failure(ShortRead);
      }
      var output := wire[current..current + size];
      current := current + size;
      furthest := Max(furthest, current);
      return Success(output);
    }

    method GetUint8() returns (r: Result<byte, DnsError>)
      requires Valid()
      modifies this`current, this`furthest
      ensures Valid()
      ensures if old(current) + 1 > end
              then r == Failure(ShortRead) && unchanged(this)
              else && r == Success(wire[old(current)])
                   && current == old(current) + 1
                   && furthest == Max(old(furthest), current)
    {
      var bytes :- GetBytes(1);
      return Success(bytes[0]);
    }

    method Seek(where: nat) returns (r: Result<(), DnsError>)
      requires Valid()
      modifies this`current
      ensures Valid()
      ensures if where > end then r == Failure(ShortRead) && unchanged(this)
              else r == Success(()) && current == where
    {
      if where > end {
        return Failure(ShortRead);
      }
      current := where;
      return Success(());
    }

    /** The octets of a record's data: the rest of the input restricted to `size` octets, which
        must all be consumed. */
    method GetRestricted(size: nat) returns (r: Result<seq<byte>, DnsError>)
      requires Valid()
      modifies this
      ensures Valid() && end == old(end)
      ensures if old(current) + size > end
              then r == Failure(ShortRead) && unchanged(this)
              else && r == Success(wire[old(current)..old(current) + size])
                   && current == old(current) + size
                   && furthest == Max(old(furthest), current)
    {
      if size > end - current {
        return Failure(ShortRead);
      }
      var savedEnd := end;
      end := current + size;
      r := GetBytes(end - current);
      if r.Success? && current != end {
        r := Failure(ShortRead);
      }
      end := savedEnd;
    }

    /** Handles one non-zero length octet, the last octet read: takes a label, or follows a pointer.
        Returns the labels found (one or none) and the new bound for pointers. */
    method FollowLength(count: byte, biggest: nat)
      returns (r: Result<(seq<Label>, nat), DnsError>, ghost hi: nat)
      requires Valid() && 1 <= current <= end && count == wire[current - 1] != 0
      requires current <= furthest
      modifies this`current, this`furthest
      ensures Valid()
      ensures hi >= old(current) && furthest == Max(old(furthest), hi)
      ensures var k := WalkFrom(wire, end, old(current) - 1, biggest);
              if r.Failure? then k.name == Failure(r.error) && k.hi == hi
              else k == WalkFrom(wire, end, current, r.value.1).After(r.value.0, old(current) - 1, hi)
      ensures r.Success? ==> r.value.1 < biggest || (r.value.1 == biggest && current > old(current))
    {
      hi := current;
      if count < 64 {
        var found := GetBytes(count);
        if found.Failure? {
          return Failure(found.error), hi;
        }
        return Success(([found.value], biggest)), current;
      } else if count >= 192 {
        var low := GetUint8();
        if low.Failure? {
          return Failure(low.error), hi;
        }
        hi := current;
        var target := PointerTarget(count, low.value);
        if target >= biggest {
          return Failure(BadPointer), hi;
        }
        var sought := Seek(target);
        if sought.Failure? {
          return Failure(sought.error), hi;
        }
        return Success(([], target)), hi;
      } else {
        return Failure(BadLabelType), hi;
      }
    }

    /** The loop of `from_wire_parser`, inside its `restore_furthest` block. */
    method ReadLabels() returns (r: Result<seq<Label>, DnsError>)
      requires Valid()
      modifies this`current, this`furthest
      ensures Valid()
      ensures var k := WalkFrom(wire, end, old(current), old(current));
              r == k.name && furthest == Max(old(furthest), k.hi)
    {
      hide WalkFrom;
      ghost var start := current;
      ghost var walk := WalkFrom(wire, end, start, start);
      JoinedTwice(walk, [], 0, 0, []);
      WalkEdge(wire, end, start, start);
      var labels: seq<Label> := [];
      var biggest := current;
      var count :- GetUint8();
      ghost var rest, hi: nat := walk, current;
      while count != 0
        invariant Valid() && 1 <= current <= end && count == wire[current - 1]
        invariant furthest == Max(old(furthest), hi) && current <= hi
        invariant rest == WalkFrom(wire, end, current - 1, biggest)
        invariant walk.name == rest.Joined(labels) && walk.hi == Max(rest.hi, hi)
        decreases biggest, end - current
      {
        ghost var at := current - 1;
        var step, h := FollowLength(count, biggest);
        if step.Failure? {
          return Failure(step.error);
        }
        rest := WalkFrom(wire, end, current, step.value.1);
        JoinedTwice(rest, step.value.0, at, h, labels);
        labels, biggest, hi := labels + step.value.0, step.value.1, Max(hi, h);
        assert walk.name == rest.Joined(labels) && walk.hi == Max(rest.hi, hi);
        WalkEdge(wire, end, current, biggest);
        count :- GetUint8();
        hi := Max(hi, current);
      }
      WalkEdge(wire, end, current - 1, biggest);
      return Success(labels + [[]]);
    }

    /** Decodes a name.  Whether or not that succeeds, the parser then stands after the furthest
        octet it has read. */
    method GetName() returns (r: Result<seq<Label>, DnsError>)
      requires Valid()
      modifies this`current, this`furthest
      ensures Valid()
      ensures r == NameAt(wire, end, old(current))
      ensures current == furthest
      ensures furthest == Max(old(furthest), WalkFrom(wire, end, old(current), old(current)).hi)
    {
      var labels := ReadLabels();
      current := furthest;
      if labels.Failure? {
        return labels;
      }
      var error := ValidateLabels(labels.value);
      if error.Some? {
        return Failure(error.value);
      }
      return labels;
    }
  }
}
