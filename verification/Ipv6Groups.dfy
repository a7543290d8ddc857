/** Which texts of groups are IPv6 addresses, and which addresses they are. */
module Ipv6Groups {
  import opened Wrappers
  import opened Names
  import opened Ascii
  import opened Ipv6

  predicate IsHexDigit(x: byte) {
    48 <= x <= 57 || 65 <= x <= 70 || 97 <= x <= 102
  }

  /** One to four hexadecimal digits of either case. */
  predicate IsNumber(g: Text) {
    1 <= |g| <= 4 && forall x | x in g :: IsHexDigit(x)
  }

  predicate AllNumbers(c: seq<Text>) {
    forall g | g in c :: IsNumber(g)
  }

  function DigitOf(x: byte): nat
    requires IsHexDigit(x)
  {
    if x <= 57 then x - 48 else if x <= 70 then x - 65 + 10 else x - 97 + 10
  }

  function NumberOf(g: Text): nat
    requires forall x | x in g :: IsHexDigit(x)
  {
    if g == [] then 0 else NumberOf(g[..|g| - 1]) * 16 + DigitOf(g[|g| - 1])
  }

  lemma {:induction false} NumberFits(g: Text)
    requires |g| <= 4 && forall x | x in g :: IsHexDigit(x)
    ensures |g| == 0 ==> NumberOf(g) == 0
    ensures |g| == 1 ==> NumberOf(g) < 16
    ensures |g| == 2 ==> NumberOf(g) < 0x100
    ensures |g| == 3 ==> NumberOf(g) < 0x1000
    ensures NumberOf(g) < 0x1_0000
    decreases |g|
  {
    if g != [] {
      assert g[|g| - 1] in g;
      NumberFits(g[..|g| - 1]);
    }
  }

  /** Two octets for each group. */
  function Values(c: seq<Text>): seq<byte>
    requires AllNumbers(c)
  {
    if c == [] then []
    else
      assert c[0] in c && IsNumber(c[0]);
      NumberFits(c[0]);
      [NumberOf(c[0]) / 256, NumberOf(c[0]) % 256] + Values(c[1..])
  }

  lemma HexValueMeans(x: byte)
    ensures HexValue(x) == if IsHexDigit(x) then Some(DigitOf(x)) else None
  {
  }

  lemma OneMore(g: Text, x: byte)
    requires (forall y | y in g :: IsHexDigit(y)) && IsHexDigit(x)
    ensures (forall y | y in g + [x] :: IsHexDigit(y)) && NumberOf(g + [x]) == NumberOf(g) * 16 + DigitOf(x)
  {
    assert (g + [x])[..|g|] == g;
    hide DigitOf;
  }

  /** The value of up to four digits. */
  lemma FourDigits(p: byte, q: byte, r: byte, s: byte)
    requires IsHexDigit(p) && IsHexDigit(q) && IsHexDigit(r) && IsHexDigit(s)
    ensures NumberOf([p]) == DigitOf(p) && NumberOf([p, q]) == DigitOf(p) * 16 + DigitOf(q)
    ensures NumberOf([p, q, r]) == (DigitOf(p) * 16 + DigitOf(q)) * 16 + DigitOf(r)
    ensures NumberOf([p, q, r, s]) == ((DigitOf(p) * 16 + DigitOf(q)) * 16 + DigitOf(r)) * 16 + DigitOf(s)
  {
    OneMore([], p);
    OneMore([p], q);
    OneMore([p, q], r);
    OneMore([p, q, r], s);
    assert [] + [p] == [p] && [p] + [q] == [p, q] && [p, q] + [r] == [p, q, r] && [p, q, r] + [s] == [p, q, r, s];
    hide DigitOf, IsHexDigit;
  }

  lemma PadMeans(g: Text)
    requires 1 <= |g| <= 4
    ensures Pad(g) == if |g| == 1 then [48, 48, 48, g[0]] else if |g| == 2 then [48, 48, g[0], g[1]]
                      else if |g| == 3 then [48, g[0], g[1], g[2]] else g
  {
    if |g| == 1 {
      assert [ZERO] + ([ZERO] + ([ZERO] + g)) == [48, 48, 48, g[0]];
      assert Pad(g) == Pad([ZERO] + g) == Pad([ZERO] + ([ZERO] + g)) == Pad([48, 48, 48, g[0]]);
    } else if |g| == 2 {
      assert [ZERO] + ([ZERO] + g) == [48, 48, g[0], g[1]];
      assert Pad(g) == Pad([ZERO] + g) == Pad([48, 48, g[0], g[1]]);
    } else if |g| == 3 {
      assert [ZERO] + g == [48, g[0], g[1], g[2]];
    }
  }

  lemma PaddedValue(g: Text)
    requires IsNumber(g)
    ensures |Pad(g)| == 4 && (forall x | x in Pad(g) :: IsHexDigit(x)) && NumberOf(Pad(g)) == NumberOf(g)
  {
    PadMeans(g);
    var d := Pad(g);
    assert forall i | 0 <= i < |g| :: g[i] in g;
    FourDigits(d[0], d[1], d[2], d[3]);
    assert d == [d[0], d[1], d[2], d[3]];
    if |g| == 1 {
      FourDigits(g[0], g[0], g[0], g[0]);
      assert g == [g[0]];
    } else if |g| == 2 {
      FourDigits(g[0], g[1], g[1], g[1]);
      assert g == [g[0], g[1]];
    } else if |g| == 3 {
      FourDigits(g[0], g[1], g[2], g[2]);
      assert g == [g[0], g[1], g[2]];
    }
    hide NumberOf, DigitOf;
  }

  lemma TwoOctets(d: Text)
    requires |d| == 4 && forall x | x in d :: IsHexDigit(x)
    ensures NumberOf(d) / 256 == DigitOf(d[0]) * 16 + DigitOf(d[1])
    ensures NumberOf(d) % 256 == DigitOf(d[2]) * 16 + DigitOf(d[3])
  {
    assert d == [d[0], d[1], d[2], d[3]];
    FourDigits(d[0], d[1], d[2], d[3]);
    assert DigitOf(d[2]) < 16 && DigitOf(d[3]) < 16;
    hide NumberOf, DigitOf;
  }

  lemma OctetsStep(d: Text, rest: seq<Text>)
    requires |d| == 4
    ensures var (more, h) := (Octets(rest), [HexValue(d[0]), HexValue(d[1]), HexValue(d[2]), HexValue(d[3])]);
            Octets([d] + rest)
            == if h[0].None? || h[1].None? || h[2].None? || h[3].None? then Failure(SyntaxError)
               else if more.Failure? then more
               else Success([h[0].value * 16 + h[1].value, h[2].value * 16 + h[3].value] + more.value)
  {
    hide HexValue;
    assert ([d] + rest)[1..] == rest && ([d] + rest)[0] == d;
  }

  lemma AllFour(d: Text)
    requires |d| == 4
    ensures (forall x | x in d :: IsHexDigit(x))
            <==> IsHexDigit(d[0]) && IsHexDigit(d[1]) && IsHexDigit(d[2]) && IsHexDigit(d[3])
  {
    hide IsHexDigit;
    assert d == [d[0], d[1], d[2], d[3]];
  }

  /** Four digits are two octets, or an error if one of them is none. */
  lemma OctetsOfOne(d: Text, rest: seq<Text>)
    requires |d| == 4
    ensures var more := Octets(rest);
            Octets([d] + rest)
            == if !(forall x | x in d :: IsHexDigit(x)) then Failure(SyntaxError)
               else if more.Failure? then more
               else Success([NumberOf(d) / 256, NumberOf(d) % 256] + more.value)
  {
    hide *;
    OctetsStep(d, rest);
    AllFour(d);
    HexValueMeans(d[0]);
    HexValueMeans(d[1]);
    HexValueMeans(d[2]);
    HexValueMeans(d[3]);
    if forall x | x in d :: IsHexDigit(x) {
      TwoOctets(d);
    }
  }

  lemma PaddedDigits(g: Text)
    requires 1 <= |g| <= 4
    ensures |Pad(g)| == 4 && ((forall x | x in Pad(g) :: IsHexDigit(x)) <==> IsNumber(g))
  {
    PadMeans(g);
    assert forall x | x in g :: x in Pad(g);
    assert forall x | x in Pad(g) :: x in g || x == 48;
    hide Pad;
  }

  lemma OctetsOfGroup(g: Text, rest: seq<Text>)
    requires 1 <= |g| <= 4
    ensures var more := Octets(rest);
            Octets([Pad(g)] + rest)
            == if !IsNumber(g) then Failure(SyntaxError)
               else if more.Failure? then more
               else Success([NumberOf(g) / 256, NumberOf(g) % 256] + more.value)
  {
    hide Octets, Pad, NumberOf;
    PaddedDigits(g);
    OctetsOfOne(Pad(g), rest);
    if IsNumber(g) {
      PaddedValue(g);
    }
  }

  lemma ValuesStep(c: seq<Text>)
    requires c != []
    ensures AllNumbers(c) <==> IsNumber(c[0]) && AllNumbers(c[1..])
    ensures AllNumbers(c) ==> NumberOf(c[0]) < 0x1_0000
                              && Values(c) == [NumberOf(c[0]) / 256, NumberOf(c[0]) % 256] + Values(c[1..])
  {
    assert c == [c[0]] + c[1..];
    if IsNumber(c[0]) {
      NumberFits(c[0]);
    }
    hide IsNumber, NumberOf;
  }

  lemma ValuesBefore(c: seq<Text>, more: seq<byte>)
    requires c != [] && AllNumbers(c)
    ensures IsNumber(c[0]) && AllNumbers(c[1..]) && NumberOf(c[0]) < 0x1_0000
    ensures Values(c) + more == [NumberOf(c[0]) / 256, NumberOf(c[0]) % 256] + (Values(c[1..]) + more)
  {
    ValuesStep(c);
    SeqAssociative([NumberOf(c[0]) / 256, NumberOf(c[0]) % 256], Values(c[1..]), more);
  }

  lemma PadAllStep(c: seq<Text>, rest: seq<Text>)
    requires c != [] && AllChunks(c)
    ensures PadAll(c) + rest == [Pad(c[0])] + (PadAll(c[1..]) + rest)
    ensures 1 <= |c[0]| <= 4 && AllChunks(c[1..])
  {
    assert IsChunk(c[0]);
    hide IsChunk, Pad;
  }

  lemma NoGroups(rest: seq<Text>)
    ensures PadAll([]) + rest == rest && AllNumbers([])
    ensures var more := Octets(rest); more.Success? ==> Values([]) + more.value == more.value
  {
    hide Octets;
  }

  /** Groups of up to four characters: their values, or an error if one is no number. */
  lemma {:induction false} OctetsOfGroups(c: seq<Text>, rest: seq<Text>)
    requires AllChunks(c)
    ensures var more := Octets(rest);
            Octets(PadAll(c) + rest)
            == if !AllNumbers(c) then Failure(SyntaxError)
               else if more.Failure? then more
               else Success(Values(c) + more.value)
    decreases c
  {
    hide *;
    if c == [] {
      NoGroups(rest);
    } else {
      PadAllStep(c, rest);
      ValuesStep(c);
      OctetsOfGroup(c[0], PadAll(c[1..]) + rest);
      OctetsOfGroups(c[1..], rest);
      if AllNumbers(c) && Octets(rest).Success? {
        ValuesBefore(c, Octets(rest).value);
      }
    }
  }

  lemma {:induction false} OctetsOfZeros(n: nat, rest: seq<Text>)
    ensures var more := Octets(rest);
            Octets(Zeros(n) + rest)
            == if more.Failure? then more else Success(seq(2 * n, i => 0) + more.value)
    decreases n
  {
    if n == 0 {
      assert Zeros(n) + rest == rest;
      assert Octets(rest).Success? ==> seq(0, i => 0) + Octets(rest).value == Octets(rest).value;
    } else {
      assert Zeros(n) + rest == [FOUR_ZEROS] + (Zeros(n - 1) + rest);
      assert (Zeros(n) + rest)[1..] == Zeros(n - 1) + rest;
      assert HexValue(ZERO) == Some(0);
      OctetsOfZeros(n - 1, rest);
      if Octets(rest).Success? {
        var more := Octets(rest).value;
        assert [0, 0] + (seq(2 * (n - 1), i => 0) + more) == seq(2 * n, i => 0) + more;
      }
    }
  }

  /** A group of more than four characters is an error. */
  lemma {:induction false} CanonicalLong(chunks: seq<Text>, l: nat, done: seq<Text>, seen: bool)
    requires l <= 8 && exists i :: 0 <= i < |chunks| && |chunks[i]| > 4
    ensures Ipv6.Canonical(chunks, l, done, seen) == Failure(SyntaxError)
    decreases chunks
  {
    var i :| 0 <= i < |chunks| && |chunks[i]| > 4;
    if i > 0 {
      assert chunks[1..][i - 1] == chunks[i];
      hide Pad, Zeros;
      CanonicalLong(chunks[1..], l, done + Zeros(8 - l + 1), true);
      CanonicalLong(chunks[1..], l, done + [Pad(chunks[0])], seen);
    }
  }

  lemma LongIsNoNumber(c: seq<Text>, i: nat)
    requires i < |c| && IsGroup(c[i]) && !IsChunk(c[i])
    ensures |c[i]| > 4 && !AllNumbers(c)
  {
    assert c[i] in c && !IsNumber(c[i]);
  }

  /** What eight groups, or fewer, come to. */
  lemma {:induction false} AddressOfGroups(c: seq<Text>)
    requires AllGroups(c) && |c| <= 8
    ensures AddressOf(c) == if |c| == 8 && AllNumbers(c) then Success(Values(c)) else Failure(SyntaxError)
  {
    if AllChunks(c) {
      PlainGroups(c);
    } else {
      var i :| 0 <= i < |c| && !IsChunk(c[i]);
      LongIsNoNumber(c, i);
      CanonicalLong(c, |c|, [], false);
    }
  }

  lemma PlainGroups(c: seq<Text>)
    requires AllChunks(c) && |c| <= 8
    ensures AddressOf(c) == if |c| == 8 && AllNumbers(c) then Success(Values(c)) else Failure(SyntaxError)
  {
    hide Octets, Values, IsNumber, PadAll, AllChunks, AllNumbers;
    CanonicalPads(c, |c|, [], false, []);
    assert c + [] == c && [] + PadAll(c) == PadAll(c) && PadAll(c) + [] == PadAll(c);
    OctetsOfGroups(c, []);
    NoOctets();
    if AllNumbers(c) {
      assert Values(c) + [] == Values(c);
    }
  }

  lemma NoOctets()
    ensures Octets([]) == Success([])
  {
  }

  /** What such text means: eight numbers; nothing else. */
  lemma {:induction false} GroupsRead(c: seq<Text>, ignoreScope: bool)
    requires AllGroups(c) && c != []
    ensures FromTextResult(Join(c, COLON), ignoreScope)
            == if |c| == 8 && AllNumbers(c) then Success(Values(c)) else Failure(SyntaxError)
  {
    hide Join, ChunksOf, WithoutScope, Values, IsNumber, AddressOf, AllNumbers, AllGroups;
    JoinedChunks(c);
    NoScope(Join(c, COLON), ignoreScope);
    FullChunks(c);
    if |c| <= 8 {
      AddressOfGroups(c);
    }
  }

  /** Numbers around a gap that stands for at least one group. */
  lemma {:induction false} GapOfGroups(before: seq<Text>, after: seq<Text>)
    requires AllGroups(before) && AllGroups(after) && |before| + |after| <= 7
    ensures AddressOf(before + [[]] + after)
            == if AllNumbers(before) && AllNumbers(after)
               then Success(Values(before) + seq(2 * (8 - |before| - |after|), i => 0) + Values(after))
               else Failure(SyntaxError)
  {
    if AllChunks(before) && AllChunks(after) {
      PlainGap(before, after);
    } else {
      var chunks := before + [[]] + after;
      LongGroup(before, after);
      CanonicalLong(chunks, |chunks|, [], false);
    }
  }

  lemma PlainGap(before: seq<Text>, after: seq<Text>)
    requires AllChunks(before) && AllChunks(after) && |before| + |after| <= 7
    ensures AddressOf(before + [[]] + after)
            == if AllNumbers(before) && AllNumbers(after)
               then Success(Values(before) + seq(2 * (8 - |before| - |after|), i => 0) + Values(after))
               else Failure(SyntaxError)
  {
    hide *;
    GapFilled(before, after);
    var missing := 8 - |before| - |after|;
    var tail := Zeros(missing) + PadAll(after);
    assert PadAll(before) + Zeros(missing) + PadAll(after) == PadAll(before) + tail;
    OctetsOfGroups(before, tail);
    OctetsOfZeros(missing, PadAll(after));
    OctetsOfGroups(after, []);
    NoOctets();
    assert PadAll(after) + [] == PadAll(after);
    if AllNumbers(before) && AllNumbers(after) {
      var zeros := seq(2 * missing, i => 0);
      assert Values(after) + [] == Values(after);
      assert Values(before) + (zeros + Values(after)) == Values(before) + zeros + Values(after);
    }
  }

  lemma LongGroup(before: seq<Text>, after: seq<Text>)
    requires AllGroups(before) && AllGroups(after) && !(AllChunks(before) && AllChunks(after))
    ensures exists i :: 0 <= i < |before + [[]] + after| && |(before + [[]] + after)[i]| > 4
    ensures !(AllNumbers(before) && AllNumbers(after))
  {
    var chunks := before + [[]] + after;
    if !AllChunks(before) {
      var i :| 0 <= i < |before| && !IsChunk(before[i]);
      LongIsNoNumber(before, i);
      assert chunks[i] == before[i];
    } else {
      var i :| 0 <= i < |after| && !IsChunk(after[i]);
      LongIsNoNumber(after, i);
      assert chunks[|before| + 1 + i] == after[i];
    }
  }

  /** ... and with a double colon: at most seven numbers, and zeros for those that are missing. */
  lemma {:induction false} GapNumbersRead(before: seq<Text>, after: seq<Text>, ignoreScope: bool)
    requires AllGroups(before) && AllGroups(after) && before + after != []
    ensures var missing := 8 - |before| - |after|;
            FromTextResult(Join(before, COLON) + DOUBLE + Join(after, COLON), ignoreScope)
            == if missing >= 1 && AllNumbers(before) && AllNumbers(after)
               then Success(Values(before) + seq(2 * missing, i => 0) + Values(after))
               else Failure(SyntaxError)
  {
    var text := Join(before, COLON) + DOUBLE + Join(after, COLON);
    assert PERCENT !in text by {
      JoinLacks(before, COLON, PERCENT);
      JoinLacks(after, COLON, PERCENT);
    }
    hide Join, ChunksOf, WithoutScope, Values, IsNumber, AddressOf, AllNumbers, AllGroups;
    NoScope(text, ignoreScope);
    GapChunks(before, after);
    if |before| + |after| <= 7 {
      GapOfGroups(before, after);
    }
  }

  // ---------- Which texts are IPv4 addresses ----------

  /** Joining undoes splitting, and no part has the separator in it. */
  lemma {:induction false} JoinSplit(text: Text, sep: byte)
    ensures Join(Split(text, sep), sep) == text && Without(Split(text, sep), sep)
    decreases text
  {
    if text != [] {
      JoinSplit(text[1..], sep);
      var rest := Split(text[1..], sep);
      if |rest| > 1 {
        assert ([[text[0]] + rest[0]] + rest[1..])[1..] == rest[1..];
      }
      assert text == [text[0]] + text[1..];
    }
  }

  /** A number from 0 to 255 without leading zeros is written in one way only. */
  lemma OctetWritten(part: Text)
    requires IsOctet(part)
    ensures part == Decimal(DecimalValue(part))
  {
    var n := |part|;
    var (a, b) := (part[..n - 1], part[n - 1]);
    if n > 1 {
      var (c, d) := (a[..n - 2], a[n - 2]);
      assert DecimalValue(part) == DecimalValue(a) * 10 + (b - 48);
      assert DecimalValue(a) == DecimalValue(c) * 10 + (d - 48);
      if n > 2 {
        assert DecimalValue(c) == DecimalValue(c[..n - 3]) * 10 + (c[n - 3] - 48);
      }
    }
  }

  /** A text is an IPv4 address exactly when it is the text of one, four numbers from 0 to 255 without
      leading zeros. */
  lemma Ipv4Exactly(text: Text, a: seq<byte>)
    ensures Ipv4Address(text) == Success(a) <==> |a| == 4 && text == Ipv4Text(a)
  {
    if |a| == 4 {
      Ipv4RoundTrip(a);
    }
    var p := Split(text, DOT);
    if |p| == 4 && Ipv4Address(text).Success? {
      OctetWritten(p[0]);
      OctetWritten(p[1]);
      OctetWritten(p[2]);
      OctetWritten(p[3]);
      JoinSplit(text, DOT);
      assert p == [p[0], p[1], p[2], p[3]];
    }
  }
}
