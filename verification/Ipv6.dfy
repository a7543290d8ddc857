/** IPv4 and IPv6 addresses as text: `dns/ipv4.py` and `dns/ipv6.py`. */
module Ipv6 {
  import opened Wrappers
  import opened Names
  import opened Ascii

  const PERCENT: byte := 37
  const COLON: byte := 58

  type Text = seq<byte>

  datatype SyntaxError = SyntaxError

  // ---------- Splitting and joining ----------

  function Split(text: Text, sep: byte): (parts: seq<Text>)
    ensures |parts| >= 1
  {
    if text == [] then [[]]
    else
      var rest := Split(text[1..], sep);
      if text[0] == sep then [[]] + rest else [[text[0]] + rest[0]] + rest[1..]
  }

  function Join(parts: seq<Text>, sep: byte): Text {
    if parts == [] then [] else if |parts| == 1 then parts[0] else parts[0] + [sep] + Join(parts[1..], sep)
  }

  predicate Without(parts: seq<Text>, sep: byte) {
    forall i | 0 <= i < |parts| :: sep !in parts[i]
  }

  lemma {:induction false} SplitFirst(part: Text, rest: Text, sep: byte)
    requires sep !in part
    ensures Split(part + [sep] + rest, sep) == [part] + Split(rest, sep)
    ensures Split(part, sep) == [part]
    decreases part
  {
    var text := part + [sep] + rest;
    if part == [] {
      assert text[1..] == rest;
    } else {
      assert text[1..] == part[1..] + [sep] + rest;
      SplitFirst(part[1..], rest, sep);
      assert [part[0]] + part[1..] == part;
    }
  }

  /** Splitting undoes joining, when the separator is in none of the parts. */
  lemma {:induction false} SplitJoin(parts: seq<Text>, sep: byte)
    requires parts != [] && Without(parts, sep)
    ensures Split(Join(parts, sep), sep) == parts
    decreases parts
  {
    if |parts| == 1 {
      SplitFirst(parts[0], [], sep);
    } else {
      SplitFirst(parts[0], Join(parts[1..], sep), sep);
      SplitJoin(parts[1..], sep);
    }
  }

  // ---------- Digits ----------

  function HexDigit(n: nat): byte
    requires n < 16
  {
    if n < 10 then ZERO + n else 87 + n
  }

  function HexValue(c: byte): Option<nat> {
    if 48 <= c <= 57 then Some(c - 48)
    else if 97 <= c <= 102 then Some(c - 87)
    else if 65 <= c <= 70 then Some(c - 55)
    else None
  }

  /** The four hexadecimal digits of two octets. */
  function Hex(a: byte, b: byte): Text {
    [HexDigit(a / 16), HexDigit(a % 16), HexDigit(b / 16), HexDigit(b % 16)]
  }

  /** Leading zeros taken off, but not the last digit. */
  function Strip(digits: Text): Text {
    if |digits| > 1 && digits[0] == ZERO then Strip(digits[1..]) else digits
  }

  function Pad(digits: Text): Text
    decreases 4 - |digits|
  {
    if |digits| < 4 then Pad([ZERO] + digits) else digits
  }

  function Decimal(b: byte): Text {
    if b < 10 then [ZERO + b]
    else if b < 100 then [ZERO + b / 10, ZERO + b % 10]
    else [ZERO + b / 100, ZERO + b / 10 % 10, ZERO + b % 10]
  }

  function DecimalValue(digits: Text): nat
    requires forall i | 0 <= i < |digits| :: IsDigit(digits[i])
  {
    if digits == [] then 0
    else
      var last := digits[|digits| - 1];
      assert IsDigit(last);
      DecimalValue(digits[..|digits| - 1]) * 10 + (last - 48)
  }

  // ---------- IPv4 ----------

  function Ipv4Text(a: seq<byte>): Text
    requires |a| == 4
  {
    Join([Decimal(a[0]), Decimal(a[1]), Decimal(a[2]), Decimal(a[3])], DOT)
  }

  predicate AllDigits(part: Text) {
    part != [] && forall i | 0 <= i < |part| :: IsDigit(part[i])
  }

  /** A decimal number from 0 to 255 without leading zeros. */
  predicate IsOctet(part: Text) {
    AllDigits(part) && !(|part| > 1 && part[0] == ZERO) && DecimalValue(part) <= 255
  }

  function Ipv4Address(text: Text): (r: Result<seq<byte>, SyntaxError>)
    ensures r.Success? ==> |r.value| == 4
  {
    var p := Split(text, DOT);
    if |p| != 4 || !IsOctet(p[0]) || !IsOctet(p[1]) || !IsOctet(p[2]) || !IsOctet(p[3]) then Failure(SyntaxError)
    else Success([DecimalValue(p[0]), DecimalValue(p[1]), DecimalValue(p[2]), DecimalValue(p[3])])
  }

  lemma DecimalPlain(b: byte)
    ensures DOT !in Decimal(b) && COLON !in Decimal(b) && NEWLINE !in Decimal(b) && PERCENT !in Decimal(b)
  {
  }

  lemma DecimalRead(b: byte)
    ensures IsOctet(Decimal(b)) && DecimalValue(Decimal(b)) == b
    ensures DOT !in Decimal(b) && COLON !in Decimal(b) && NEWLINE !in Decimal(b) && PERCENT !in Decimal(b)
  {
    DecimalPlain(b);
    var d := Decimal(b);
    if b < 10 {
      assert d[..0] == [];
    } else if b < 100 {
      assert d[..1] == [d[0]] && d[..1][..0] == [];
      assert DecimalValue([d[0]]) == b / 10;
    } else {
      assert d[..2] == [d[0], d[1]] && d[..2][..1] == [d[0]] && [d[0]][..0] == [];
      assert DecimalValue([d[0]]) == b / 100;
      assert DecimalValue([d[0], d[1]]) == b / 100 * 10 + b / 10 % 10;
    }
  }

  /** Every IPv4 address is read back from its text. */
  lemma Ipv4RoundTrip(a: seq<byte>)
    requires |a| == 4
    ensures Ipv4Address(Ipv4Text(a)) == Success(a)
  {
    DecimalRead(a[0]);
    DecimalRead(a[1]);
    DecimalRead(a[2]);
    DecimalRead(a[3]);
    SplitJoin([Decimal(a[0]), Decimal(a[1]), Decimal(a[2]), Decimal(a[3])], DOT);
    assert a == [a[0], a[1], a[2], a[3]];
  }

  // ---------- The run of zeros ----------

  const ZERO_CHUNK: Text := [ZERO]

  function Chunk(a: seq<byte>, i: nat): Text
    requires |a| == 16 && i < 8
  {
    Strip(Hex(a[2 * i], a[2 * i + 1]))
  }

  function Chunks(a: seq<byte>): (c: seq<Text>)
    requires |a| == 16
    ensures |c| == 8
  {
    seq(8, i requires 0 <= i < 8 => Chunk(a, i))
  }

  predicate ZeroRun(c: seq<Text>, s: nat, n: nat) {
    s + n <= |c| && forall k | s <= k < s + n :: c[k] == ZERO_CHUNK
  }

  /** The longest run of zeros, and of those the leftmost; nothing at 0 if there is none. */
  ghost predicate BestRun(c: seq<Text>, s: nat, n: nat) {
    && ZeroRun(c, s, n) && (n == 0 ==> s == 0)
    && forall t: nat, m: nat | ZeroRun(c, t, m) && m > 0 :: m < n || (m == n && s <= t)
  }

  method FindRun(c: seq<Text>) returns (bestStart: nat, bestLen: nat)
    requires |c| == 8
    ensures BestRun(c, bestStart, bestLen)
  {
    bestStart, bestLen := 0, 0;
    var start := -1;
    var lastWasZero := false;
    for i := 0 to 8
      invariant ZeroRun(c, bestStart, bestLen) && bestStart + bestLen <= i && (bestLen == 0 ==> bestStart == 0)
      invariant lastWasZero ==> 0 <= start < i && ZeroRun(c, start, i - start)
      invariant lastWasZero && start > 0 ==> c[start - 1] != ZERO_CHUNK
      invariant !lastWasZero && i > 0 ==> c[i - 1] != ZERO_CHUNK
      invariant lastWasZero ==> bestStart + bestLen <= start
      invariant forall t: nat, m: nat | ZeroRun(c, t, m) && m > 0 && t + m <= (if lastWasZero then start else i) ::
                  m < bestLen || (m == bestLen && bestStart <= t)
    {
      if c[i] != ZERO_CHUNK {
        if lastWasZero {
          var currentLen := i - start;
          if currentLen > bestLen {
            bestStart := start;
            bestLen := currentLen;
          }
          lastWasZero := false;
        }
      } else if !lastWasZero {
        start := i;
        lastWasZero := true;
      }
    }
    if lastWasZero {
      var currentLen := 8 - start;
      if currentLen > bestLen {
        bestStart := start;
        bestLen := currentLen;
      }
    }
  }

  // ---------- To text ----------

  const DOUBLE: Text := [COLON, COLON]
  const FFFF: Text := [102, 102, 102, 102]

  /** The text of an address whose run of n zeros from s is the one to leave out. */
  function TextWith(a: seq<byte>, s: nat, n: nat): Text
    requires |a| == 16 && s + n <= 8
  {
    var c := Chunks(a);
    if n <= 1 then Join(c, COLON)
    else if s == 0 && n == 6 then DOUBLE + Ipv4Text(a[12..])
    else if s == 0 && n == 5 && c[5] == FFFF then DOUBLE + FFFF + [COLON] + Ipv4Text(a[12..])
    else Join(c[..s], COLON) + DOUBLE + Join(c[s + n..], COLON)
  }

  method ToText(a: seq<byte>) returns (r: Option<Text>, ghost s: nat, ghost n: nat)
    ensures r.Some? <==> |a| == 16
    ensures r.Some? ==> BestRun(Chunks(a), s, n) && r.value == TextWith(a, s, n)
  {
    s, n := 0, 0;
    if |a| != 16 {
      return None, s, n;
    }
    var chunks: seq<Text> := [];
    for i := 0 to 8
      invariant chunks == Chunks(a)[..i]
    {
      chunks := chunks + [Strip(Hex(a[2 * i], a[2 * i + 1]))];
    }
    assert chunks == Chunks(a);
    var bestStart, bestLen := FindRun(chunks);
    s, n := bestStart, bestLen;
    var text: Text;
    if bestLen > 1 {
      if bestStart == 0 && (bestLen == 6 || (bestLen == 5 && chunks[5] == FFFF)) {
        var prefix := if bestLen == 6 then DOUBLE else DOUBLE + FFFF + [COLON];
        text := prefix + Ipv4Text(a[12..]);
      } else {
        text := Join(chunks[..bestStart], COLON) + DOUBLE + Join(chunks[bestStart + bestLen..], COLON);
      }
    } else {
      text := Join(chunks, COLON);
    }
    return Some(text), s, n;
  }

  // ---------- From text ----------

  predicate StartsWith(text: Text, part: Text) {
    part <= text
  }

  predicate EndsWith(text: Text, part: Text) {
    |part| <= |text| && text[|text| - |part|..] == part
  }

  function LastIndex(text: Text, c: byte): (i: Option<nat>)
    ensures i.None? ==> c !in text
    ensures i.Some? ==> i.value < |text| && text[i.value] == c && c !in text[i.value + 1..]
  {
    if text == [] then None
    else if text[|text| - 1] == c then Some(|text| - 1)
    else
      var i := LastIndex(text[..|text| - 1], c);
      assert text == text[..|text| - 1] + [text[|text| - 1]];
      i
  }

  // A dollar sign in a pattern matches at the end, and before a newline at the end.
  function BeforeFinalNewline(text: Text): Text {
    if text != [] && text[|text| - 1] == NEWLINE then text[..|text| - 1] else text
  }

  predicate DottedQuad(text: Text) {
    var parts := Split(text, DOT);
    |parts| == 4 && forall i | 0 <= i < 4 :: AllDigits(parts[i])
  }

  /** `(.*):(\d+\.\d+\.\d+\.\d+)$` */
  function Ipv4Ending(text: Text): Option<(Text, Text)> {
    var t := BeforeFinalNewline(text);
    var i := LastIndex(t, COLON);
    if i.Some? && DottedQuad(t[i.value + 1..]) && NEWLINE !in t[..i.value] then Some((t[..i.value], t[i.value + 1..]))
    else None
  }

  /** `.*::$` */
  predicate DoubleAtEnd(text: Text) {
    var t := BeforeFinalNewline(text);
    EndsWith(t, DOUBLE) && NEWLINE !in t[..|t| - 2]
  }

  /** A scope after a percent sign, dropped if it is to be ignored. */
  function WithoutScope(text: Text, ignoreScope: bool): Result<Text, SyntaxError> {
    if !ignoreScope then Success(text)
    else
      var parts := Split(text, PERCENT);
      if |parts| == 2 then Success(parts[0]) else if |parts| > 2 then Failure(SyntaxError) else Success(text)
  }

  /** One colon goes where zeros are left out at the start, or else at the end. */
  function Trimmed(u: Text): Text {
    if StartsWith(u, DOUBLE) then u[1..] else if DoubleAtEnd(u) then u[..|u| - 1] else u
  }

  /** The chunks that the text is made of, with an empty one where zeros are left out. */
  function ChunksOf(text: Text): Result<seq<Text>, SyntaxError> {
    if text == [] then Failure(SyntaxError)
    else if EndsWith(text, [COLON]) && !EndsWith(text, DOUBLE) then Failure(SyntaxError)
    else if StartsWith(text, [COLON]) && !StartsWith(text, DOUBLE) then Failure(SyntaxError)
    else
      var t := if text == DOUBLE then ZERO_CHUNK + DOUBLE else text;
      var quad := Ipv4Ending(t);
      if quad.Some? && Ipv4Address(quad.value.1).Failure? then Failure(SyntaxError)
      else
        var u := if quad.None? then t
                 else
                   var b := Ipv4Address(quad.value.1).value;
                   quad.value.0 + [COLON] + Hex(b[0], b[1]) + [COLON] + Hex(b[2], b[3]);
        Success(Split(Trimmed(u), COLON))
  }

  const FOUR_ZEROS: Text := [ZERO, ZERO, ZERO, ZERO]

  function Zeros(n: nat): seq<Text> {
    seq(n, i => FOUR_ZEROS)
  }

  /** The remaining chunks made four digits long, an empty one filled up to eight in all. */
  function Canonical(chunks: seq<Text>, l: nat, done: seq<Text>, seenEmpty: bool): Result<(seq<Text>, bool),
      SyntaxError>
    requires l <= 8
    decreases chunks
  {
    if chunks == [] then Success((done, seenEmpty))
    else if chunks[0] == [] then
      if seenEmpty then Failure(SyntaxError) else Canonical(chunks[1..], l, done + Zeros(8 - l + 1), true)
    else if |chunks[0]| > 4 then Failure(SyntaxError)
    else Canonical(chunks[1..], l, done + [Pad(chunks[0])], seenEmpty)
  }

  /** `binascii.unhexlify` of chunks of four digits. */
  function Octets(chunks: seq<Text>): Result<seq<byte>, SyntaxError> {
    if chunks == [] then Success([])
    else if |chunks[0]| != 4 then Failure(SyntaxError)
    else
      var d := [HexValue(chunks[0][0]), HexValue(chunks[0][1]), HexValue(chunks[0][2]), HexValue(chunks[0][3])];
      if d[0].None? || d[1].None? || d[2].None? || d[3].None? then Failure(SyntaxError)
      else
        var more :- Octets(chunks[1..]);
        Success([d[0].value * 16 + d[1].value, d[2].value * 16 + d[3].value] + more)
  }

  function AddressOf(chunks: seq<Text>): Result<seq<byte>, SyntaxError>
    requires |chunks| <= 8
  {
    var r :- Canonical(chunks, |chunks|, [], false);
    if |chunks| < 8 && !r.1 then Failure(SyntaxError) else Octets(r.0)
  }

  function FromTextResult(text: Text, ignoreScope: bool): Result<seq<byte>, SyntaxError> {
    var t :- WithoutScope(text, ignoreScope);
    var chunks :- ChunksOf(t);
    if |chunks| > 8 then Failure(SyntaxError) else AddressOf(chunks)
  }

  method FromText(text: Text, ignoreScope: bool) returns (r: Result<seq<byte>, SyntaxError>)
    ensures r == FromTextResult(text, ignoreScope)
  {
    hide WithoutScope, ChunksOf, Octets, Pad;
    var scoped := WithoutScope(text, ignoreScope);
    if scoped.Failure? {
      return Failure(scoped.error);
    }
    var split := ChunksOf(scoped.value);
    if split.Failure? {
      return Failure(split.error);
    }
    var chunks := split.value;
    var l := |chunks|;
    if l > 8 {
      return Failure(SyntaxError);
    }
    var seenEmpty := false;
    var canonical: seq<Text> := [];
    for i := 0 to l
      invariant Canonical(chunks[i..], l, canonical, seenEmpty) == Canonical(chunks, l, [], false)
    {
      var c := chunks[i];
      assert chunks[i..][1..] == chunks[i + 1..];
      if c == [] {
        if seenEmpty {
          return Failure(SyntaxError);
        }
        seenEmpty := true;
        canonical := canonical + Zeros(8 - l + 1);
      } else {
        if |c| > 4 {
          return Failure(SyntaxError);
        }
        canonical := canonical + [Pad(c)];
      }
    }
    if l < 8 && !seenEmpty {
      return Failure(SyntaxError);
    }
    return Octets(canonical);
  }

  // ---------- The round trip ----------

  /** Nothing in it has a meaning of its own. */
  predicate IsGroup(c: Text) {
    c != [] && COLON !in c && DOT !in c && NEWLINE !in c && PERCENT !in c
  }

  predicate IsChunk(c: Text) {
    IsGroup(c) && |c| <= 4
  }

  lemma ChunkRead(a: byte, b: byte)
    ensures IsChunk(Strip(Hex(a, b))) && Pad(Strip(Hex(a, b))) == Hex(a, b)
    ensures COLON !in Hex(a, b) && |Hex(a, b)| == 4 && IsChunk(Hex(a, b)) && Pad(Hex(a, b)) == Hex(a, b)
    ensures Strip(Hex(a, b)) == ZERO_CHUNK ==> Hex(a, b) == FOUR_ZEROS
  {
    var h := Hex(a, b);
    assert Strip(h[3..]) == h[3..] && |h[3..]| == 1;
    if h[2] == ZERO {
      assert h[2..][1..] == h[3..] && Strip(h[2..]) == h[3..] && Pad(h[3..]) == Pad(h[2..]) by {
        assert [ZERO] + h[3..] == h[2..];
      }
    } else {
      assert Strip(h[2..]) == h[2..];
    }
    if h[1] == ZERO {
      assert h[1..][1..] == h[2..] && Strip(h[1..]) == Strip(h[2..]) && Pad(h[2..]) == Pad(h[1..]) by {
        assert [ZERO] + h[2..] == h[1..];
      }
    } else {
      assert Strip(h[1..]) == h[1..];
    }
    if h[0] == ZERO {
      assert Strip(h) == Strip(h[1..]) && Pad(h[1..]) == Pad(h) by {
        assert [ZERO] + h[1..] == h;
      }
    }
  }

  lemma HexRead(a: byte, b: byte)
    ensures var h := Hex(a, b);
            && HexValue(h[0]) == Some(a / 16) && HexValue(h[1]) == Some(a % 16)
            && HexValue(h[2]) == Some(b / 16) && HexValue(h[3]) == Some(b % 16)
            && a / 16 * 16 + a % 16 == a && b / 16 * 16 + b % 16 == b
  {
  }

  /** The four digits of each pair of octets. */
  function Digits(a: seq<byte>): seq<Text>
    requires |a| % 2 == 0
  {
    if a == [] then [] else [Hex(a[0], a[1])] + Digits(a[2..])
  }

  lemma {:induction false} DigitsRead(a: seq<byte>)
    requires |a| % 2 == 0
    ensures Octets(Digits(a)) == Success(a)
    decreases a
  {
    if a != [] {
      HexRead(a[0], a[1]);
      hide Hex, HexValue;
      DigitsRead(a[2..]);
      assert a == [a[0], a[1]] + a[2..];
    }
  }

  lemma {:induction false} DigitsAt(a: seq<byte>, i: nat)
    requires |a| % 2 == 0 && 2 * i < |a|
    ensures |Digits(a)| == |a| / 2 && Digits(a)[i] == Hex(a[2 * i], a[2 * i + 1])
    decreases a
  {
    hide Hex;
    if i > 0 {
      DigitsAt(a[2..], i - 1);
    } else if |a| > 2 {
      DigitsAt(a[2..], 0);
    }
  }

  // ---------- From chunks to octets ----------

  function PadAll(chunks: seq<Text>): seq<Text> {
    if chunks == [] then [] else [Pad(chunks[0])] + PadAll(chunks[1..])
  }

  predicate AllChunks(chunks: seq<Text>) {
    forall i | 0 <= i < |chunks| :: IsChunk(chunks[i])
  }

  predicate AllGroups(chunks: seq<Text>) {
    forall i | 0 <= i < |chunks| :: IsGroup(chunks[i])
  }

  lemma {:induction false} CanonicalPads(chunks: seq<Text>, l: nat, done: seq<Text>, seen: bool, rest: seq<Text>)
    requires AllChunks(chunks) && l <= 8
    ensures Canonical(chunks + rest, l, done, seen) == Canonical(rest, l, done + PadAll(chunks), seen)
    decreases chunks
  {
    if chunks == [] {
      assert chunks + rest == rest && done + PadAll(chunks) == done;
    } else {
      assert (chunks + rest)[1..] == chunks[1..] + rest && (chunks + rest)[0] == chunks[0];
      assert IsChunk(chunks[0]);
      assert done + [Pad(chunks[0])] + PadAll(chunks[1..]) == done + PadAll(chunks);
      hide Pad, IsChunk;
      assert chunks[0] != [] && |chunks[0]| <= 4;
      CanonicalPads(chunks[1..], l, done + [Pad(chunks[0])], seen, rest);
    }
  }

  lemma CanonicalGap(after: seq<Text>, l: nat, done: seq<Text>)
    requires l <= 8
    ensures Canonical([[]] + after, l, done, false) == Canonical(after, l, done + Zeros(8 - l + 1), true)
    ensures Canonical([], l, done, true) == Success((done, true))
  {
    assert ([[]] + after)[1..] == after;
    hide Zeros;
  }

  /** An empty chunk stands for the zeros that are missing. */
  lemma {:induction false} GapFilled(before: seq<Text>, after: seq<Text>)
    requires AllChunks(before) && AllChunks(after) && |before| + |after| <= 7
    ensures AddressOf(before + [[]] + after)
            == Octets(PadAll(before) + Zeros(8 - |before| - |after|) + PadAll(after))
  {
    var l := |before| + 1 + |after|;
    var first := PadAll(before);
    var filled := first + Zeros(8 - l + 1);
    assert before + [[]] + after == before + ([[]] + after);
    assert [] + first == first && after + [] == after;
    hide Octets, PadAll, Zeros, Canonical, AllChunks;
    CanonicalPads(before, l, [], false, [[]] + after);
    CanonicalGap(after, l, first);
    CanonicalPads(after, l, filled, true, []);
    CanonicalGap([], l, filled + PadAll(after));
  }

  lemma NothingMissing(chunks: seq<Text>)
    requires AllChunks(chunks) && |chunks| == 8
    ensures AddressOf(chunks) == Octets(PadAll(chunks))
  {
    CanonicalPads(chunks, 8, [], false, []);
    assert chunks + [] == chunks && [] + PadAll(chunks) == PadAll(chunks);
    hide Octets, PadAll;
  }

  lemma {:induction false} PadAllAt(chunks: seq<Text>, i: nat)
    requires i < |chunks|
    ensures |PadAll(chunks)| == |chunks| && PadAll(chunks)[i] == Pad(chunks[i])
    decreases chunks
  {
    hide Pad;
    if i > 0 {
      PadAllAt(chunks[1..], i - 1);
    } else if |chunks| > 1 {
      PadAllAt(chunks[1..], 0);
    }
  }

  lemma {:induction false} PadAllLength(chunks: seq<Text>)
    ensures |PadAll(chunks)| == |chunks|
    decreases chunks
  {
    if chunks != [] {
      PadAllLength(chunks[1..]);
    }
  }

  /** Filling the run of zeros that was left out gives all the digits back. */
  lemma RunFilled(a: seq<byte>, s: nat, n: nat)
    requires |a| == 16 && ZeroRun(Chunks(a), s, n)
    ensures PadAll(Chunks(a)[..s]) + Zeros(n) + PadAll(Chunks(a)[s + n..]) == Digits(a)
  {
    var c := Chunks(a);
    var all := PadAll(c[..s]) + Zeros(n) + PadAll(c[s + n..]);
    PadAllLength(c[..s]);
    PadAllLength(c[s + n..]);
    DigitsAt(a, 0);
    forall i | 0 <= i < 8
      ensures all[i] == Digits(a)[i]
    {
      DigitsAt(a, i);
      ChunkRead(a[2 * i], a[2 * i + 1]);
      if i < s {
        PadAllAt(c[..s], i);
      } else if i < s + n {
        assert c[i] == ZERO_CHUNK;
      } else {
        PadAllAt(c[s + n..], i - s - n);
      }
    }
  }

  lemma ChunksAreChunks(a: seq<byte>)
    requires |a| == 16
    ensures AllChunks(Chunks(a))
  {
    forall i | 0 <= i < 8
      ensures IsChunk(Chunks(a)[i])
    {
      ChunkRead(a[2 * i], a[2 * i + 1]);
    }
  }

  // ---------- From text to chunks ----------

  lemma {:induction false} JoinAppend(a: seq<Text>, b: seq<Text>, sep: byte)
    requires a != [] && b != []
    ensures Join(a + b, sep) == Join(a, sep) + [sep] + Join(b, sep)
    decreases a
  {
    assert (a + b)[1..] == a[1..] + b;
    if |a| == 1 {
      assert a[1..] + b == b;
    } else {
      JoinAppend(a[1..], b, sep);
      assert a[0] + [sep] + (Join(a[1..], sep) + [sep] + Join(b, sep)) == Join(a, sep) + [sep] + Join(b, sep);
    }
  }

  lemma {:induction false} JoinLacks(parts: seq<Text>, sep: byte, x: byte)
    requires x != sep && Without(parts, x)
    ensures x !in Join(parts, sep)
    decreases parts
  {
    if |parts| > 1 {
      JoinLacks(parts[1..], sep, x);
    }
  }

  /** Chunks joined by colons begin and end with no colon, and hold nothing of what is looked for. */
  lemma {:induction false} JoinedChunks(c: seq<Text>)
    requires AllGroups(c) && c != []
    ensures var t := Join(c, COLON);
            && t != [] && t[0] != COLON && t[|t| - 1] != COLON
            && DOT !in t && NEWLINE !in t && PERCENT !in t
    decreases c
  {
    assert IsGroup(c[0]);
    JoinLacks(c, COLON, DOT);
    JoinLacks(c, COLON, NEWLINE);
    JoinLacks(c, COLON, PERCENT);
    if |c| > 1 {
      JoinedChunks(c[1..]);
    }
  }

  lemma NoQuad(text: Text)
    requires DOT !in text && NEWLINE !in text
    ensures Ipv4Ending(text).None? && BeforeFinalNewline(text) == text
  {
    var i := LastIndex(text, COLON);
    if i.Some? {
      SplitFirst(text[i.value + 1..], [], DOT);
    }
  }

  lemma NoScope(text: Text, ignoreScope: bool)
    requires PERCENT !in text
    ensures WithoutScope(text, ignoreScope) == Success(text)
  {
    SplitFirst(text, [], PERCENT);
  }

  lemma PlainChunks(text: Text)
    requires DOT !in text && NEWLINE !in text && text != [] && text != DOUBLE
    requires EndsWith(text, [COLON]) ==> EndsWith(text, DOUBLE)
    requires StartsWith(text, [COLON]) ==> StartsWith(text, DOUBLE)
    ensures ChunksOf(text) == Success(Split(Trimmed(text), COLON))
  {
    NoQuad(text);
    hide Split, Trimmed, Ipv4Ending, Ipv4Address, StartsWith, EndsWith;
  }

  lemma {:induction false} FullChunks(c: seq<Text>)
    requires AllGroups(c) && c != []
    ensures ChunksOf(Join(c, COLON)) == Success(c)
  {
    var t := Join(c, COLON);
    JoinedChunks(c);
    hide Join, Split, IsGroup;
    NoQuad(t);
    assert Trimmed(t) == t;
    PlainChunks(t);
    assert Without(c, COLON) by {
      ChunksLackColon(c);
    }
    SplitJoin(c, COLON);
  }

  lemma ChunksLackColon(c: seq<Text>)
    requires AllGroups(c)
    ensures Without(c, COLON) && Without(c + [[]], COLON) && Without([[]] + c, COLON)
  {
  }

  /** The double colon stands for an empty chunk, wherever it comes (alone, it is read as a zero and
      an empty chunk). */
  lemma {:induction false} GapChunks(before: seq<Text>, after: seq<Text>)
    requires AllGroups(before) && AllGroups(after) && before + after != []
    ensures ChunksOf(Join(before, COLON) + DOUBLE + Join(after, COLON)) == Success(before + [[]] + after)
  {
    if before == [] {
      GapFirst(after);
    } else if after == [] {
      GapLast(before);
    } else {
      GapInside(before, after);
    }
  }

  lemma {:induction false} GapFirst(after: seq<Text>)
    requires AllGroups(after) && after != []
    ensures ChunksOf(Join([], COLON) + DOUBLE + Join(after, COLON)) == Success([] + [[]] + after)
  {
    var j := Join(after, COLON);
    var text := DOUBLE + j;
    JoinedChunks(after);
    JoinAppend([[]], after, COLON);
    ChunksLackColon(after);
    assert Join([], COLON) + DOUBLE + j == text && [] + [[]] + after == [[]] + after;
    assert !EndsWith(text, [COLON]) by {
      assert text[|text| - 1..][0] == j[|j| - 1];
    }
    assert StartsWith(text, DOUBLE);
    assert Trimmed(text) == text[1..];
    assert text[1..] == [] + [COLON] + j;
    hide Split, Join, AllGroups, Trimmed, EndsWith;
    assert Join([[]], COLON) == [] by {
      EmptyJoin();
    }
    SplitJoin([[]] + after, COLON);
    PlainChunks(text);
  }

  lemma EmptyJoin()
    ensures Join([[]], COLON) == []
  {
  }

  lemma {:induction false} GapLast(before: seq<Text>)
    requires AllGroups(before) && before != []
    ensures ChunksOf(Join(before, COLON) + DOUBLE + Join([], COLON)) == Success(before + [[]] + [])
  {
    var j := Join(before, COLON);
    var text := j + DOUBLE;
    JoinedChunks(before);
    JoinAppend(before, [[]], COLON);
    ChunksLackColon(before);
    assert j + DOUBLE + Join([], COLON) == text && before + [[]] + [] == before + [[]];
    assert text[0] == j[0] && text[..|text| - 2] == j && text[|text| - 2..] == DOUBLE;
    NoQuad(text);
    assert text[..1] == [j[0]] && [COLON][0] == COLON && DOUBLE[0] == COLON;
    assert !StartsWith(text, DOUBLE) && DoubleAtEnd(text);
    assert Trimmed(text) == text[..|text| - 1] == j + [COLON] + [] == Join(before + [[]], COLON);
    hide Split, Join, AllGroups, Trimmed;
    SplitJoin(before + [[]], COLON);
    PlainChunks(text);
  }

  lemma {:induction false} GapInside(before: seq<Text>, after: seq<Text>)
    requires AllGroups(before) && AllGroups(after) && before != [] && after != []
    ensures ChunksOf(Join(before, COLON) + DOUBLE + Join(after, COLON)) == Success(before + [[]] + after)
  {
    var (i, j) := (Join(before, COLON), Join(after, COLON));
    var text := i + DOUBLE + j;
    JoinedChunks(before);
    JoinedChunks(after);
    JoinAppend([[]], after, COLON);
    JoinAppend(before, [[]] + after, COLON);
    ChunksLackColon(before);
    ChunksLackColon(after);
    assert before + ([[]] + after) == before + [[]] + after;
    assert text == i + [COLON] + ([] + [COLON] + j);
    assert text[0] == i[0] && text[|text| - 1] == j[|j| - 1];
    NoQuad(text);
    assert !StartsWith(text, DOUBLE) && !EndsWith(text, DOUBLE) && !EndsWith(text, [COLON]) by {
      assert text[|text| - 2..][1] == text[|text| - 1] == text[|text| - 1..][0];
    }
    assert Trimmed(text) == text;
    hide Split, Join, AllGroups, Trimmed;
    SplitJoin(before + [[]] + after, COLON);
    PlainChunks(text);
  }

  // ---------- Embedded IPv4 addresses ----------

  lemma QuadFacts(b: seq<byte>)
    requires |b| == 4
    ensures var q := Ipv4Text(b);
            && DottedQuad(q) && COLON !in q && NEWLINE !in q && PERCENT !in q && q != []
            && Ipv4Address(q) == Success(b)
  {
    var parts := [Decimal(b[0]), Decimal(b[1]), Decimal(b[2]), Decimal(b[3])];
    DecimalRead(b[0]);
    DecimalRead(b[1]);
    DecimalRead(b[2]);
    DecimalRead(b[3]);
    hide Decimal;
    SplitJoin(parts, DOT);
    JoinLacks(parts, DOT, COLON);
    JoinLacks(parts, DOT, NEWLINE);
    JoinLacks(parts, DOT, PERCENT);
    assert Join(parts, DOT) == parts[0] + [DOT] + Join(parts[1..], DOT);
    Ipv4RoundTrip(b);
  }

  lemma LastColon(text: Text, before: Text, after: Text)
    requires text == before + [COLON] + after && COLON !in after
    ensures LastIndex(text, COLON) == Some(|before|)
  {
    assert text[|before|] == COLON;
    var i := LastIndex(text, COLON);
    assert i.Some?;
    assert forall k | |before| < k < |text| :: text[k] == after[k - |before| - 1];
    assert forall k | i.value < k < |text| :: text[k] == text[i.value + 1..][k - i.value - 1];
  }

  lemma QuadEnding(prefix: Text, b: seq<byte>)
    requires |b| == 4 && NEWLINE !in prefix
    ensures Ipv4Ending(prefix + [COLON] + Ipv4Text(b)) == Some((prefix, Ipv4Text(b)))
  {
    hide DottedQuad, Ipv4Text, Ipv4Address, LastIndex;
    var q := Ipv4Text(b);
    var text := prefix + [COLON] + q;
    QuadFacts(b);
    LastColon(text, prefix, q);
    assert text[..|prefix|] == prefix && text[|prefix| + 1..] == q;
    assert text[|text| - 1] == q[|q| - 1];
  }

  /** A dotted quad is read as two chunks of four digits. */
  lemma QuadChunks(prefix: Text, b: seq<byte>)
    requires |b| == 4 && NEWLINE !in prefix && StartsWith(prefix + [COLON], DOUBLE)
    ensures var u := prefix + [COLON] + Hex(b[0], b[1]) + [COLON] + Hex(b[2], b[3]);
            ChunksOf(prefix + [COLON] + Ipv4Text(b)) == Success(Split(u[1..], COLON))
  {
    var q := Ipv4Text(b);
    var text := prefix + [COLON] + q;
    var u := prefix + [COLON] + Hex(b[0], b[1]) + [COLON] + Hex(b[2], b[3]);
    QuadFacts(b);
    QuadEnding(prefix, b);
    QuadEnds(prefix, q);
    QuadTrimmed(prefix, Hex(b[0], b[1]), Hex(b[2], b[3]));
    hide Ipv4Text, Ipv4Address, Ipv4Ending, Split, Hex, StartsWith, EndsWith, DottedQuad, Trimmed, DoubleAtEnd;
    assert ChunksOf(text) == Success(Split(Trimmed(u), COLON));
  }

  lemma QuadTrimmed(prefix: Text, x: Text, y: Text)
    requires StartsWith(prefix + [COLON], DOUBLE)
    ensures var u := prefix + [COLON] + x + [COLON] + y; Trimmed(u) == u[1..]
  {
    QuadStarts(prefix, x + [COLON] + y);
    assert prefix + [COLON] + (x + [COLON] + y) == prefix + [COLON] + x + [COLON] + y;
  }

  lemma QuadStarts(prefix: Text, rest: Text)
    requires StartsWith(prefix + [COLON], DOUBLE)
    ensures StartsWith(prefix + [COLON] + rest, DOUBLE)
  {
  }

  lemma QuadEnds(prefix: Text, q: Text)
    requires StartsWith(prefix + [COLON], DOUBLE) && q != [] && COLON !in q
    ensures var text := prefix + [COLON] + q;
            text != [] && text != DOUBLE && StartsWith(text, DOUBLE) && !EndsWith(text, [COLON])
  {
    var text := prefix + [COLON] + q;
    assert text[|text| - 1..][0] == q[|q| - 1];
    QuadStarts(prefix, q);
  }

  lemma JoinThree(a: Text, b: Text, c: Text)
    ensures Join([a, b, c], COLON) == a + [COLON] + (b + [COLON] + c)
  {
    assert [a, b, c][1..] == [b, c] && [b, c][1..] == [c];
    assert Join([b, c], COLON) == b + [COLON] + c;
  }

  lemma HexLacksColon(a: byte, b: byte)
    ensures COLON !in Hex(a, b) && COLON !in FFFF
  {
  }

  lemma {:induction false} EmbeddedChunks(a: seq<byte>)
    requires |a| == 16
    ensures ChunksOf(DOUBLE + Ipv4Text(a[12..])) == Success([] + [[]] + [Hex(a[12], a[13]), Hex(a[14], a[15])])
  {
    var (h6, h7) := (Hex(a[12], a[13]), Hex(a[14], a[15]));
    HexLacksColon(a[12], a[13]);
    HexLacksColon(a[14], a[15]);
    EmbeddedStart(h6, h7, Ipv4Text(a[12..]));
    hide Hex, ChunksOf, Ipv4Text, Join, Split, StartsWith;
    QuadChunks([COLON], a[12..]);
    SplitJoin([[], h6, h7], COLON);
    assert [] + [[]] + [h6, h7] == [[], h6, h7];
  }

  lemma EmbeddedStart(h6: Text, h7: Text, q: Text)
    ensures StartsWith([COLON] + [COLON], DOUBLE) && [COLON] + [COLON] + q == DOUBLE + q
    ensures ([COLON] + [COLON] + h6 + [COLON] + h7)[1..] == Join([[], h6, h7], COLON)
  {
    JoinThree([], h6, h7);
    hide Join;
    assert ([COLON] + [COLON] + h6 + [COLON] + h7)[1..] == [] + [COLON] + (h6 + [COLON] + h7);
  }

  lemma JoinFour(b: Text, c: Text, d: Text)
    ensures Join([[], b, c, d], COLON) == [COLON] + b + [COLON] + c + [COLON] + d
  {
    JoinThree(b, c, d);
    assert [[], b, c, d][1..] == [b, c, d];
    assert Join([[], b, c, d], COLON) == [] + [COLON] + (b + [COLON] + (c + [COLON] + d));
  }

  lemma {:induction false} MappedChunks(a: seq<byte>)
    requires |a| == 16
    ensures ChunksOf(DOUBLE + FFFF + [COLON] + Ipv4Text(a[12..]))
            == Success([] + [[]] + [FFFF, Hex(a[12], a[13]), Hex(a[14], a[15])])
  {
    var (h6, h7) := (Hex(a[12], a[13]), Hex(a[14], a[15]));
    HexLacksColon(a[12], a[13]);
    HexLacksColon(a[14], a[15]);
    MappedStart(h6, h7);
    hide Hex, ChunksOf, Ipv4Text, Join, Split, StartsWith;
    QuadChunks(DOUBLE + FFFF, a[12..]);
    SplitJoin([[], FFFF, h6, h7], COLON);
    assert [] + [[]] + [FFFF, h6, h7] == [[], FFFF, h6, h7];
  }

  lemma MappedStart(h6: Text, h7: Text)
    ensures StartsWith(DOUBLE + FFFF + [COLON], DOUBLE) && NEWLINE !in DOUBLE + FFFF
    ensures (DOUBLE + FFFF + [COLON] + h6 + [COLON] + h7)[1..] == Join([[], FFFF, h6, h7], COLON)
  {
    JoinFour(FFFF, h6, h7);
    hide Join;
    assert (DOUBLE + FFFF + [COLON] + h6 + [COLON] + h7)[1..] == [COLON] + FFFF + [COLON] + h6 + [COLON] + h7;
  }

  // ---------- The theorem ----------

  lemma {:induction false} FullTextRead(a: seq<byte>)
    requires |a| == 16
    ensures ChunksOf(Join(Chunks(a), COLON)) == Success(Chunks(a)) && AddressOf(Chunks(a)) == Success(a)
  {
    ChunksAreChunks(a);
    FullChunks(Chunks(a));
    NothingMissing(Chunks(a));
    RunFilled(a, 0, 0);
    assert Chunks(a)[..0] == [] && Chunks(a)[0..] == Chunks(a);
    assert PadAll([]) + Zeros(0) + PadAll(Chunks(a)) == PadAll(Chunks(a));
    DigitsRead(a);
  }

  lemma SliceChunks(c: seq<Text>, s: nat, n: nat)
    requires AllChunks(c) && s + n <= |c|
    ensures AllChunks(c[..s]) && AllChunks(c[s + n..]) && AllGroups(c[..s]) && AllGroups(c[s + n..])
  {
    hide IsGroup;
  }

  lemma RunInside(a: seq<byte>, s: nat, n: nat)
    requires |a| == 16 && ZeroRun(Chunks(a), s, n)
    ensures s + n <= |Chunks(a)| == 8
  {
  }

  lemma {:induction false} GapTextRead(a: seq<byte>, s: nat, n: nat)
    requires |a| == 16 && ZeroRun(Chunks(a), s, n) && n > 1
    ensures var c := Chunks(a);
            var chunks := ChunksOf(Join(c[..s], COLON) + DOUBLE + Join(c[s + n..], COLON));
            chunks.Success? && |chunks.value| <= 8 && AddressOf(chunks.value) == Success(a)
  {
    hide *;
    var c := Chunks(a);
    RunInside(a, s, n);
    ChunksAreChunks(a);
    RunFilled(a, s, n);
    DigitsRead(a);
    SliceChunks(c, s, n);
    if n == 8 {
      assert c[..s] == [] && c[s + n..] == [];
      AllZeroRead();
      assert Zeros(8) == [] + Zeros(8) + [] == Digits(a) by {
        EmptyPad();
      }
    } else {
      GapChunks(c[..s], c[s + n..]);
      GapFilled(c[..s], c[s + n..]);
    }
  }

  lemma EmptyPad()
    ensures PadAll([]) == []
  {
  }

  lemma DoubleChunks()
    ensures ChunksOf(DOUBLE) == Success([ZERO_CHUNK, []])
  {
    var u := ZERO_CHUNK + DOUBLE;
    NoQuad(u);
    assert u[..1] == ZERO_CHUNK && u[1..] == DOUBLE && !StartsWith(u, DOUBLE) && DoubleAtEnd(u);
    assert u[..2] == [ZERO, COLON] == ZERO_CHUNK + [COLON] + [];
    assert Trimmed(u) == u[..2];
    SplitFirst(ZERO_CHUNK, [], COLON);
    assert Split(u[..2], COLON) == [ZERO_CHUNK] + [[]] == [ZERO_CHUNK, []];
    assert DOUBLE[0..] == DOUBLE && EndsWith(DOUBLE, DOUBLE) && StartsWith(DOUBLE, DOUBLE);
    hide Split, Trimmed, Ipv4Ending, Ipv4Address, StartsWith, EndsWith, DoubleAtEnd;
  }

  /** Two colons alone. */
  lemma {:induction false} AllZeroRead()
    ensures var chunks := ChunksOf(Join([], COLON) + DOUBLE + Join([], COLON));
            chunks == Success([ZERO_CHUNK, []]) && AddressOf(chunks.value) == Octets(Zeros(8))
  {
    assert Join([], COLON) + DOUBLE + Join([], COLON) == DOUBLE;
    DoubleChunks();
    ZeroPadded();
    hide ChunksOf, Octets, AddressOf, PadAll, Pad, Join;
    GapFilled([ZERO_CHUNK], []);
    assert [ZERO_CHUNK] + [[]] + [] == [ZERO_CHUNK, []];
    assert [FOUR_ZEROS] + Zeros(7) + [] == Zeros(8);
  }

  lemma ZeroPadded()
    ensures AllChunks([ZERO_CHUNK]) && PadAll([ZERO_CHUNK]) == [FOUR_ZEROS] && PadAll([]) == []
  {
    ChunkRead(0, 0);
    assert Strip(Hex(0, 0)) == ZERO_CHUNK;
  }

  lemma TextHasNoPercent(a: seq<byte>, s: nat, n: nat)
    requires |a| == 16 && s + n <= 8
    ensures PERCENT !in TextWith(a, s, n)
  {
    var c := Chunks(a);
    ChunksAreChunks(a);
    QuadFacts(a[12..]);
    assert AllChunks(c[..s]) && AllChunks(c[s + n..]);
    NoPercent(c);
    NoPercent(c[..s]);
    NoPercent(c[s + n..]);
    hide Chunks, Join, Ipv4Text, AllChunks;
  }

  lemma NoPercent(c: seq<Text>)
    requires AllChunks(c)
    ensures PERCENT !in Join(c, COLON)
  {
    JoinLacks(c, COLON, PERCENT);
  }

  lemma {:induction false} EmbeddedRead(a: seq<byte>)
    requires |a| == 16 && ZeroRun(Chunks(a), 0, 6)
    ensures AddressOf([] + [[]] + [Hex(a[12], a[13]), Hex(a[14], a[15])]) == Success(a)
  {
    var after := [Hex(a[12], a[13]), Hex(a[14], a[15])];
    TailPadded(a, 6, after);
    GapRead(a, 6, after);
  }

  lemma {:induction false} MappedRead(a: seq<byte>)
    requires |a| == 16 && ZeroRun(Chunks(a), 0, 5) && Chunks(a)[5] == FFFF
    ensures AddressOf([] + [[]] + [FFFF, Hex(a[12], a[13]), Hex(a[14], a[15])]) == Success(a)
  {
    var after := [FFFF, Hex(a[12], a[13]), Hex(a[14], a[15])];
    ChunkRead(a[10], a[11]);
    TailPadded(a, 5, after);
    GapRead(a, 5, after);
  }

  /** Chunks that fill up to the same digits as the last ones of the address. */
  lemma {:induction false} TailPadded(a: seq<byte>, n: nat, after: seq<Text>)
    requires |a| == 16 && n <= 8 && |after| == 8 - n
    requires forall j | 0 <= j < |after| ::
               after[j] == Chunk(a, n + j) || after[j] == Hex(a[2 * (n + j)], a[2 * (n + j) + 1])
    ensures AllChunks(after) && PadAll(after) == PadAll(Chunks(a)[n..])
  {
    PadAllLength(after);
    PadAllLength(Chunks(a)[n..]);
    forall j | 0 <= j < |after|
      ensures IsChunk(after[j]) && PadAll(after)[j] == PadAll(Chunks(a)[n..])[j]
    {
      ChunkRead(a[2 * (n + j)], a[2 * (n + j) + 1]);
      PadAllAt(after, j);
      PadAllAt(Chunks(a)[n..], j);
    }
  }

  lemma {:induction false} GapRead(a: seq<byte>, n: nat, after: seq<Text>)
    requires |a| == 16 && ZeroRun(Chunks(a), 0, n) && n > 0 && |after| == 8 - n
    requires AllChunks(after) && PadAll(after) == PadAll(Chunks(a)[n..])
    ensures AddressOf([] + [[]] + after) == Success(a)
  {
    GapFilled([], after);
    RunFilled(a, 0, n);
    DigitsRead(a);
    assert Chunks(a)[..0] == [];
    hide AddressOf, Octets, Chunks, Digits, Zeros;
  }

  /** Every address is read back from its text, whichever run of zeros is left out of it; in particular
      from the text with the leftmost longest run left out. */
  lemma {:induction false} TextRoundTrip(a: seq<byte>, s: nat, n: nat, ignoreScope: bool)
    requires |a| == 16 && ZeroRun(Chunks(a), s, n)
    ensures FromTextResult(TextWith(a, s, n), ignoreScope) == Success(a)
  {
    var c := Chunks(a);
    TextHasNoPercent(a, s, n);
    NoScope(TextWith(a, s, n), ignoreScope);
    hide ChunksOf, WithoutScope, AddressOf, Join, Ipv4Text, Hex, Chunks;
    if n <= 1 {
      FullTextRead(a);
    } else if s == 0 && n == 6 {
      EmbeddedChunks(a);
      EmbeddedRead(a);
    } else if s == 0 && n == 5 && c[5] == FFFF {
      MappedChunks(a);
      MappedRead(a);
    } else {
      GapTextRead(a, s, n);
    }
  }
}
