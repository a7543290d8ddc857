/** Names as text: `to_text` and `from_text` of `dns/name.py`. Text is given as its ASCII octets. */
module NameText {
  import opened Wrappers
  import opened Names
  import opened Ascii

  const AT: byte := 64

  // The characters that are escaped by a backslash: " ( ) . ; \ @ $
  const ESCAPED: seq<byte> := [34, 40, 41, 46, 59, 92, 64, 36]

  // ---------- To text ----------

  function EscapedOctet(c: byte): seq<byte> {
    if c in ESCAPED then [BACKSLASH, c]
    else if 0x20 < c < 0x7F then [c]
    else [BACKSLASH] + ThreeDigits(c)
  }

  function Escaped(lbl: Label): seq<byte> {
    if lbl == [] then [] else EscapedOctet(lbl[0]) + Escaped(lbl[1..])
  }

  method Escapify(lbl: Label) returns (text: seq<byte>)
    ensures text == Escaped(lbl)
  {
    hide ThreeDigits;
    text := [];
    for i := 0 to |lbl|
      invariant text + Escaped(lbl[i..]) == Escaped(lbl)
    {
      var c := lbl[i];
      assert lbl[i..][1..] == lbl[i + 1..];
      assert text + (EscapedOctet(c) + Escaped(lbl[i + 1..])) == text + EscapedOctet(c) + Escaped(lbl[i + 1..]);
      if c in ESCAPED {
        text := text + [BACKSLASH, c];
      } else if c > 0x20 && c < 0x7F {
        text := text + [c];
      } else {
        text := text + ([BACKSLASH] + ThreeDigits(c));
      }
    }
  }

  /** The escaped labels with dots between them. */
  function Joined(labels: seq<Label>): seq<byte> {
    if labels == [] then []
    else if |labels| == 1 then Escaped(labels[0])
    else Escaped(labels[0]) + [DOT] + Joined(labels[1..])
  }

  function ToText(labels: seq<Label>, omitFinalDot: bool): seq<byte> {
    if labels == [] then [AT]
    else if labels == [[]] then [DOT]
    else Joined(if omitFinalDot && IsAbsolute(labels) then labels[..|labels| - 1] else labels)
  }

  // ---------- From text ----------

  /** The digits of an escape read so far, and their value. */
  datatype Escape = Escape(digits: nat, total: nat)

  /** The state of the loop over the text: finished labels, the label being read, and an escape
      that has begun. */
  datatype Scan = Scan(labels: seq<Label>, lbl: Label, escape: Option<Escape>)

  const SCAN_START := Scan([], [], None)

  function ScanOctet(s: Scan, c: byte): Result<Scan, DnsError> {
    if s.escape.Some? then
      var Escape(digits, total) := s.escape.value;
      if digits == 0 then
        if IsDigit(c) then Success(s.(escape := Some(Escape(1, c - 48))))
        else Success(s.(lbl := s.lbl + [c], escape := None))
      else if !IsDigit(c) then Failure(BadEscape)
      else
        var value := total * 10 + (c - 48);
        if digits + 1 != 3 then Success(s.(escape := Some(Escape(digits + 1, value))))
        else if value > 255 then Failure(EscapeTooBig)
        else Success(s.(lbl := s.lbl + [value], escape := None))
    else if c == DOT then
      if s.lbl == [] then Failure(EmptyLabel) else Success(s.(labels := s.labels + [s.lbl], lbl := []))
    else if c == BACKSLASH then Success(s.(escape := Some(Escape(0, 0))))
    else Success(s.(lbl := s.lbl + [c]))
  }

  function ScanText(s: Scan, text: seq<byte>): Result<Scan, DnsError>
    decreases text
  {
    if text == [] then Success(s)
    else
      var t := ScanOctet(s, text[0]);
      if t.Failure? then t else ScanText(t.value, text[1..])
  }

  function Construct(labels: seq<Label>): Result<seq<Label>, DnsError> {
    if NameError(labels).Some? then Failure(NameError(labels).value) else Success(labels)
  }

  function WithOrigin(labels: seq<Label>, origin: Option<seq<Label>>): seq<Label> {
    if !IsAbsolute(labels) && origin.Some? then labels + origin.value else labels
  }

  function ParseText(text: seq<byte>, origin: Option<seq<Label>>): Result<seq<Label>, DnsError> {
    if text == [AT] || text == [] then Construct(WithOrigin([], origin))
    else if text == [DOT] then Construct([[]])
    else
      var s := ScanText(SCAN_START, text);
      if s.Failure? then Failure(s.error)
      else if s.value.escape.Some? then Failure(BadEscape)
      else Construct(WithOrigin(s.value.labels + [s.value.lbl], origin))
  }

  method FromText(text: seq<byte>, origin: Option<seq<Label>>) returns (r: Result<seq<Label>, DnsError>)
    ensures r == ParseText(text, origin)
  {
    var labels: seq<Label> := [];
    var lbl: Label := [];
    var escaping := false;
    var edigits := 0;
    var total: nat := 0;
    var rest := if text == [AT] then [] else text;
    if rest != [] {
      if rest == [DOT] {
        var error := ValidateLabels([[]]);
        return if error.Some? then Failure(error.value) else Success([[]]);
      }
      for i := 0 to |rest|
        invariant ScanText(Scan(labels, lbl, if escaping then Some(Escape(edigits, total)) else None), rest[i..])
                  == ScanText(SCAN_START, rest)
      {
        var c := rest[i];
        assert rest[i..][1..] == rest[i + 1..];
        if escaping {
          if edigits == 0 {
            if IsDigit(c) {
              total := c - 48;
              edigits := edigits + 1;
            } else {
              lbl := lbl + [c];
              escaping := false;
            }
          } else {
            if !IsDigit(c) {
              return Failure(BadEscape);
            }
            total := total * 10;
            total := total + (c - 48);
            edigits := edigits + 1;
            if edigits == 3 {
              escaping := false;
              if total > 255 {
                return Failure(EscapeTooBig);
              }
              lbl := lbl + [total];
            }
          }
        } else if c == DOT {
          if |lbl| == 0 {
            return Failure(EmptyLabel);
          }
          labels := labels + [lbl];
          lbl := [];
        } else if c == BACKSLASH {
          escaping := true;
          edigits := 0;
          total := 0;
        } else {
          lbl := lbl + [c];
        }
      }
      if escaping {
        return Failure(BadEscape);
      }
      if |lbl| > 0 {
        labels := labels + [lbl];
      } else {
        labels := labels + [[]];
      }
    }
    if (|labels| == 0 || labels[|labels| - 1] != []) && origin.Some? {
      labels := labels + origin.value;
    }
    var error := ValidateLabels(labels);
    return if error.Some? then Failure(error.value) else Success(labels);
  }

  // ---------- The round trip ----------

  lemma ScanFirst(s: Scan, c: byte, rest: seq<byte>)
    ensures var t := ScanOctet(s, c);
            ScanText(s, [c] + rest) == if t.Failure? then t else ScanText(t.value, rest)
  {
    assert ([c] + rest)[1..] == rest;
  }

  /** A backslash, three digits of an octet: the octet. */
  lemma {:induction false} DigitsScanned(s: Scan, c: byte, rest: seq<byte>)
    requires s.escape.None?
    ensures ScanText(s, [BACKSLASH] + ThreeDigits(c) + rest) == ScanText(s.(lbl := s.lbl + [c]), rest)
  {
    var (a, b, d) := (48 + c / 100, 48 + c / 10 % 10, 48 + c % 10);
    assert (c / 100 * 10 + c / 10 % 10) * 10 + c % 10 == c;
    assert [BACKSLASH] + ThreeDigits(c) + rest == [BACKSLASH] + ([a] + ([b] + ([d] + rest)));
    hide ScanText;
    ScanFirst(s, BACKSLASH, [a] + ([b] + ([d] + rest)));
    ScanFirst(s.(escape := Some(Escape(0, 0))), a, [b] + ([d] + rest));
    ScanFirst(s.(escape := Some(Escape(1, c / 100))), b, [d] + rest);
    ScanFirst(s.(escape := Some(Escape(2, c / 100 * 10 + c / 10 % 10))), d, rest);
  }

  lemma {:induction false} OctetScanned(s: Scan, c: byte, rest: seq<byte>)
    requires s.escape.None?
    ensures ScanText(s, EscapedOctet(c) + rest) == ScanText(s.(lbl := s.lbl + [c]), rest)
  {
    hide ScanText, ThreeDigits;
    if c in ESCAPED {
      assert EscapedOctet(c) + rest == [BACKSLASH] + ([c] + rest);
      ScanFirst(s, BACKSLASH, [c] + rest);
      ScanFirst(s.(escape := Some(Escape(0, 0))), c, rest);
    } else if 0x20 < c < 0x7F {
      ScanFirst(s, c, rest);
    } else {
      DigitsScanned(s, c, rest);
    }
  }

  lemma {:induction false} LabelScanned(s: Scan, lbl: Label, rest: seq<byte>)
    requires s.escape.None?
    ensures ScanText(s, Escaped(lbl) + rest) == ScanText(s.(lbl := s.lbl + lbl), rest)
    decreases lbl
  {
    if lbl == [] {
      assert Escaped(lbl) + rest == rest && s.lbl + lbl == s.lbl;
    } else {
      var more := Escaped(lbl[1..]) + rest;
      assert Escaped(lbl) + rest == EscapedOctet(lbl[0]) + more;
      OctetScanned(s, lbl[0], more);
      LabelScanned(s.(lbl := s.lbl + [lbl[0]]), lbl[1..], rest);
      assert s.lbl + [lbl[0]] + lbl[1..] == s.lbl + lbl;
    }
  }

  /** A label and the dot after it. */
  lemma DottedScanned(before: seq<Label>, lbl: Label, rest: seq<byte>)
    requires lbl != []
    ensures ScanText(Scan(before, [], None), Escaped(lbl) + [DOT] + rest)
            == ScanText(Scan(before + [lbl], [], None), rest)
  {
    assert Escaped(lbl) + [DOT] + rest == Escaped(lbl) + ([DOT] + rest);
    assert [] + lbl == lbl;
    hide ScanText;
    LabelScanned(Scan(before, [], None), lbl, [DOT] + rest);
    ScanFirst(Scan(before, lbl, None), DOT, rest);
  }

  lemma {:induction false} LabelsScanned(before: seq<Label>, labels: seq<Label>)
    requires labels != [] && EmptyOnlyAtEnd(labels)
    ensures ScanText(Scan(before, [], None), Joined(labels))
            == Success(Scan(before + labels[..|labels| - 1], labels[|labels| - 1], None))
    decreases labels
  {
    var first := labels[0];
    if |labels| == 1 {
      assert Escaped(first) + [] == Escaped(first) && [] + first == first && before + labels[..0] == before;
      LabelScanned(Scan(before, [], None), first, []);
    } else {
      DottedScanned(before, first, Joined(labels[1..]));
      assert [first] + labels[1..][..|labels| - 2] == labels[..|labels| - 1];
      assert before + [first] + labels[1..][..|labels| - 2] == before + labels[..|labels| - 1];
      hide ScanText, Escaped;
      LabelsScanned(before + [first], labels[1..]);
    }
  }

  /** The text of a label is not mistaken for one of the special texts. */
  lemma NotSpecial(labels: seq<Label>)
    requires labels != [] && labels[0] != []
    ensures Joined(labels) != [] && Joined(labels)[0] != AT && Joined(labels)[0] != DOT
  {
    assert Escaped(labels[0])[0] == EscapedOctet(labels[0][0])[0];
  }

  lemma {:induction false} ParsedBack(labels: seq<Label>, origin: Option<seq<Label>>)
    requires labels != [] && labels[0] != [] && EmptyOnlyAtEnd(labels)
    ensures ParseText(Joined(labels), origin) == Construct(WithOrigin(labels, origin))
  {
    NotSpecial(labels);
    LabelsScanned([], labels);
    assert [] + labels[..|labels| - 1] + [labels[|labels| - 1]] == labels;
  }

  // ---------- Any text ----------

  /** Text is made of dots and of octets as they are, behind a backslash, or as three digits. */
  datatype Unit = Separator | AsIs(c: byte) | Quoted(c: byte) | Digits(a: byte, b: byte, c: byte)

  predicate UnitOk(u: Unit) {
    match u
    case Separator => true
    case AsIs(c) => c != 46 && c != 92
    case Quoted(c) => !(48 <= c <= 57)
    case Digits(a, b, c) => 48 <= a <= 57 && 48 <= b <= 57 && 48 <= c <= 57
  }

  function UnitText(u: Unit): seq<byte> {
    match u
    case Separator => [46]
    case AsIs(c) => [c]
    case Quoted(c) => [92, c]
    case Digits(a, b, c) => [92, a, b, c]
  }

  function UnitsText(units: seq<Unit>): seq<byte> {
    if units == [] then [] else UnitText(units[0]) + UnitsText(units[1..])
  }

  function NumberOf(a: byte, b: byte, c: byte): nat
    requires 48 <= a && 48 <= b && 48 <= c
  {
    (a - 48) * 100 + (b - 48) * 10 + (c - 48)
  }

  /** The labels that units spell after these finished labels and this begun one; or the first error. */
  function Spelled(before: seq<Label>, lbl: Label, units: seq<Unit>): Result<seq<Label>, DnsError>
    requires forall u | u in units :: UnitOk(u)
    decreases units
  {
    if units == [] then Success(before + [lbl])
    else
      assert UnitOk(units[0]);
      match units[0]
      case Separator => if lbl == [] then Failure(EmptyLabel) else Spelled(before + [lbl], [], units[1..])
      case AsIs(c) => Spelled(before, lbl + [c], units[1..])
      case Quoted(c) => Spelled(before, lbl + [c], units[1..])
      case Digits(a, b, c) =>
        if NumberOf(a, b, c) > 255 then Failure(EscapeTooBig)
        else Spelled(before, lbl + [NumberOf(a, b, c)], units[1..])
  }

  lemma UnitScanned(before: seq<Label>, lbl: Label, u: Unit, rest: seq<byte>)
    requires UnitOk(u)
    ensures var (scanned, begun) := (ScanText(Scan(before, lbl, None), UnitText(u) + rest), before + [lbl]);
            if u.Separator? then
              scanned == if lbl == [] then Failure(EmptyLabel) else ScanText(Scan(begun, [], None), rest)
            else if u.Digits? then
              scanned == if NumberOf(u.a, u.b, u.c) > 255 then Failure(EscapeTooBig)
                         else ScanText(Scan(before, lbl + [NumberOf(u.a, u.b, u.c)], None), rest)
            else scanned == ScanText(Scan(before, lbl + [u.c], None), rest)
  {
    hide ScanText;
    var (s, text) := (Scan(before, lbl, None), UnitText(u) + rest);
    ScanFirst(s, text[0], text[1..]);
    assert text == [text[0]] + text[1..];
    if u.Quoted? || u.Digits? {
      var s1 := Scan(before, lbl, Some(Escape(0, 0)));
      assert text[1..] == [text[1]] + text[2..];
      ScanFirst(s1, text[1], text[2..]);
      if u.Digits? {
        var s2 := Scan(before, lbl, Some(Escape(1, u.a - 48)));
        assert text[2..] == [text[2]] + text[3..] && text[3..] == [text[3]] + text[4..];
        ScanFirst(s2, text[2], text[3..]);
        ScanFirst(Scan(before, lbl, Some(Escape(2, (u.a - 48) * 10 + (u.b - 48)))), text[3], text[4..]);
        assert text[4..] == rest;
      } else {
        assert text[2..] == rest;
      }
    } else {
      assert text[1..] == rest;
    }
  }

  lemma {:induction false} UnitsScanned(before: seq<Label>, lbl: Label, units: seq<Unit>, rest: seq<byte>)
    requires forall u | u in units :: UnitOk(u)
    ensures var (spelled, scanned) := (Spelled(before, lbl, units),
                                       ScanText(Scan(before, lbl, None), UnitsText(units) + rest));
            if spelled.Failure? then scanned == Failure(spelled.error)
            else spelled.value != [] &&
                 var n := |spelled.value| - 1;
                 scanned == ScanText(Scan(spelled.value[..n], spelled.value[n], None), rest)
    decreases units
  {
    hide ScanText, UnitText, NumberOf;
    if units == [] {
      assert UnitsText(units) + rest == rest;
      assert (before + [lbl])[..|before|] == before;
    } else {
      var (u, more) := (units[0], UnitsText(units[1..]) + rest);
      assert UnitOk(u);
      assert UnitsText(units) + rest == UnitText(u) + more;
      UnitScanned(before, lbl, u, more);
      match u
      case Separator =>
        if lbl != [] {
          UnitsScanned(before + [lbl], [], units[1..], rest);
        }
      case AsIs(c) => UnitsScanned(before, lbl + [c], units[1..], rest);
      case Quoted(c) => UnitsScanned(before, lbl + [c], units[1..], rest);
      case Digits(a, b, c) =>
        if NumberOf(a, b, c) <= 255 {
          UnitsScanned(before, lbl + [NumberOf(a, b, c)], units[1..], rest);
        }
    }
  }

  /** An escape that is not finished: its digits, up to two, at the end of the text or before another
      octet. */
  predicate Broken(rest: seq<byte>) {
    && |rest| > 0 && rest[0] == 92
    && (|| |rest| == 1
        || (48 <= rest[1] <= 57 && (|rest| == 2 || !(48 <= rest[2] <= 57) || |rest| == 3 || !(48 <= rest[3] <= 57))))
  }

  lemma BrokenScanned(before: seq<Label>, lbl: Label, rest: seq<byte>)
    requires Broken(rest)
    ensures var scanned := ScanText(Scan(before, lbl, None), rest);
            scanned == Failure(BadEscape) || (scanned.Success? && scanned.value.escape.Some?)
  {
    var s := Scan(before, lbl, None);
    assert rest == [rest[0]] + rest[1..];
    ScanFirst(s, rest[0], rest[1..]);
    if |rest| > 1 {
      assert rest[1..] == [rest[1]] + rest[2..];
      ScanFirst(Scan(before, lbl, Some(Escape(0, 0))), rest[1], rest[2..]);
      if |rest| > 2 {
        assert rest[2..] == [rest[2]] + rest[3..];
        ScanFirst(Scan(before, lbl, Some(Escape(1, rest[1] - 48))), rest[2], rest[3..]);
        if |rest| > 3 && 48 <= rest[2] <= 57 {
          assert rest[3..] == [rest[3]] + rest[4..];
          ScanFirst(Scan(before, lbl, Some(Escape(2, (rest[1] - 48) * 10 + (rest[2] - 48)))), rest[3], rest[4..]);
        }
      }
    }
  }

  /** Any text is such units, and perhaps a broken escape. */
  lemma {:induction false} TextSplits(text: seq<byte>) returns (units: seq<Unit>, rest: seq<byte>)
    ensures text == UnitsText(units) + rest && (rest == [] || Broken(rest)) && forall u | u in units :: UnitOk(u)
    decreases |text|
  {
    if text == [] || Broken(text) {
      units, rest := [], text;
    } else {
      var u := if text[0] == 46 then Separator
               else if text[0] != 92 then AsIs(text[0])
               else if 48 <= text[1] <= 57 then Digits(text[1], text[2], text[3])
               else Quoted(text[1]);
      assert text == UnitText(u) + text[|UnitText(u)|..];
      var more;
      more, rest := TextSplits(text[|UnitText(u)|..]);
      units := [u] + more;
    }
  }

  /** Any text apart from the special ones: what its units spell, completed by the origin; or its first
      error, which a broken escape after them is too. */
  lemma {:induction false} TextMeans(units: seq<Unit>, rest: seq<byte>, origin: Option<seq<Label>>)
    requires (forall u | u in units :: UnitOk(u)) && (rest == [] || Broken(rest))
    requires var text := UnitsText(units) + rest; text != [] && text != [46] && text != [64]
    ensures var (spelled, parsed) := (Spelled([], [], units), ParseText(UnitsText(units) + rest, origin));
            if spelled.Failure? then parsed == Failure(spelled.error)
            else if rest != [] then parsed == Failure(BadEscape)
            else parsed == Construct(WithOrigin(spelled.value, origin))
  {
    UnitsScanned([], [], units, rest);
    hide UnitsText, Spelled, Construct, WithOrigin;
    var spelled := Spelled([], [], units);
    if spelled.Success? {
      var n := |spelled.value| - 1;
      assert spelled.value[..n] + [spelled.value[n]] == spelled.value;
      if rest != [] {
        BrokenScanned(spelled.value[..n], spelled.value[n], rest);
      }
    }
  }

  /** Any valid name, whatever octets its labels hold, is read back from its text octet for octet;
      and an absolute name from its text without the final dot, when the root is the origin. */
  lemma {:induction false} TextRoundTrip(labels: seq<Label>)
    requires ValidName(labels)
    ensures ParseText(ToText(labels, false), None) == Success(labels)
    ensures IsAbsolute(labels) ==> ParseText(ToText(labels, true), Some([[]])) == Success(labels)
  {
    if labels != [] && labels != [[]] {
      assert labels == [labels[0]] + labels[1..];
      assert labels[0] != [];
      ParsedBack(labels, None);
      if IsAbsolute(labels) {
        var short := labels[..|labels| - 1];
        assert short != [] && short[0] == labels[0];
        ParsedBack(short, Some([[]]));
        assert short + [[]] == labels;
      }
    }
  }

  /** Under an origin: an absolute name is read as it is, and a relative one completed, unless that is
      too long. */
  lemma {:induction false} TextUnderOrigin(labels: seq<Label>, origin: seq<Label>)
    requires ValidName(labels) && ValidName(origin)
    ensures ParseText(ToText(labels, false), Some(origin))
            == if IsAbsolute(labels) then Success(labels)
               else if WireLength(labels + origin) > 255 then Failure(NameTooLong)
               else Success(labels + origin)
  {
    if labels == [[]] {
      return;
    }
    if labels == [] {
      assert [] + origin == origin;
    } else {
      assert labels == [labels[0]] + labels[1..];
      ParsedBack(labels, Some(origin));
    }
    if !IsAbsolute(labels) {
      CompletedShape(labels, origin);
    }
  }

  /** No two names have the same text. */
  lemma TextIdentifies(a: seq<Label>, b: seq<Label>)
    requires ValidName(a) && ValidName(b) && ToText(a, false) == ToText(b, false)
    ensures a == b
  {
    TextRoundTrip(a);
    TextRoundTrip(b);
  }
}
