/** Which octets are a message: none can be added to one, and none cut off. */
module Reading {
  import opened Wrappers
  import opened Names
  import opened Wire
  import opened Records
  import opened Renderer
  import opened Messages

  lemma NameStays(w: seq<byte>, more: seq<byte>, pos: nat)
    requires ReadName(w, pos).Success?
    ensures ReadName(w + more, pos) == ReadName(w, pos) && ReadName(w, pos).value.1 <= |w|
  {
    WalkShape(w, |w|, pos, pos);
    WalkFrame(w, |w|, w + more, |w + more|, pos, pos);
    hide WalkFrom;
  }

  lemma QuestionStays(w: seq<byte>, more: seq<byte>, pos: nat)
    requires ReadQuestion(w, pos).Success?
    ensures ReadQuestion(w + more, pos) == ReadQuestion(w, pos)
  {
    NameStays(w, more, pos);
    hide ReadName, AskedOf;
    var p := ReadName(w, pos).value.1;
    assert (w + more)[p..p + 4] == w[p..p + 4];
  }

  lemma RecordStays(w: seq<byte>, more: seq<byte>, pos: nat)
    requires ReadRecord(w, pos).Success?
    ensures ReadRecord(w + more, pos) == ReadRecord(w, pos)
  {
    NameStays(w, more, pos);
    hide ReadName, FieldsOf;
    var p := ReadName(w, pos).value.1;
    assert (w + more)[p..p + 10] == w[p..p + 10];
    var n := FieldsOf(w[p..p + 10]).rdlen;
    assert (w + more)[p + 10..p + 10 + n] == w[p + 10..p + 10 + n];
  }

  lemma {:induction false} QuestionsStay(w: seq<byte>, more: seq<byte>, pos: nat, n: nat, section: seq<RRset>)
    requires ReadQuestions(w, pos, n, section).Success?
    ensures ReadQuestions(w + more, pos, n, section) == ReadQuestions(w, pos, n, section)
    decreases n
  {
    hide ReadQuestion;
    if n > 0 {
      QuestionStays(w, more, pos);
      var (q, p) := ReadQuestion(w, pos).value;
      QuestionsStay(w, more, p, n - 1, section + [q]);
    }
  }

  lemma {:induction false} RecordsStay(w: seq<byte>, more: seq<byte>, pos: nat, n: nat, section: seq<RRset>)
    requires ReadRecords(w, pos, n, section).Success?
    ensures ReadRecords(w + more, pos, n, section) == ReadRecords(w, pos, n, section)
    decreases n
  {
    hide ReadRecord, AddRecord;
    if n > 0 {
      RecordStays(w, more, pos);
      var (rec, p) := ReadRecord(w, pos).value;
      RecordsStay(w, more, p, n - 1, AddRecord(section, rec));
    }
  }

  /** A message with something after it is no message, for that reason. */
  lemma {:induction false} NothingAdded(w: seq<byte>, more: seq<byte>)
    requires ReadMessage(w).Success? && more != []
    ensures ReadMessage(w + more) == Failure(TrailingJunk)
  {
    hide ReadQuestions, ReadRecords, Opcode;
    assert forall i | 0 <= i < |w| :: (w + more)[i] == w[i];
    QuestionsStay(w, more, HEADER_SIZE, Read16(w, 4), []);
    var (question, p1) := ReadQuestions(w, HEADER_SIZE, Read16(w, 4), []).value;
    RecordsStay(w, more, p1, Read16(w, 6), []);
    var (answer, p2) := ReadRecords(w, p1, Read16(w, 6), []).value;
    RecordsStay(w, more, p2, Read16(w, 8), []);
    var (authority, p3) := ReadRecords(w, p2, Read16(w, 8), []).value;
    RecordsStay(w, more, p3, Read16(w, 10), []);
  }

  /** Nor is a message that has been cut off. */
  lemma {:induction false} NothingCutOff(w: seq<byte>, n: nat)
    requires ReadMessage(w).Success? && n < |w|
    ensures ReadMessage(w[..n]).Failure?
  {
    hide ReadMessage;
    assert w == w[..n] + w[n..];
    if ReadMessage(w[..n]).Success? {
      NothingAdded(w[..n], w[n..]);
    }
  }

  predicate NotOfHeader(error: DnsError) {
    error != ShortHeader && error != TrailingJunk
  }

  lemma {:induction false} QuestionErrors(w: seq<byte>, pos: nat, n: nat, section: seq<RRset>)
    ensures var r := ReadQuestions(w, pos, n, section); r.Failure? ==> NotOfHeader(r.error)
    decreases n
  {
    DecodedShape(w, |w|, pos);
    hide NameAt, WalkFrom, AskedOf;
    if n > 0 && ReadQuestion(w, pos).Success? {
      var (q, p) := ReadQuestion(w, pos).value;
      QuestionErrors(w, p, n - 1, section + [q]);
    }
  }

  lemma {:induction false} RecordErrors(w: seq<byte>, pos: nat, n: nat, section: seq<RRset>)
    ensures var r := ReadRecords(w, pos, n, section); r.Failure? ==> NotOfHeader(r.error)
    decreases n
  {
    DecodedShape(w, |w|, pos);
    hide NameAt, WalkFrom, FieldsOf, AddRecord;
    if n > 0 && ReadRecord(w, pos).Success? {
      var (rec, p) := ReadRecord(w, pos).value;
      RecordErrors(w, p, n - 1, AddRecord(section, rec));
    }
  }

  /** A header of twelve octets is all it takes not to be too short. */
  lemma ShortHeaderExactly(w: seq<byte>)
    ensures ReadMessage(w) == Failure(ShortHeader) <==> |w| < 12
  {
    hide ReadQuestions, ReadRecords;
    if |w| >= 12 {
      QuestionErrors(w, HEADER_SIZE, Read16(w, 4), []);
      var q := ReadQuestions(w, HEADER_SIZE, Read16(w, 4), []);
      if q.Success? {
        RecordErrors(w, q.value.1, Read16(w, 6), []);
        var a := ReadRecords(w, q.value.1, Read16(w, 6), []);
        if a.Success? {
          RecordErrors(w, a.value.1, Read16(w, 8), []);
          var u := ReadRecords(w, a.value.1, Read16(w, 8), []);
          if u.Success? {
            RecordErrors(w, u.value.1, Read16(w, 10), []);
          }
        }
      }
    }
  }
}
