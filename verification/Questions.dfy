/** The questions that messages carry. */
module Questions {
  import opened Wrappers
  import opened RdataTypes
  import opened ZoneStore
  import opened Serials
  import opened Xfr
  import opened Transfers
  import opened Replies
  import opened Cuts

  function Bare(ms: seq<Message>): seq<Message> {
    seq(|ms|, i requires 0 <= i < |ms| => Plain(ms[i].answer))
  }

  /** No error code, and no question or the one that was asked, in any message. */
  predicate Headers(z: ZoneInfo, kind: Kind, ms: seq<Message>) {
    forall i | 0 <= i < |ms| :: Suits(z, kind, ms[i])
  }

  /** The start of a whole zone in answer to an incremental request, before the SOA comes again. */
  predicate Underway(z: ZoneInfo, n: serial, rs: seq<RRset>) {
    && |rs| > 1 && OriginSoa(z, rs[0]) && Serial(rs[0]) != n && !Less(Serial(rs[0]), n)
    && NoOriginSoa(z, rs[1..]) && Apply(z, false, map[], rs[1..]).Success?
  }

  /** A message repeats the question when the answer has turned out to be a whole zone. */
  predicate AskedAgain(z: ZoneInfo, n: serial, ms: seq<Message>) {
    exists k | 0 < k < |ms| :: ms[0].answer != [] && ms[k].question != [] && Underway(z, n, Concat(ms[..k]))
  }

  lemma {:induction false} KindStays(z: ZoneInfo, s: State, rs: seq<RRset>)
    requires Ready(s) && !s.expectingSoa
    ensures Steps(z, s, rs).state.kind == s.kind
    decreases rs
  {
    if rs != [] && Step(z, s, rs[0]).error.None? {
      KindStays(z, Step(z, s, rs[0]).state, rs[1..]);
    }
  }

  lemma {:induction false} AxfrUnderway(z: ZoneInfo, s: State, rs: seq<RRset>)
    requires Ready(s) && !s.done && !s.expectingSoa && !s.deleteMode && s.kind == AXFR
    ensures var o := Steps(z, s, rs);
            o.error.None? && !o.state.done
            <==> NoOriginSoa(z, rs) && Apply(z, false, s.txn.value, rs).Success?
    decreases rs
  {
    hide AddTo, ReplaceIn, SameRRset;
    if rs != [] {
      assert NoOriginSoa(z, rs) <==> !OriginSoa(z, rs[0]) && NoOriginSoa(z, rs[1..]) by {
        assert rs == [rs[0]] + rs[1..];
      }
      var o := Step(z, s, rs[0]);
      if o.error.None? {
        if o.state.done {
          DoneSteps(z, o.state, rs[1..]);
        } else {
          AxfrUnderway(z, o.state, rs[1..]);
        }
      }
    }
  }

  lemma {:induction false} UnderwayExactly(z: ZoneInfo, n: serial, zone: Store, commits: nat, rs: seq<RRset>)
    ensures var o := Process(z, Start(IXFR, n, zone, commits), Plain(rs), false);
            o.error.None? && !o.state.done && o.state.kind == AXFR <==> Underway(z, n, rs)
  {
    var first := FirstRecord(z, Open(Start(IXFR, n, zone, commits)), rs, false);
    if first.error.None? && !first.state.done && |rs| > 1 {
      if OriginSoa(z, rs[1]) {
        assert !NoOriginSoa(z, rs[1..]) by {
          assert rs[1..][0] == rs[1];
        }
        hide ReplaceIn, SameRRset;
        var o := Step(z, first.state, rs[1]);
        if o.error.None? {
          KindStays(z, o.state, rs[2..]);
          assert rs[1..][1..] == rs[2..];
        }
      } else {
        FallBackSteps(z, first.state, rs[1..]);
        KindStays(z, FallBack(first.state), rs[1..]);
        AxfrUnderway(z, FallBack(first.state), rs[1..]);
      }
    }
  }

  lemma {:induction false} NoQuestionError(z: ZoneInfo, s: State, rs: seq<RRset>)
    requires Ready(s)
    ensures Steps(z, s, rs).error != Some(WrongQuestionType)
    decreases rs
  {
    if rs != [] && Step(z, s, rs[0]).error.None? {
      NoQuestionError(z, Step(z, s, rs[0]).state, rs[1..]);
    }
  }

  lemma BareNoQuestionError(z: ZoneInfo, s: State, rs: seq<RRset>)
    ensures Process(z, s, Plain(rs), false).error != Some(WrongQuestionType)
  {
    var t := Open(s);
    if t.soa.Some? {
      NoQuestionError(z, t, rs);
    } else {
      var o := FirstRecord(z, t, rs, false);
      if o.error.None? {
        NoQuestionError(z, o.state, rs[1..]);
      }
    }
  }

  /** Message `k` carries a question and is read when the transfer is no longer of the kind asked for. */
  predicate Refused(z: ZoneInfo, kind: Kind, s: State, ms: seq<Message>, k: nat) {
    && k < |ms| && ms[k].question != []
    && var o := Run(z, s, Bare(ms[..k]), false);
    o.error.None? && !o.state.done && o.state.kind != kind
  }

  lemma RefusedLater(z: ZoneInfo, kind: Kind, s: State, ms: seq<Message>, k: nat)
    requires ms != [] && 0 < k
    ensures var o := Process(z, s, Plain(ms[0].answer), false);
            Refused(z, kind, s, ms, k)
            <==> o.error.None? && !o.state.done && Refused(z, kind, o.state, ms[1..], k - 1)
  {
    hide Process;
    if k < |ms| {
      assert ms[..k][1..] == ms[1..][..k - 1];
      assert Bare(ms[..k])[1..] == Bare(ms[1..][..k - 1]);
    }
  }

  /** Questions make a difference exactly to a run with such a message. */
  lemma {:induction false} QuestionsMatter(z: ZoneInfo, kind: Kind, s: State, ms: seq<Message>)
    requires !s.done && Headers(z, kind, ms)
    ensures if exists k :: Refused(z, kind, s, ms, k) then Run(z, s, ms, false).error == Some(WrongQuestionType)
            else Run(z, s, ms, false) == Run(z, s, Bare(ms), false)
    ensures Run(z, s, Bare(ms), false).error != Some(WrongQuestionType)
    decreases ms
  {
    if ms != [] {
      assert Bare(ms)[1..] == Bare(ms[1..]);
      var bare := Process(z, s, Plain(ms[0].answer), false);
      BareNoQuestionError(z, s, ms[0].answer);
      assert Bare(ms[..0]) == [];
      SuitsExactly(z, kind, ms[0]);
      assert Refused(z, kind, s, ms, 0) <==> ms[0].question != [] && s.kind != kind;
      assert if Refused(z, kind, s, ms, 0) then Process(z, s, ms[0], false).error == Some(WrongQuestionType)
             else Process(z, s, ms[0], false) == bare;
      hide Process, CheckHeader;
      forall k: nat | k > 0
        ensures Refused(z, kind, s, ms, k)
                <==> bare.error.None? && !bare.state.done && Refused(z, kind, bare.state, ms[1..], k - 1)
      {
        RefusedLater(z, kind, s, ms, k);
      }
      hide Refused;
      if bare.error.None? && !bare.state.done {
        QuestionsMatter(z, kind, bare.state, ms[1..]);
        if j: nat :| Refused(z, kind, bare.state, ms[1..], j) {
          assert Refused(z, kind, s, ms, j + 1);
        }
      }
    }
  }

  lemma {:induction false} ConcatBare(ms: seq<Message>)
    ensures Concat(Bare(ms)) == Concat(ms)
    decreases ms
  {
    if ms != [] {
      assert Bare(ms)[1..] == Bare(ms[1..]);
      ConcatBare(ms[1..]);
    }
  }

  /** When a run from the start reads message `k` as one of a whole zone. */
  lemma {:induction false} ReadAsWholeZone(z: ZoneInfo, kind: Kind, n: serial, zone: Store, commits: nat,
      ms: seq<Message>, k: nat)
    requires k < |ms|
    ensures Refused(z, kind, Start(kind, n, zone, commits), ms, k)
            <==> && kind == IXFR && 0 < k && ms[0].answer != [] && ms[k].question != []
                 && Underway(z, n, Concat(ms[..k]))
  {
    var s := Start(kind, n, zone, commits);
    var bare := Bare(ms[..k]);
    if k == 0 {
      assert bare == [];
    } else if ms[0].answer == [] {
      assert bare[0] == Plain([]);
      assert Process(z, s, bare[0], false).error.Some?;
    } else {
      ConcatBare(ms[..k]);
      RunCut(z, s, bare);
      if kind == IXFR {
        UnderwayExactly(z, n, zone, commits, Concat(ms[..k]));
        hide Run, Process, Underway;
      } else {
        var first := FirstRecord(z, Open(s), Concat(bare), false);
        if first.error.None? {
          KindStays(z, first.state, Concat(bare)[1..]);
        }
        hide Run, Underway;
      }
    }
  }

  /** Questions in the messages change nothing, with one exception: once the answer to an incremental
      request has turned out to be a whole zone, a message that still repeats the request's question is
      refused. */
  lemma {:induction false} QuestionAfterFallBack(z: ZoneInfo, kind: Kind, n: serial, zone: Store, commits: nat,
      ms: seq<Message>)
    requires Headers(z, kind, ms)
    ensures var (asked, bare) := (Run(z, Start(kind, n, zone, commits), ms, false),
                                  Run(z, Start(kind, n, zone, commits), Bare(ms), false));
            && (asked == bare <==> !(kind == IXFR && AskedAgain(z, n, ms)))
            && (asked != bare ==> asked.error == Some(WrongQuestionType))
  {
    var s := Start(kind, n, zone, commits);
    QuestionsMatter(z, kind, s, ms);
    forall k: nat | k < |ms|
      ensures Refused(z, kind, s, ms, k)
              <==> && kind == IXFR && 0 < k && ms[0].answer != [] && ms[k].question != []
                   && Underway(z, n, Concat(ms[..k]))
    {
      ReadAsWholeZone(z, kind, n, zone, commits, ms, k);
    }
    hide Run, Underway, Start;
    if AskedAgain(z, n, ms) && kind == IXFR {
      var k :| 0 < k < |ms| && ms[0].answer != [] && ms[k].question != [] && Underway(z, n, Concat(ms[..k]));
      assert Refused(z, kind, s, ms, k);
    }
  }

  /** The SOA and one datum in a message with the question, and then another message with it. */
  lemma AskingAgain()
    ensures var origin: Owner := [[]];
            var z := ZoneInfo(origin, 1);
            var soa: RRset := RRset_(origin, 1, SOA, 0, 300, [Rdata(2, [])]);
            var datum: RRset := RRset_(origin, 1, 1, 0, 300, [Rdata(0, [192, 0, 2, 1])]);
            var question := [Question(origin, 251)];
            var ms := [Message(0, question, [soa, datum]), Message(0, question, [soa])];
            && Headers(z, IXFR, ms) && AskedAgain(z, 1, ms)
            && Run(z, Start(IXFR, 1, map[], 0), ms, false).error == Some(WrongQuestionType)
  {
    var origin: Owner := [[]];
    var z := ZoneInfo(origin, 1);
    var soa: RRset := RRset_(origin, 1, SOA, 0, 300, [Rdata(2, [])]);
    var datum: RRset := RRset_(origin, 1, 1, 0, 300, [Rdata(0, [192, 0, 2, 1])]);
    var question := [Question(origin, 251)];
    var ms := [Message(0, question, [soa, datum]), Message(0, question, [soa])];
    assert ms[..1] == [ms[0]] && Concat([ms[0]]) == [soa, datum];
    assert [soa, datum][1..] == [datum] && AddTo(z, map[], datum).Success?;
    assert Apply(z, false, map[], [datum]).Success?;
    assert Underway(z, 1, Concat(ms[..1]));
    assert ms[1].question != [];
    assert AskedAgain(z, 1, ms);
    QuestionAfterFallBack(z, IXFR, 1, map[], 0, ms);
    hide Run, AskedAgain;
  }

  lemma NotAskedAgain(z: ZoneInfo, n: serial, ms: seq<Message>)
    requires |Concat(ms)| > 1 && OriginSoa(z, Concat(ms)[1])
    ensures !AskedAgain(z, n, ms)
  {
    forall k | 0 < k < |ms|
      ensures !Underway(z, n, Concat(ms[..k]))
    {
      var rs := Concat(ms[..k]);
      ConcatSplit(ms, k);
      if |rs| > 1 {
        assert rs[1..][0] == Concat(ms)[1];
      }
    }
  }
}
