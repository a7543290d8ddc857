/** Records that are cut into messages without questions. */
module Cuts {
  import opened Wrappers
  import opened ZoneStore
  import opened Xfr
  import opened Transfers

  function Concat(ms: seq<Message>): seq<RRset> {
    if ms == [] then [] else ms[0].answer + Concat(ms[1..])
  }

  predicate AllPlain(ms: seq<Message>) {
    forall i | 0 <= i < |ms| :: ms[i].rcode == 0 && ms[i].question == []
  }

  lemma {:induction false} StepsAppend(z: ZoneInfo, s: State, a: seq<RRset>, b: seq<RRset>)
    requires Ready(s)
    ensures var o := Steps(z, s, a);
            Steps(z, s, a + b) == if o.error.Some? then o else Steps(z, o.state, b)
    decreases a
  {
    hide Step;
    if a == [] {
      assert a + b == b;
    } else {
      assert (a + b)[1..] == a[1..] + b;
      if Step(z, s, a[0]).error.None? {
        StepsAppend(z, Step(z, s, a[0]).state, a[1..], b);
      }
    }
  }

  lemma DoneSteps(z: ZoneInfo, s: State, rs: seq<RRset>)
    requires Ready(s) && s.done
    ensures Steps(z, s, rs) == Outcome(s, if rs == [] then None else Some(AnswersAfterFinalSoa))
  {
  }

  /** A message without a question is read like its records. */
  lemma ProcessLater(z: ZoneInfo, s: State, m: Message)
    requires Ready(s) && !s.done && CheckHeader(z, s.kind, m).None?
    ensures Process(z, s, m, false) == Steps(z, s, m.answer)
  {
  }

  /** Cutting loses at most the error that something follows the end. */
  predicate SameButTheRest(cut: Outcome, whole: Outcome) {
    && cut.state == whole.state
    && (cut.error == whole.error
        || (cut.error.None? && cut.state.done && whole.error == Some(AnswersAfterFinalSoa)))
  }

  lemma {:induction false} RunLater(z: ZoneInfo, s: State, ms: seq<Message>)
    requires Ready(s) && !s.done && AllPlain(ms)
    ensures SameButTheRest(Run(z, s, ms, false), Steps(z, s, Concat(ms)))
    decreases ms
  {
    if ms != [] {
      ProcessLater(z, s, ms[0]);
      hide Step, Process;
      StepsAppend(z, s, ms[0].answer, Concat(ms[1..]));
      var o := Steps(z, s, ms[0].answer);
      if o.error.None? {
        if o.state.done {
          DoneSteps(z, o.state, Concat(ms[1..]));
        } else {
          RunLater(z, o.state, ms[1..]);
        }
      }
    }
  }

  lemma {:induction false} ProcessFirst(z: ZoneInfo, s: State, m: Message, more: seq<RRset>)
    requires s.soa.None? && !s.done && CheckHeader(z, s.kind, m).None? && m.answer != []
    ensures var o := Process(z, s, m, false); o.error.None? ==> Ready(o.state)
    ensures var o := Process(z, s, m, false);
            Process(z, s, Plain(m.answer + more), false) == if o.error.Some? then o else Steps(z, o.state, more)
  {
    var t := Open(s);
    var o := FirstRecord(z, t, m.answer, false);
    assert o == FirstRecord(z, t, m.answer + more, false);
    if o.error.None? {
      StepsAppend(z, o.state, m.answer[1..], more);
      assert (m.answer + more)[1..] == m.answer[1..] + more;
    }
  }

  lemma {:induction false} RunCut(z: ZoneInfo, s: State, ms: seq<Message>)
    requires s.soa.None? && !s.done && ms != [] && ms[0].answer != [] && AllPlain(ms)
    ensures SameButTheRest(Run(z, s, ms, false), Process(z, s, Plain(Concat(ms)), false))
  {
    hide Step, Process, Steps;
    ProcessFirst(z, s, ms[0], Concat(ms[1..]));
    var o := Process(z, s, ms[0], false);
    if o.error.None? {
      if o.state.done {
        DoneSteps(z, o.state, Concat(ms[1..]));
      } else {
        RunLater(z, o.state, ms[1..]);
      }
    }
  }

  /** A run that has ended does not look at further messages. */
  lemma {:induction false} RunPrefix(z: ZoneInfo, s: State, ms: seq<Message>, k: nat, isUdp: bool)
    requires k <= |ms| && !s.done
    ensures var o := Run(z, s, ms[..k], isUdp);
            Run(z, s, ms, isUdp) == if o.error.Some? || o.state.done then o else Run(z, o.state, ms[k..], isUdp)
    decreases ms
  {
    hide Process;
    if k > 0 {
      assert ms[..k][1..] == ms[1..][..k - 1];
      assert ms[k..] == ms[1..][k - 1..];
      var o := Process(z, s, ms[0], isUdp);
      if o.error.None? && !o.state.done {
        RunPrefix(z, o.state, ms[1..], k - 1, isUdp);
      }
    } else {
      assert ms[..k] == [] && ms[k..] == ms;
    }
  }

  lemma {:induction false} ConcatSplit(ms: seq<Message>, k: nat)
    requires k <= |ms|
    ensures Concat(ms) == Concat(ms[..k]) + Concat(ms[k..])
    ensures Concat(ms[k..]) == [] ==> Concat(ms) == Concat(ms[..k])
    decreases ms
  {
    if k == 0 {
      assert ms[..k] == [] && ms[k..] == ms;
    } else {
      ConcatSplit(ms[1..], k - 1);
      assert ms[..k][1..] == ms[1..][..k - 1];
      assert ms[k..] == ms[1..][k - 1..];
    }
  }
}
