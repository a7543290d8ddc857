/** How the records of a transfer are cut into messages. */
module Boundaries {
  import opened Wrappers
  import opened ZoneStore
  import opened Serials
  import opened Xfr
  import opened Transfers
  import opened Replies
  import opened Cuts
  import opened Questions

  // ---------- What a run has read ----------

  lemma {:induction false} RunLaterConsumes(z: ZoneInfo, s: State, ms: seq<Message>, isUdp: bool) returns (k: nat)
    requires Ready(s) && !s.done
    requires var o := Run(z, s, ms, isUdp); o.error.None? && o.state.done
    ensures k <= |ms| && Run(z, s, ms, isUdp) == Steps(z, s, Concat(ms[..k]))
    decreases ms
  {
    var m := ms[0];
    var o := Process(z, s, m, isUdp);
    assert o == Steps(z, s, m.answer);
    hide Step, Process;
    if o.state.done {
      k := 1;
      assert ms[..1] == [m];
      assert Concat([m]) == m.answer;
    } else {
      var j := RunLaterConsumes(z, o.state, ms[1..], isUdp);
      k := j + 1;
      assert ms[..k][1..] == ms[1..][..j];
      StepsAppend(z, s, m.answer, Concat(ms[1..][..j]));
    }
  }

  lemma ProcessFirstUdp(z: ZoneInfo, s: State, m: Message, isUdp: bool)
    requires s.soa.None? && Process(z, s, m, isUdp).error.None?
    ensures m.answer != [] && CheckHeader(z, s.kind, m).None?
    ensures Process(z, s, m, isUdp) == Process(z, s, m, false) == Process(z, s, Plain(m.answer), false)
  {
  }

  /** A run that ends without an error has read the records of its first messages. */
  lemma {:induction false} RunConsumes(z: ZoneInfo, s: State, ms: seq<Message>, isUdp: bool) returns (k: nat)
    requires s.soa.None? && !s.done
    requires var o := Run(z, s, ms, isUdp); o.error.None? && o.state.done
    ensures k <= |ms| && Run(z, s, ms, isUdp) == Process(z, s, Plain(Concat(ms[..k])), false)
  {
    hide Step, Process, Steps;
    ProcessFirstUdp(z, s, ms[0], isUdp);
    var o := Process(z, s, ms[0], isUdp);
    if o.state.done {
      k := 1;
      assert ms[..1] == [ms[0]];
      assert Concat([ms[0]]) == ms[0].answer;
    } else {
      ProcessFirst(z, s, ms[0], []);
      var j := RunLaterConsumes(z, o.state, ms[1..], isUdp);
      k := j + 1;
      assert ms[..k][1..] == ms[1..][..j];
      ProcessFirst(z, s, ms[0], Concat(ms[1..][..j]));
    }
  }

  lemma OnlyTheEndCommits(z: ZoneInfo, s: State, r: RRset)
    requires Ready(s) && !s.done
    ensures var o := Step(z, s, r);
            o.state.commits != s.commits ==> o.error.None? && o.state.done
  {
  }

  /** Records that commit do so when some first part of them has been read, without an error. */
  lemma {:induction false} StepsCommit(z: ZoneInfo, s: State, rs: seq<RRset>) returns (k: nat)
    requires Ready(s) && !s.done && Steps(z, s, rs).state.commits != s.commits
    ensures k <= |rs| && Steps(z, s, rs).state.done
    ensures Steps(z, s, rs[..k]) == Outcome(Steps(z, s, rs).state, None)
    decreases rs
  {
    hide Step;
    var o := Step(z, s, rs[0]);
    OnlyTheEndCommits(z, s, rs[0]);
    var j := 0;
    if o.state.done {
      DoneSteps(z, o.state, rs[1..]);
    } else {
      j := StepsCommit(z, o.state, rs[1..]);
    }
    k := j + 1;
    assert rs[..k] == [rs[0]] + rs[1..][..j];
    StepsFirst(z, s, rs[0], rs[1..][..j]);
  }

  lemma PrefixAfter(a: seq<RRset>, b: seq<RRset>, c: seq<RRset>)
    requires b <= c
    ensures a + b <= a + c
  {
  }

  lemma {:induction false} RunLaterCommit(z: ZoneInfo, s: State, ms: seq<Message>, isUdp: bool)
    returns (rs: seq<RRset>)
    requires Ready(s) && !s.done && Run(z, s, ms, isUdp).state.commits != s.commits
    ensures rs <= Concat(ms) && Steps(z, s, rs) == Outcome(Run(z, s, ms, isUdp).state, None)
    decreases ms
  {
    var (m, o) := (ms[0], Process(z, s, ms[0], isUdp));
    var t := Steps(z, s, m.answer);
    assert o.state == (if CheckHeader(z, s.kind, m).Some? then s else t.state);
    assert o.error.None? ==> t.error.None?;
    hide Step, Steps, Process, CheckHeader;
    if o.state.commits != s.commits {
      var k := StepsCommit(z, s, m.answer);
      rs := m.answer[..k];
    } else {
      assert o.error.None? && !o.state.done && o == t;
      var later := RunLaterCommit(z, t.state, ms[1..], isUdp);
      rs := m.answer + later;
      StepsAppend(z, s, m.answer, later);
    }
  }

  /** A first message that commits has got past its SOA. */
  lemma FirstReads(z: ZoneInfo, s: State, m: Message, isUdp: bool) returns (t: State)
    requires s.soa.None? && !s.done && Process(z, s, m, isUdp).state.commits != s.commits
    ensures m.answer != [] && FirstRecord(z, Open(s), m.answer, isUdp) == Outcome(t, None)
    ensures Ready(t) && !t.done && t.commits == s.commits && CheckHeader(z, s.kind, m).None?
    ensures Process(z, s, m, isUdp).state == Steps(z, t, m.answer[1..]).state
  {
    hide Step, CheckHeader, ReplaceIn;
    var first := FirstRecord(z, Open(s), m.answer, isUdp);
    t := first.state;
    if first.error.None? && t.done {
      DoneSteps(z, t, m.answer[1..]);
    }
  }

  lemma ReadAlone(z: ZoneInfo, s: State, rs: seq<RRset>, t: State)
    requires FirstRecord(z, Open(s), rs, false) == Outcome(t, None) && s.soa.None? && Ready(t)
    ensures Process(z, s, Plain(rs), false) == Steps(z, t, rs[1..])
  {
    hide Step, Steps, FirstRecord;
  }

  lemma {:induction false} FirstCommit(z: ZoneInfo, s: State, m: Message, isUdp: bool) returns (rs: seq<RRset>)
    requires s.soa.None? && !s.done && Process(z, s, m, isUdp).state.commits != s.commits
    ensures rs <= m.answer && Process(z, s, Plain(rs), false) == Outcome(Process(z, s, m, isUdp).state, None)
  {
    var t := FirstReads(z, s, m, isUdp);
    hide Step, Steps, Process, CheckHeader;
    var k := StepsCommit(z, t, m.answer[1..]);
    rs := m.answer[..k + 1];
    assert rs[1..] == m.answer[1..][..k];
    assert FirstRecord(z, Open(s), rs, false) == Outcome(t, None);
    hide FirstRecord, Open;
    ReadAlone(z, s, rs, t);
  }

  lemma {:induction false} CommittedStream(z: ZoneInfo, kind: Kind, n: serial, zone: Store, commits: nat,
      ms: seq<Message>, isUdp: bool)
    returns (rs: seq<RRset>)
    requires Run(z, Start(kind, n, zone, commits), ms, isUdp).state.commits != commits
    ensures rs <= Concat(ms)
    ensures Transferred(z, kind, n, zone, rs, Run(z, Start(kind, n, zone, commits), ms, isUdp).state.zone)
  {
    var s := Start(kind, n, zone, commits);
    RunUntorn(z, s, ms, isUdp, zone, commits);
    var o := Process(z, s, ms[0], isUdp);
    ProcessUntorn(z, s, ms[0], isUdp, zone, commits);
    hide Step, Process, Steps, Transferred;
    if o.state.commits != commits {
      rs := FirstCommit(z, s, ms[0], isUdp);
    } else {
      ProcessFirstUdp(z, s, ms[0], isUdp);
      ProcessFirst(z, s, ms[0], []);
      var later := RunLaterCommit(z, o.state, ms[1..], isUdp);
      rs := ms[0].answer + later;
      ProcessFirst(z, s, ms[0], later);
      PrefixAfter(ms[0].answer, later, Concat(ms[1..]));
    }
    TransferExact(z, kind, n, zone, commits, rs, Run(z, s, ms, isUdp).state.zone);
  }

  /** Whatever the messages, over UDP or TCP, and also when an error comes after: a transfer that
      commits has first read a stream that transfers exactly what it committed, from messages without an
      error code that are about this zone. */
  lemma {:induction false} CommittedRun(z: ZoneInfo, kind: Kind, n: serial, zone: Store, commits: nat,
      ms: seq<Message>, isUdp: bool)
    returns (rs: seq<RRset>, j: nat)
    requires Run(z, Start(kind, n, zone, commits), ms, isUdp).state.commits != commits
    ensures j <= |ms| && Run(z, Start(kind, n, zone, commits), ms[..j], isUdp)
                         == Run(z, Start(kind, n, zone, commits), ms, isUdp)
    ensures rs <= Concat(ms[..j]) && forall i | 0 <= i < j :: ForZone(z, ms[i])
    ensures Transferred(z, kind, n, zone, rs, Run(z, Start(kind, n, zone, commits), ms, isUdp).state.zone)
  {
    hide Run, Untorn, Transferred;
    StartUntorn(kind, n, zone, commits);
    j := CommittedReplies(z, Start(kind, n, zone, commits), ms, isUdp, zone, commits);
    rs := CommittedStream(z, kind, n, zone, commits, ms[..j], isUdp);
  }

  lemma StartUntorn(kind: Kind, n: serial, zone: Store, commits: nat)
    ensures Untorn(Start(kind, n, zone, commits), zone, commits)
  {
  }

  // ---------- Which streams are complete ----------

  /** The answer that there is nothing to transfer. */
  predicate UpToDate(z: ZoneInfo, kind: Kind, n: serial, rs: seq<RRset>) {
    kind == IXFR && |rs| == 1 && OriginSoa(z, rs[0]) && Serial(rs[0]) == n
  }

  ghost predicate Complete(z: ZoneInfo, kind: Kind, n: serial, zone: Store, rs: seq<RRset>) {
    UpToDate(z, kind, n, rs) || exists result :: Transferred(z, kind, n, zone, rs, result)
  }

  lemma {:induction false} DoneCommits(z: ZoneInfo, s: State, rs: seq<RRset>)
    requires Ready(s) && !s.done
    ensures Steps(z, s, rs).state.done ==> Steps(z, s, rs).state.commits == s.commits + 1
    decreases rs
  {
    if rs != [] && Step(z, s, rs[0]).error.None? {
      var t := Step(z, s, rs[0]).state;
      if t.done {
        DoneSteps(z, t, rs[1..]);
      } else {
        DoneCommits(z, t, rs[1..]);
      }
    }
  }

  /** The transfer is over after exactly these streams. */
  lemma {:induction false} CompleteExactly(z: ZoneInfo, kind: Kind, n: serial, zone: Store, commits: nat,
      rs: seq<RRset>)
    ensures var o := Process(z, Start(kind, n, zone, commits), Plain(rs), false);
            o.error.None? && o.state.done <==> Complete(z, kind, n, zone, rs)
  {
    var s := Start(kind, n, zone, commits);
    var o := Process(z, s, Plain(rs), false);
    ProcessUntorn(z, s, Plain(rs), false, zone, commits);
    forall result | Transferred(z, kind, n, zone, rs, result)
      ensures o.error.None? && o.state.done
    {
      TransferExact(z, kind, n, zone, commits, rs, result);
    }
    TransferExact(z, kind, n, zone, commits, rs, o.state.zone);
    hide Transferred, Step;
    var first := FirstRecord(z, Open(s), rs, false);
    if first.error.None? {
      if first.state.done {
        DoneSteps(z, first.state, rs[1..]);
      } else {
        DoneCommits(z, first.state, rs[1..]);
      }
    }
  }

  // ---------- Where the messages are cut ----------

  /** A message ends exactly where the transfer does, and more records follow. */
  ghost predicate CutAtTheEnd(z: ZoneInfo, kind: Kind, n: serial, zone: Store, ms: seq<Message>) {
    exists k | 0 <= k <= |ms| :: Complete(z, kind, n, zone, Concat(ms[..k])) && Concat(ms[k..]) != []
  }

  lemma {:induction false} EndIsCut(z: ZoneInfo, kind: Kind, n: serial, zone: Store, commits: nat,
      ms: seq<Message>, k: nat)
    requires ms != [] && ms[0].answer != [] && AllPlain(ms) && k <= |ms|
    requires Complete(z, kind, n, zone, Concat(ms[..k])) && Concat(ms[k..]) != []
    ensures var s := Start(kind, n, zone, commits);
            && Run(z, s, ms, false).error.None?
            && Process(z, s, Plain(Concat(ms)), false).error == Some(AnswersAfterFinalSoa)
  {
    var s := Start(kind, n, zone, commits);
    var rs := Concat(ms[..k]);
    CompleteExactly(z, kind, n, zone, commits, rs);
    assert k > 0 by {
      assert ms[..0] == [];
      assert Process(z, s, Plain([]), false).error.Some?;
    }
    hide Step, Process, Steps, Complete;
    RunCut(z, s, ms[..k]);
    RunPrefix(z, s, ms, k, false);
    ConcatSplit(ms, k);
    ConcatSplit(ms[..k], 1);
    EndPassed(z, s, rs, Concat(ms[k..]));
  }

  lemma {:induction false} EndPassed(z: ZoneInfo, s: State, rs: seq<RRset>, more: seq<RRset>)
    requires s.soa.None? && !s.done && more != []
    requires var o := Process(z, s, Plain(rs), false); o.error.None? && o.state.done
    ensures Process(z, s, Plain(rs + more), false)
            == Outcome(Process(z, s, Plain(rs), false).state, Some(AnswersAfterFinalSoa))
  {
    ProcessFirstUdp(z, s, Plain(rs), false);
    hide Step, Process, Steps;
    ProcessFirst(z, s, Plain(rs), more);
    DoneSteps(z, Process(z, s, Plain(rs), false).state, more);
  }

  lemma {:induction false} EndFound(z: ZoneInfo, kind: Kind, n: serial, zone: Store, commits: nat,
      ms: seq<Message>)
    returns (k: nat)
    requires ms != [] && ms[0].answer != [] && AllPlain(ms)
    requires var s := Start(kind, n, zone, commits);
             Run(z, s, ms, false).error != Process(z, s, Plain(Concat(ms)), false).error
    ensures k <= |ms| && Complete(z, kind, n, zone, Concat(ms[..k])) && Concat(ms[k..]) != []
  {
    hide Run, Process, Complete;
    var s := Start(kind, n, zone, commits);
    RunCut(z, s, ms);
    k := RunConsumes(z, s, ms, false);
    CompleteExactly(z, kind, n, zone, commits, Concat(ms[..k]));
    ConcatSplit(ms, k);
  }

  /** Over TCP, an answer may be cut into messages anywhere (the first not empty): reading them comes
      to the same state as reading one message with all the records, and to the same error, except
      when a message ends where the transfer does: what follows is an error in one message, raised
      after the commit, and is never looked at in later ones. */
  lemma {:induction false} MessageBoundaries(z: ZoneInfo, kind: Kind, n: serial, zone: Store, commits: nat,
      ms: seq<Message>)
    requires ms != [] && ms[0].answer != [] && Headers(z, kind, ms) && !(kind == IXFR && AskedAgain(z, n, ms))
    ensures var s := Start(kind, n, zone, commits);
            var (cut, whole) := (Run(z, s, ms, false), Process(z, s, Plain(Concat(ms)), false));
            && cut.state == whole.state
            && if CutAtTheEnd(z, kind, n, zone, ms)
               then cut.error.None? && whole.error == Some(AnswersAfterFinalSoa)
               else cut.error == whole.error
  {
    var s := Start(kind, n, zone, commits);
    var bare := Bare(ms);
    QuestionAfterFallBack(z, kind, n, zone, commits, ms);
    hide Headers, AskedAgain, Complete, Run, Process;
    ConcatBare(ms);
    RunCut(z, s, bare);
    var (cut, whole) := (Run(z, s, ms, false), Process(z, s, Plain(Concat(ms)), false));
    if CutAtTheEnd(z, kind, n, zone, ms) {
      var k :| 0 <= k <= |ms| && Complete(z, kind, n, zone, Concat(ms[..k])) && Concat(ms[k..]) != [];
      CutBare(ms, k);
      EndIsCut(z, kind, n, zone, commits, bare, k);
    } else if cut.error != whole.error {
      var k := EndFound(z, kind, n, zone, commits, bare);
      CutBare(ms, k);
    }
  }

  lemma CutBare(ms: seq<Message>, k: nat)
    requires k <= |ms|
    ensures Concat(Bare(ms)[..k]) == Concat(ms[..k]) && Concat(Bare(ms)[k..]) == Concat(ms[k..])
  {
    assert Bare(ms)[..k] == Bare(ms[..k]) && Bare(ms)[k..] == Bare(ms[k..]);
    ConcatBare(ms[..k]);
    ConcatBare(ms[k..]);
  }

  /** With something after the end the boundary matters: in the same message it is an error raised
      after the commit, in a later one it is never looked at. */
  lemma {:induction false} RecordsAfterTheEnd(z: ZoneInfo, s: State, rs: seq<RRset>, more: seq<RRset>)
    requires s.soa.None? && !s.done && rs != [] && more != []
    requires var o := Process(z, s, Plain(rs), false); o.error.None? && o.state.done
    ensures var o := Process(z, s, Plain(rs), false);
            && Run(z, s, [Plain(rs + more)], false) == Outcome(o.state, Some(AnswersAfterFinalSoa))
            && Run(z, s, [Plain(rs), Plain(more)], false) == Outcome(o.state, None)
  {
    hide Step, Process, Steps;
    ProcessFirst(z, s, Plain(rs), more);
    DoneSteps(z, Process(z, s, Plain(rs), false).state, more);
  }

  /** Every stream that transfers a zone does so over TCP, however it is cut. */
  lemma {:induction false} TransferredRuns(z: ZoneInfo, kind: Kind, n: serial, zone: Store, commits: nat,
      ms: seq<Message>, result: Store)
    requires Transferred(z, kind, n, zone, Concat(ms), result)
    requires ms != [] && ms[0].answer != [] && Headers(z, kind, ms) && !(kind == IXFR && AskedAgain(z, n, ms))
    ensures var o := Run(z, Start(kind, n, zone, commits), ms, false);
            o.error.None? && o.state.done && o.state.commits == commits + 1 && o.state.zone == result
  {
    var s := Start(kind, n, zone, commits);
    TransferExact(z, kind, n, zone, commits, Concat(ms), result);
    MessageBoundaries(z, kind, n, zone, commits, ms);
    RunUntorn(z, s, ms, false, zone, commits);
    hide Step, Process, Transferred, Run, CutAtTheEnd;
  }

  /** Over UDP, one message with such a stream does. */
  lemma TransferredUdp(z: ZoneInfo, kind: Kind, n: serial, zone: Store, commits: nat, ms: seq<Message>, result: Store)
    requires ms != [] && Suits(z, kind, ms[0]) && Transferred(z, kind, n, zone, ms[0].answer, result)
    ensures var o := Run(z, Start(kind, n, zone, commits), ms, true);
            o.error.None? && o.state.done && o.state.commits == commits + 1 && o.state.zone == result
  {
    var s := Start(kind, n, zone, commits);
    TransferExact(z, kind, n, zone, commits, ms[0].answer, result);
    CompleteExactly(z, kind, n, zone, commits, ms[0].answer);
    assert Complete(z, kind, n, zone, ms[0].answer);
    assert |ms[0].answer| >= 2;
    hide Step, Steps, Transferred;
  }
}
