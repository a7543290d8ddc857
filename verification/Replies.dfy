/** What the header and the first record of a reply lead to, read off the reply itself. */
module Replies {
  import opened Wrappers
  import opened Serials
  import opened ZoneStore
  import opened Xfr
  import opened Transfers

  /** The reply is about this zone, and not an error. */
  predicate ForZone(z: ZoneInfo, m: Message) {
    m.rcode == 0 && (m.question == [] || m.question[0].owner == z.origin)
  }

  /** ... and if it repeats a question, it is the one for a transfer of this kind. */
  predicate Suits(z: ZoneInfo, kind: Kind, m: Message) {
    ForZone(z, m) && (m.question == [] || m.question[0].rdtype == if kind == AXFR then 252 else 251)
  }

  lemma SuitsExactly(z: ZoneInfo, kind: Kind, m: Message)
    ensures Suits(z, kind, m) <==> CheckHeader(z, kind, m).None?
  {
  }

  /** Errors that only a record after the first can cause. */
  predicate FromRecords(e: XferError) {
    || e in {AnswersAfterFinalSoa, EmptyIxfr, UnexpectedEnd, BaseSerialMismatch, UnexpectedOriginSoa}
    || e.Refused?
  }

  lemma {:induction false} StepsErrors(z: ZoneInfo, s: State, rs: seq<RRset>)
    requires Ready(s)
    ensures var e := Steps(z, s, rs).error; e.Some? ==> FromRecords(e.value)
    decreases rs
  {
    if rs != [] && Step(z, s, rs[0]).error.None? {
      StepsErrors(z, Step(z, s, rs[0]).state, rs[1..]);
    }
  }

  lemma AnswersErrors(z: ZoneInfo, s: State, answer: seq<RRset>, isUdp: bool)
    requires s.txn.Some?
    ensures var (o, first) := (Answers(z, s, answer, isUdp), FirstRecord(z, s, answer, isUdp));
            o.error.Some? ==> FromRecords(o.error.value) || (s.soa.None? && o == first)
    ensures s.soa.None? && FirstRecord(z, s, answer, isUdp).error.Some? ==>
              Answers(z, s, answer, isUdp) == FirstRecord(z, s, answer, isUdp)
  {
    if s.soa.Some? {
      StepsErrors(z, s, answer);
    } else {
      var o := FirstRecord(z, s, answer, isUdp);
      if o.error.None? {
        StepsErrors(z, o.state, answer[1..]);
      }
    }
  }

  /** The errors of a reply's header, which leave all but an opened transaction as it was. */
  lemma HeaderErrors(z: ZoneInfo, s: State, m: Message, isUdp: bool)
    ensures var (o, asked) := (Process(z, s, m, isUdp), m.question != []);
            && (forall c :: o.error == Some(TransferError(c)) <==> c == m.rcode != 0)
            && (o.error == Some(WrongQuestionName) <==> m.rcode == 0 && asked && m.question[0].owner != z.origin)
            && (o.error == Some(WrongQuestionType) <==>
                  m.rcode == 0 && asked && m.question[0].owner == z.origin && !Suits(z, s.kind, m))
            && (!Suits(z, s.kind, m) ==> o.error.Some? && o.state.(txn := s.txn) == s)
  {
    SuitsExactly(z, s.kind, m);
    var t := Open(s);
    AnswersErrors(z, t, m.answer, isUdp);
    hide Answers;
    assert FirstRecord(z, t, m.answer, isUdp).error.Some? ==>
        FirstRecord(z, t, m.answer, isUdp).error.value in {NoOriginAnswer, FirstNotSoa, SerialWentBackwards, UseTcp};
  }

  /** The answer begins with the zone's SOA. */
  predicate BeginsWithSoa(z: ZoneInfo, answer: seq<RRset>) {
    answer != [] && answer[0].owner == z.origin && answer[0].rdtype == 6
  }

  /** The errors of the first record of a transfer. */
  lemma FirstErrors(z: ZoneInfo, s: State, m: Message, isUdp: bool)
    requires s.soa.None? && Suits(z, s.kind, m)
    ensures var (o, rs) := (Process(z, s, m, isUdp), m.answer);
            && (o.error == Some(NoOriginAnswer) <==> rs == [] || rs[0].owner != z.origin)
            && (o.error == Some(FirstNotSoa) <==> rs != [] && rs[0].owner == z.origin && rs[0].rdtype != 6)
            && (o.error == Some(SerialWentBackwards) <==>
                  BeginsWithSoa(z, rs) && s.kind == IXFR && Less(rs[0].items[0].serial, s.serial))
            && (o.error == Some(UseTcp) <==>
                  && BeginsWithSoa(z, rs) && s.kind == IXFR && isUdp && |rs| == 1
                  && rs[0].items[0].serial != s.serial && !Less(rs[0].items[0].serial, s.serial))
            && (o.error.Some? && !FromRecords(o.error.value) && o.error != Some(UnexpectedEndOfUdp) ==>
                  o.state.zone == s.zone && o.state.commits == s.commits)
  {
    SuitsExactly(z, s.kind, m);
    AnswersErrors(z, Open(s), m.answer, isUdp);
    hide Answers;
  }

  /** The truncated answer to an incremental request: only the SOA of another version, not an older one. */
  predicate TellsTcp(z: ZoneInfo, n: serial, m: Message) {
    && Suits(z, IXFR, m) && |m.answer| == 1 && BeginsWithSoa(z, m.answer)
    && m.answer[0].items[0].serial != n && !Less(m.answer[0].items[0].serial, n)
  }

  lemma {:induction false} LaterNeverUseTcp(z: ZoneInfo, s: State, ms: seq<Message>, isUdp: bool)
    requires s.soa.Some? && !s.done
    ensures Run(z, s, ms, isUdp).error != Some(UseTcp)
    decreases ms
  {
    if ms != [] {
      LaterMessage(z, s, ms[0], isUdp);
      var o := Process(z, s, ms[0], isUdp);
      hide Process;
      if o.error.None? && !o.state.done {
        LaterNeverUseTcp(z, o.state, ms[1..], isUdp);
      }
    }
  }

  lemma LaterMessage(z: ZoneInfo, s: State, m: Message, isUdp: bool)
    requires s.soa.Some?
    ensures Process(z, s, m, isUdp).error != Some(UseTcp) && Process(z, s, m, isUdp).state.soa.Some?
  {
    AnswersErrors(z, Open(s), m.answer, isUdp);
  }

  /** A transfer is told to use TCP exactly by such a reply over UDP, and has then committed nothing. */
  lemma {:induction false} UseTcpExactly(z: ZoneInfo, kind: Kind, n: serial, zone: Store, commits: nat,
      ms: seq<Message>, isUdp: bool)
    ensures var o := Run(z, Start(kind, n, zone, commits), ms, isUdp);
            && (o.error == Some(UseTcp) <==> isUdp && kind == IXFR && ms != [] && TellsTcp(z, n, ms[0]))
            && (o.error == Some(UseTcp) ==> o.state.zone == zone && o.state.commits == commits)
  {
    var s := Start(kind, n, zone, commits);
    if ms != [] {
      var o := Process(z, s, ms[0], isUdp);
      HeaderErrors(z, s, ms[0], isUdp);
      if Suits(z, kind, ms[0]) {
        FirstErrors(z, s, ms[0], isUdp);
      }
      assert o.error.None? ==> o.state.soa.Some?;
      assert !Suits(z, kind, ms[0]) ==> o.error != Some(UseTcp);
      hide Process, Suits;
      if o.error.None? && !o.state.done {
        LaterNeverUseTcp(z, o.state, ms[1..], isUdp);
      }
    }
  }

  /** A run that commits has read only replies that are about this zone and not errors. */
  lemma {:induction false} CommittedReplies(z: ZoneInfo, s: State, ms: seq<Message>, isUdp: bool, zone: Store,
      commits: nat)
    returns (j: nat)
    requires Untorn(s, zone, commits) && s.commits == commits && Run(z, s, ms, isUdp).state.commits != commits
    ensures j <= |ms| && Run(z, s, ms[..j], isUdp) == Run(z, s, ms, isUdp)
    ensures forall i | 0 <= i < j :: ForZone(z, ms[i])
    decreases ms
  {
    HeaderErrors(z, s, ms[0], isUdp);
    ProcessUntorn(z, s, ms[0], isUdp, zone, commits);
    hide Process;
    var o := Process(z, s, ms[0], isUdp);
    var k := 0;
    if o.error.None? && !o.state.done {
      k := CommittedReplies(z, o.state, ms[1..], isUdp, zone, commits);
    }
    j := k + 1;
    assert ms[..j][1..] == ms[1..][..k];
    assert forall i | 0 < i < j :: ms[i] == ms[1..][i - 1];
  }

  // ---------- UDP first ----------

  datatype UdpMode = Never | TryFirst | Only

  /** A transfer that may try UDP first, for which `replies` are the messages. When it is told to use
      TCP, it ends exactly as if it had never tried. */
  method InboundXfr(manager: Zone, kind: Kind, start: Option<serial>, mode: UdpMode, replies: seq<Message>,
                    messages: seq<Message>)
    returns (invalid: Option<ValueError>, done: bool, e: Option<XferError>)
    modifies manager
    ensures invalid == if kind == IXFR && start.None? then Some(NoStartingSerial) else None
    ensures invalid.Some? ==> unchanged(manager) && !done && e == None
    ensures invalid.None? ==>
              var s := Start(kind, StartingSerial(start), old(manager.content), old(manager.commits));
              var useTcp := replies != [] && TellsTcp(manager.info, s.serial, replies[0]);
              var o := if kind == AXFR || mode == Never || (useTcp && mode == TryFirst)
                       then Run(manager.info, s, messages, false) else Run(manager.info, s, replies, true);
              && e == o.error && done == o.state.done
              && manager.content == o.state.zone && manager.commits == o.state.commits
  {
    hide Run, TellsTcp;
    if kind == IXFR && mode != Never {
      UseTcpExactly(manager.info, kind, StartingSerial(start), manager.content, manager.commits, replies, true);
      invalid, done, e := Transfer(manager, kind, start, true, replies);
      if mode == TryFirst && e == Some(UseTcp) {
        invalid, done, e := Transfer(manager, kind, start, false, messages);
      }
    } else {
      invalid, done, e := Transfer(manager, kind, start, false, messages);
    }
  }
}
