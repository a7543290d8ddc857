/** Inbound zone transfers: the state machine of `dns/xfr.py`. */
module Xfr {
  import opened Wrappers
  import opened RdataTypes
  import opened Serials
  import opened ZoneStore

  datatype Kind = AXFR | IXFR

  function TypeCode(kind: Kind): nat {
    if kind == AXFR then 252 else 251
  }

  datatype Question = Question(owner: Owner, rdtype: nat)

  datatype Message = Message(rcode: nat, question: seq<Question>, answer: seq<RRset>)

  datatype XferError =
    | TransferError(rcode: nat)
    | WrongQuestionName
    | WrongQuestionType
    | NoOriginAnswer
    | FirstNotSoa
    | SerialWentBackwards
    | UseTcp
    | AnswersAfterFinalSoa
    | EmptyIxfr
    | UnexpectedEnd
    | BaseSerialMismatch
    | UnexpectedOriginSoa
    | UnexpectedEndOfUdp
    | Refused(error: TxnError)

  datatype ValueError = NoStartingSerial | UdpForAxfr

  /** The zone, what has been committed to it, and the fields of an `Inbound`. */
  datatype State = State(
    zone: Store, commits: nat, txn: Option<Store>, kind: Kind, serial: serial,
    soa: Option<RRset>, done: bool, expectingSoa: bool, deleteMode: bool)

  /** The state a call leaves behind, also when it raises. */
  datatype Outcome = Outcome(state: State, error: Option<XferError>)

  function Start(kind: Kind, serial: serial, zone: Store, commits: nat): State {
    State(zone, commits, None, kind, serial, None, false, false, false)
  }

  predicate OriginSoa(z: ZoneInfo, r: RRset) {
    r.rdtype == SOA && r.owner == z.origin
  }

  /** What the loop over the answers relies on. */
  predicate Ready(s: State) {
    s.soa.Some? && (s.txn.Some? || s.done)
  }

  // ---------- One record ----------

  /** An IXFR answered with a whole zone: discard what was written and start from nothing. */
  function FallBack(s: State): State {
    s.(kind := AXFR, expectingSoa := false, deleteMode := false, txn := Some(map[]))
  }

  function Written(s: State, result: Result<Store, TxnError>): Outcome {
    if result.Failure? then Outcome(s, Some(Refused(result.error)))
    else Outcome(s.(txn := Some(result.value)), None)
  }

  function OnFinalSoa(z: ZoneInfo, s: State, r: RRset): Outcome
    requires s.txn.Some?
  {
    if s.expectingSoa then Outcome(s, Some(EmptyIxfr))
    else if s.kind == IXFR && s.serial != Serial(r) then Outcome(s, Some(UnexpectedEnd))
    else
      var o := Written(s, ReplaceIn(z, s.txn.value, r));
      if o.error.Some? then o
      else Outcome(s.(zone := o.state.txn.value, commits := s.commits + 1, txn := None, done := true), None)
  }

  function OnInnerSoa(z: ZoneInfo, s: State, r: RRset): Outcome
    requires s.txn.Some?
  {
    if s.kind == AXFR then Outcome(s, Some(UnexpectedOriginSoa))
    else if s.deleteMode then Outcome(s, if Serial(r) != s.serial then Some(BaseSerialMismatch) else None)
    else Written(s.(serial := Serial(r)), ReplaceIn(z, s.txn.value, r))
  }

  function OnOriginSoa(z: ZoneInfo, s: State, r: RRset): Outcome
    requires s.txn.Some? && s.soa.Some?
  {
    var t := if s.kind == IXFR then s.(deleteMode := !s.deleteMode) else s;
    if SameRRset(r, t.soa.value) && (t.kind == AXFR || t.deleteMode) then OnFinalSoa(z, t, r)
    else OnInnerSoa(z, t.(expectingSoa := false), r)
  }

  function OnData(z: ZoneInfo, s: State, r: RRset): Outcome
    requires s.txn.Some?
  {
    var t := if s.expectingSoa then FallBack(s) else s;
    Written(t, if t.deleteMode then DeleteFrom(z, t.txn.value, r) else AddTo(z, t.txn.value, r))
  }

  function Step(z: ZoneInfo, s: State, r: RRset): (o: Outcome)
    requires Ready(s)
    ensures Ready(o.state) && o.state.soa == s.soa
  {
    if s.done then Outcome(s, Some(AnswersAfterFinalSoa))
    else if OriginSoa(z, r) then OnOriginSoa(z, s, r)
    else OnData(z, s, r)
  }

  /** The records of an answer in order, up to the first that raises. */
  function Steps(z: ZoneInfo, s: State, rs: seq<RRset>): (o: Outcome)
    requires Ready(s)
    ensures Ready(o.state) && o.state.soa == s.soa
    decreases rs
  {
    if rs == [] then Outcome(s, None)
    else
      var o := Step(z, s, rs[0]);
      if o.error.Some? then o else Steps(z, o.state, rs[1..])
  }

  // ---------- One message ----------

  function Open(s: State): State {
    if s.txn.None? then s.(txn := Some(if s.kind == AXFR then map[] else s.zone)) else s
  }

  function CheckHeader(z: ZoneInfo, kind: Kind, m: Message): Option<XferError> {
    if m.rcode != 0 then Some(TransferError(m.rcode))
    else if m.question != [] && m.question[0].owner != z.origin then Some(WrongQuestionName)
    else if m.question != [] && m.question[0].rdtype != TypeCode(kind) then Some(WrongQuestionType)
    else None
  }

  /** The first record of a transfer: an SOA of the zone that tells where it leads. */
  function FirstRecord(z: ZoneInfo, s: State, answer: seq<RRset>, isUdp: bool): (o: Outcome)
    ensures o.error.None? ==> answer != [] && o.state.soa == Some(answer[0])
  {
    if answer == [] || answer[0].owner != z.origin then Outcome(s, Some(NoOriginAnswer))
    else if answer[0].rdtype != SOA then Outcome(s, Some(FirstNotSoa))
    else
      var t := s.(soa := Some(answer[0]));
      var announced := Serial(answer[0]);
      if s.kind == AXFR then Outcome(t, None)
      else if announced == s.serial then Outcome(t.(done := true), None)
      else if Less(announced, s.serial) then Outcome(t, Some(SerialWentBackwards))
      else if isUdp && |answer| == 1 then Outcome(t, Some(UseTcp))
      else Outcome(t.(expectingSoa := true), None)
  }

  function Answers(z: ZoneInfo, s: State, answer: seq<RRset>, isUdp: bool): Outcome
    requires s.txn.Some?
  {
    if s.soa.Some? then Steps(z, s, answer)
    else
      var o := FirstRecord(z, s, answer, isUdp);
      if o.error.Some? then o else Steps(z, o.state, answer[1..])
  }

  /** `Inbound.process_message`. */
  function Process(z: ZoneInfo, s: State, m: Message, isUdp: bool): Outcome {
    var t := Open(s);
    if CheckHeader(z, t.kind, m).Some? then Outcome(t, CheckHeader(z, t.kind, m))
    else
      var o := Answers(z, t, m.answer, isUdp);
      if o.error.None? && isUdp && !o.state.done then Outcome(o.state, Some(UnexpectedEndOfUdp)) else o
  }

  /** Messages in order until the transfer is done or one raises, as the reading loop feeds them. */
  function Run(z: ZoneInfo, s: State, ms: seq<Message>, isUdp: bool): Outcome
    decreases ms
  {
    if ms == [] then Outcome(s, None)
    else
      var o := Process(z, s, ms[0], isUdp);
      if o.error.Some? || o.state.done then o else Run(z, o.state, ms[1..], isUdp)
  }

  // ---------- The object ----------

  class Inbound {
    const manager: Zone
    const isUdp: bool
    var txn: Transaction?
    var kind: Kind
    var serial: serial
    var soa: Option<RRset>
    var done: bool
    var expectingSoa: bool
    var deleteMode: bool

    ghost predicate Valid()
      reads this, txn
    {
      txn != null ==> txn.zone == manager && !txn.ended
    }

    ghost function Abstract(): State
      reads this, txn, manager
    {
      State(manager.content, manager.commits, if txn == null then None else Some(txn.rdatasets),
            kind, serial, soa, done, expectingSoa, deleteMode)
    }

    constructor (manager: Zone, kind: Kind, serial: serial, isUdp: bool)
      ensures this.manager == manager && this.isUdp == isUdp && Valid() && txn == null
      ensures Abstract() == Start(kind, serial, manager.content, manager.commits)
    {
      this.manager := manager;
      this.isUdp := isUdp;
      txn := null;
      this.kind := kind;
      this.serial := serial;
      soa := None;
      done := false;
      expectingSoa := false;
      deleteMode := false;
    }

    /** The data of a record: deleted in delete mode, added otherwise. */
    method Data(r: RRset) returns (e: Option<XferError>)
      requires Valid() && txn != null
      modifies this, txn, manager
      ensures Valid() && txn != null && (txn == old(txn) || fresh(txn))
      ensures Outcome(Abstract(), e) == OnData(manager.info, old(Abstract()), r)
    {
      if expectingSoa {
        kind := AXFR;
        expectingSoa := false;
        deleteMode := false;
        var _ := txn.End(false);
        txn := manager.Writer(true);
      }
      var refused: Option<TxnError>;
      if deleteMode {
        refused := txn.DeleteExact(r);
      } else {
        refused := txn.AddOrReplace(false, r);
      }
      e := if refused.Some? then Some(Refused(refused.value)) else None;
    }

    method FinalSoa(r: RRset) returns (e: Option<XferError>)
      requires Valid() && txn != null
      modifies this, txn, manager
      ensures Valid() && (txn == null || txn == old(txn))
      ensures Outcome(Abstract(), e) == OnFinalSoa(manager.info, old(Abstract()), r)
    {
      if expectingSoa {
        return Some(EmptyIxfr);
      }
      if kind == IXFR && serial != Serial(r) {
        return Some(UnexpectedEnd);
      }
      var refused := txn.AddOrReplace(true, r);
      if refused.Some? {
        return Some(Refused(refused.value));
      }
      var _ := txn.End(true);
      txn := null;
      done := true;
      return None;
    }

    method InnerSoa(r: RRset) returns (e: Option<XferError>)
      requires Valid() && txn != null
      modifies this, txn
      ensures Valid() && txn == old(txn)
      ensures Outcome(Abstract(), e) == OnInnerSoa(manager.info, old(Abstract()).(expectingSoa := false), r)
    {
      expectingSoa := false;
      if kind == IXFR {
        if deleteMode {
          if Serial(r) != serial {
            return Some(BaseSerialMismatch);
          }
        } else {
          serial := Serial(r);
          var refused := txn.AddOrReplace(true, r);
          if refused.Some? {
            return Some(Refused(refused.value));
          }
        }
      } else {
        return Some(UnexpectedOriginSoa);
      }
      return None;
    }

    method Record(r: RRset) returns (e: Option<XferError>)
      requires Valid() && Ready(Abstract())
      modifies this, txn, manager
      ensures Valid() && (txn == null || txn == old(txn) || fresh(txn))
      ensures Outcome(Abstract(), e) == Step(manager.info, old(Abstract()), r)
    {
      if done {
        return Some(AnswersAfterFinalSoa);
      }
      if r.rdtype == SOA && r.owner == manager.info.origin {
        if kind == IXFR {
          deleteMode := !deleteMode;
        }
        if SameRRset(r, soa.value) && (kind == AXFR || (kind == IXFR && deleteMode)) {
          e := FinalSoa(r);
        } else {
          e := InnerSoa(r);
        }
      } else {
        e := Data(r);
      }
    }

    method FirstMessage(answer: seq<RRset>) returns (e: Option<XferError>)
      requires Valid()
      modifies `soa, `done, `expectingSoa
      ensures Valid()
      ensures Outcome(Abstract(), e) == FirstRecord(manager.info, old(Abstract()), answer, isUdp)
    {
      if answer == [] || answer[0].owner != manager.info.origin {
        return Some(NoOriginAnswer);
      }
      if answer[0].rdtype != SOA {
        return Some(FirstNotSoa);
      }
      soa := Some(answer[0]);
      if kind == IXFR {
        if Serial(answer[0]) == serial {
          done := true;
        } else if Less(Serial(answer[0]), serial) {
          return Some(SerialWentBackwards);
        } else {
          if isUdp && |answer[1..]| == 0 {
            return Some(UseTcp);
          }
          expectingSoa := true;
        }
      }
      return None;
    }

    method Records(answer: seq<RRset>) returns (e: Option<XferError>)
      requires Valid() && Ready(Abstract())
      modifies this, txn, manager
      ensures Valid() && (txn == null || txn == old(txn) || fresh(txn))
      ensures Outcome(Abstract(), e) == Steps(manager.info, old(Abstract()), answer)
    {
      e := None;
      var index := 0;
      while index < |answer|
        invariant index <= |answer|
        invariant Valid() && Ready(Abstract()) && (txn == null || txn == old(txn) || fresh(txn))
        invariant Steps(manager.info, old(Abstract()), answer) == Steps(manager.info, Abstract(), answer[index..])
      {
        e := Record(answer[index]);
        if e.Some? {
          return;
        }
        index := index + 1;
      }
      return None;
    }

    method ProcessMessage(message: Message) returns (e: Option<XferError>)
      requires Valid()
      modifies this, txn, manager
      ensures Valid() && (txn == null || txn == old(txn) || fresh(txn))
      ensures Outcome(Abstract(), e) == Process(manager.info, old(Abstract()), message, isUdp)
    {
      if txn == null {
        txn := manager.Writer(kind == AXFR);
      }
      if message.rcode != 0 {
        return Some(TransferError(message.rcode));
      }
      if |message.question| > 0 {
        if message.question[0].owner != manager.info.origin {
          return Some(WrongQuestionName);
        }
        if message.question[0].rdtype != TypeCode(kind) {
          return Some(WrongQuestionType);
        }
      }
      var index := 0;
      if soa.None? {
        e := FirstMessage(message.answer);
        if e.Some? {
          return;
        }
        index := 1;
      }
      e := Records(message.answer[index..]);
      if e.Some? {
        return;
      }
      if isUdp && !done {
        return Some(UnexpectedEndOfUdp);
      }
      return None;
    }

    /** Leaving the context rolls an open transaction back. */
    method Exit()
      requires Valid()
      modifies txn, manager
      ensures manager.content == old(manager.content) && manager.commits == old(manager.commits)
    {
      if txn != null {
        var _ := txn.End(false);
      }
    }
  }

  // An AXFR has no starting serial and never looks at one.
  function StartingSerial(start: Option<serial>): serial {
    if start.Some? then start.value else 0
  }

  /** A whole transfer: the context is left when the transfer is done, when a message is refused, or
      when there are no more messages. */
  method Transfer(manager: Zone, kind: Kind, start: Option<serial>, isUdp: bool, messages: seq<Message>)
    returns (invalid: Option<ValueError>, done: bool, e: Option<XferError>)
    modifies manager
    ensures invalid == if kind == IXFR && start.None? then Some(NoStartingSerial)
                       else if kind == AXFR && isUdp then Some(UdpForAxfr) else None
    ensures invalid.Some? ==> unchanged(manager) && !done && e == None
    ensures invalid.None? ==>
              var s := Start(kind, StartingSerial(start), old(manager.content), old(manager.commits));
              var o := Run(manager.info, s, messages, isUdp);
              && e == o.error && done == o.state.done
              && manager.content == o.state.zone && manager.commits == o.state.commits
  {
    done, e := false, None;
    if kind == IXFR {
      if start.None? {
        return Some(NoStartingSerial), false, None;
      }
    } else if isUdp {
      return Some(UdpForAxfr), false, None;
    }
    invalid := None;
    var inbound := new Inbound(manager, kind, StartingSerial(start), isUdp);
    ghost var all := Run(manager.info, inbound.Abstract(), messages, isUdp);
    var i := 0;
    while i < |messages| && !inbound.done && e.None?
      invariant i <= |messages|
      invariant inbound.Valid() && inbound.manager == manager && fresh(inbound)
      invariant inbound.isUdp == isUdp
      invariant inbound.txn != null ==> fresh(inbound.txn)
      invariant all == if e.Some? || inbound.done then Outcome(inbound.Abstract(), e)
                       else Run(manager.info, inbound.Abstract(), messages[i..], isUdp)
    {
      e := inbound.ProcessMessage(messages[i]);
      i := i + 1;
    }
    done := inbound.done;
    inbound.Exit();
  }
}
