/** What a zone transfer does over a whole run (section 4 of RFC 1995, section 2.2 of RFC 5936). */
module Transfers {
  import opened Wrappers
  import opened Serials
  import opened ZoneStore
  import opened Xfr

  // ---------- At most one commit ----------

  /** Every call of `process_message`, also after one that raised. */
  function History(z: ZoneInfo, s: State, ms: seq<Message>, isUdp: bool): State
    decreases ms
  {
    if ms == [] then s else History(z, Process(z, s, ms[0], isUdp).state, ms[1..], isUdp)
  }

  /** Nothing is committed before the transfer is done; what is committed carries the announced SOA. */
  predicate Untorn(s: State, zone: Store, commits: nat) {
    && (s.soa.None? ==> !s.done && s.commits == commits)
    && (s.commits == commits ==> s.zone == zone)
    && (s.commits != commits ==>
          && s.commits == commits + 1 && s.done && s.soa.Some?
          && KeyOf(s.soa.value) in s.zone && s.zone[KeyOf(s.soa.value)].items == ItemSet(s.soa.value))
  }

  lemma StepUntorn(z: ZoneInfo, s: State, r: RRset, zone: Store, commits: nat)
    requires Ready(s) && Untorn(s, zone, commits)
    ensures Untorn(Step(z, s, r).state, zone, commits)
  {
  }

  lemma {:induction false} StepsUntorn(z: ZoneInfo, s: State, rs: seq<RRset>, zone: Store, commits: nat)
    requires Ready(s) && Untorn(s, zone, commits)
    ensures Untorn(Steps(z, s, rs).state, zone, commits)
    decreases rs
  {
    hide Step, Untorn;
    if rs != [] {
      StepUntorn(z, s, rs[0], zone, commits);
      if Step(z, s, rs[0]).error.None? {
        StepsUntorn(z, Step(z, s, rs[0]).state, rs[1..], zone, commits);
      }
    }
  }

  lemma {:induction false} ProcessUntorn(z: ZoneInfo, s: State, m: Message, isUdp: bool, zone: Store, commits: nat)
    requires Untorn(s, zone, commits)
    ensures Untorn(Process(z, s, m, isUdp).state, zone, commits)
  {
    hide Step, ItemSet;
    var t := Open(s);
    if t.soa.Some? {
      StepsUntorn(z, t, m.answer, zone, commits);
    } else {
      var o := FirstRecord(z, t, m.answer, isUdp);
      if o.error.None? {
        StepsUntorn(z, o.state, m.answer[1..], zone, commits);
      }
    }
  }

  /** However many messages arrive and whatever they hold, and even if the caller goes on after an
      error: at most one commit, and before it the zone is untouched. */
  lemma {:induction false} HistoryUntorn(z: ZoneInfo, s: State, ms: seq<Message>, isUdp: bool,
                                         zone: Store, commits: nat)
    requires Untorn(s, zone, commits)
    ensures Untorn(History(z, s, ms, isUdp), zone, commits)
    decreases ms
  {
    hide Process, Untorn;
    if ms != [] {
      ProcessUntorn(z, s, ms[0], isUdp, zone, commits);
      HistoryUntorn(z, Process(z, s, ms[0], isUdp).state, ms[1..], isUdp, zone, commits);
    }
  }

  /** The same for the reading loop, which stops at the first error. */
  lemma {:induction false} RunUntorn(z: ZoneInfo, s: State, ms: seq<Message>, isUdp: bool,
                                     zone: Store, commits: nat)
    requires Untorn(s, zone, commits)
    ensures Untorn(Run(z, s, ms, isUdp).state, zone, commits)
    decreases ms
  {
    hide Process, Untorn;
    if ms != [] {
      ProcessUntorn(z, s, ms[0], isUdp, zone, commits);
      var o := Process(z, s, ms[0], isUdp);
      if o.error.None? && !o.state.done {
        RunUntorn(z, o.state, ms[1..], isUdp, zone, commits);
      }
    }
  }

  // ---------- Streams of records ----------

  predicate NoOriginSoa(z: ZoneInfo, rs: seq<RRset>) {
    forall i | 0 <= i < |rs| :: !OriginSoa(z, rs[i])
  }

  /** Records deleted, or added, one after the other. */
  function Apply(z: ZoneInfo, deleting: bool, store: Store, rs: seq<RRset>): Result<Store, TxnError>
    decreases rs
  {
    if rs == [] then Success(store)
    else
      var one := if deleting then DeleteFrom(z, store, rs[0]) else AddTo(z, store, rs[0]);
      if one.Failure? then one else Apply(z, deleting, one.value, rs[1..])
  }

  /** One step of an incremental transfer, from the version of `oldSoa` to that of `newSoa`. */
  datatype Diff = Diff(oldSoa: RRset, deletions: seq<RRset>, newSoa: RRset, additions: seq<RRset>)

  function Flat(d: Diff): seq<RRset> {
    [d.oldSoa] + d.deletions + [d.newSoa] + d.additions
  }

  function Flatten(diffs: seq<Diff>): seq<RRset> {
    if diffs == [] then [] else Flat(diffs[0]) + Flatten(diffs[1..])
  }

  lemma FlattenCons(d: Diff, diffs: seq<Diff>, tail: seq<RRset>)
    ensures Flatten([d] + diffs) + tail
            == [d.oldSoa] + (d.deletions + ([d.newSoa] + (d.additions + (Flatten(diffs) + tail))))
  {
    assert ([d] + diffs)[1..] == diffs;
  }

  lemma EmptyFlatten(tail: seq<RRset>)
    ensures Flatten([]) + tail == tail == tail + []
  {
  }

  /** Every deleted record is there when it is deleted. */
  function ApplyDiff(z: ZoneInfo, store: Store, d: Diff): Result<Store, TxnError> {
    var r0 := Apply(z, true, store, d.deletions);
    if r0.Failure? then r0
    else
      var r1 := ReplaceIn(z, r0.value, d.newSoa);
      if r1.Failure? then r1 else Apply(z, false, r1.value, d.additions)
  }

  predicate WellFormed(z: ZoneInfo, first: RRset, d: Diff) {
    && OriginSoa(z, d.oldSoa) && !SameRRset(d.oldSoa, first) && NoOriginSoa(z, d.deletions)
    && OriginSoa(z, d.newSoa) && NoOriginSoa(z, d.additions)
  }

  /** The differences lead from serial `n` and `store` to the announced SOA and `result`, each one
      starting at the serial where the one before it ended. */
  predicate Chain(z: ZoneInfo, first: RRset, n: serial, store: Store, diffs: seq<Diff>, last: RRset,
                  result: Store)
    decreases diffs
  {
    if diffs == [] then n == Serial(last) && SameRRset(last, first) && ReplaceIn(z, store, last) == Success(result)
    else
      && WellFormed(z, first, diffs[0]) && Serial(diffs[0].oldSoa) == n
      && ApplyDiff(z, store, diffs[0]).Success?
      && Chain(z, first, Serial(diffs[0].newSoa), ApplyDiff(z, store, diffs[0]).value, diffs[1..], last, result)
  }

  // ---------- Data between the SOAs ----------

  /** A run of records other than the origin's SOA does what they do one by one. */
  lemma {:induction false} StepsData(z: ZoneInfo, s: State, rs: seq<RRset>, rest: seq<RRset>)
    requires Ready(s) && !s.done && !s.expectingSoa && NoOriginSoa(z, rs)
    ensures var a := Apply(z, s.deleteMode, s.txn.value, rs);
            if a.Success? then Steps(z, s, rs + rest) == Steps(z, s.(txn := Some(a.value)), rest)
            else Steps(z, s, rs + rest).error.Some?
    decreases rs
  {
    hide AddTo, DeleteFrom;
    if rs == [] {
      assert rs + rest == rest;
      assert s == s.(txn := Some(s.txn.value));
    } else {
      assert (rs + rest)[1..] == rs[1..] + rest;
      var o := Step(z, s, rs[0]);
      if o.error.None? {
        StepsData(z, o.state, rs[1..], rest);
      }
    }
  }

  lemma StepsFirst(z: ZoneInfo, s: State, r: RRset, rest: seq<RRset>)
    requires Ready(s)
    ensures var o := Step(z, s, r);
            Steps(z, s, [r] + rest) == if o.error.Some? then o else Steps(z, o.state, rest)
  {
    assert ([r] + rest)[1..] == rest;
  }

  predicate Accepts(z: ZoneInfo, s: State, rs: seq<RRset>, result: Store)
    requires Ready(s)
  {
    var o := Steps(z, s, rs);
    o.error.None? && o.state.done && o.state.commits == s.commits + 1 && o.state.zone == result
  }

  /** The announced SOA ends the transfer when it comes where a difference could begin. */
  lemma {:induction false} FinalSoaEnds(z: ZoneInfo, s: State, r: RRset, rest: seq<RRset>, result: Store)
    requires Ready(s) && !s.done && !s.expectingSoa && !s.deleteMode
    requires OriginSoa(z, r) && SameRRset(r, s.soa.value)
    ensures Accepts(z, s, [r] + rest, result) <==>
            && rest == [] && ReplaceIn(z, s.txn.value, r) == Success(result)
            && (s.kind == IXFR ==> s.serial == Serial(r))
  {
    hide ReplaceIn, SameRRset;
    StepsFirst(z, s, r, rest);
  }

  lemma {:induction false} OldSoaBegins(z: ZoneInfo, s: State, r: RRset, rest: seq<RRset>)
    requires Ready(s) && !s.done && s.kind == IXFR && !s.deleteMode
    requires OriginSoa(z, r) && !SameRRset(r, s.soa.value)
    ensures if Serial(r) == s.serial
            then Steps(z, s, [r] + rest) == Steps(z, s.(deleteMode := true, expectingSoa := false), rest)
            else Steps(z, s, [r] + rest).error.Some?
  {
    hide ReplaceIn, SameRRset;
    StepsFirst(z, s, r, rest);
  }

  lemma {:induction false} NewSoaTurns(z: ZoneInfo, s: State, r: RRset, rest: seq<RRset>)
    requires Ready(s) && !s.done && !s.expectingSoa && s.kind == IXFR && s.deleteMode
    requires OriginSoa(z, r)
    ensures var w := ReplaceIn(z, s.txn.value, r);
            if w.Success?
            then Steps(z, s, [r] + rest)
                 == Steps(z, s.(deleteMode := false, serial := Serial(r), txn := Some(w.value)), rest)
            else Steps(z, s, [r] + rest).error.Some?
  {
    hide ReplaceIn, SameRRset;
    StepsFirst(z, s, r, rest);
  }

  /** Where the origin's SOA next comes. */
  function Until(z: ZoneInfo, rs: seq<RRset>): (i: nat)
    ensures i <= |rs| && NoOriginSoa(z, rs[..i]) && (i < |rs| ==> OriginSoa(z, rs[i]))
  {
    if rs == [] || OriginSoa(z, rs[0]) then 0
    else
      var i := Until(z, rs[1..]);
      assert rs[..i + 1] == [rs[0]] + rs[1..][..i];
      i + 1
  }

  /** An accepted stream gets over the data to the next SOA of the origin. */
  lemma {:induction false} DataThenSoa(z: ZoneInfo, s: State, rs: seq<RRset>, result: Store) returns (i: nat)
    requires Ready(s) && !s.done && !s.expectingSoa && Accepts(z, s, rs, result)
    ensures i < |rs| && NoOriginSoa(z, rs[..i]) && OriginSoa(z, rs[i])
    ensures var a := Apply(z, s.deleteMode, s.txn.value, rs[..i]);
            a.Success? && Accepts(z, s.(txn := Some(a.value)), [rs[i]] + rs[i + 1..], result)
    ensures rs == rs[..i] + ([rs[i]] + rs[i + 1..])
  {
    hide Step, Apply;
    i := Until(z, rs);
    assert rs == rs[..i] + rs[i..];
    StepsData(z, s, rs[..i], rs[i..]);
    assert i < |rs|;
    assert rs[i..] == [rs[i]] + rs[i + 1..];
  }

  predicate InAdditions(s: State) {
    Ready(s) && !s.done && !s.expectingSoa && s.kind == IXFR && !s.deleteMode
  }

  predicate InDeletions(s: State) {
    Ready(s) && !s.done && !s.expectingSoa && s.kind == IXFR && s.deleteMode
  }

  // ---------- Only a chain of differences is accepted as one ----------

  lemma {:induction false} AdditionsFound(z: ZoneInfo, s: State, rs: seq<RRset>, result: Store)
    returns (adds: seq<RRset>, diffs: seq<Diff>, last: RRset)
    requires InAdditions(s) && Accepts(z, s, rs, result)
    ensures rs == adds + (Flatten(diffs) + [last]) && NoOriginSoa(z, adds)
    ensures var a := Apply(z, false, s.txn.value, adds);
            a.Success? && Chain(z, s.soa.value, s.serial, a.value, diffs, last, result)
    decreases |rs|, 1
  {
    hide Step, Steps, Apply, ReplaceIn, SameRRset, Flatten, OriginSoa, ApplyDiff;
    var i := DataThenSoa(z, s, rs, result);
    adds, last := rs[..i], rs[i];
    var t := s.(txn := Some(Apply(z, false, s.txn.value, adds).value));
    if SameRRset(last, s.soa.value) {
      FinalSoaEnds(z, t, last, rs[i + 1..], result);
      diffs := [];
      EmptyFlatten([last]);
    } else {
      OldSoaBegins(z, t, last, rs[i + 1..]);
      var dels, newSoa, more;
      var oldSoa := last;
      dels, newSoa, more, diffs, last := DeletionsFound(z, t.(deleteMode := true), rs[i + 1..], result);
      var d := Diff(oldSoa, dels, newSoa, more);
      FlattenCons(d, diffs, [last]);
      assert ([d] + diffs)[1..] == diffs;
      diffs := [d] + diffs;
    }
  }

  lemma {:induction false} DeletionsFound(z: ZoneInfo, s: State, rs: seq<RRset>, result: Store)
    returns (dels: seq<RRset>, newSoa: RRset, adds: seq<RRset>, diffs: seq<Diff>, last: RRset)
    requires InDeletions(s) && Accepts(z, s, rs, result)
    ensures rs == dels + ([newSoa] + (adds + (Flatten(diffs) + [last])))
    ensures NoOriginSoa(z, dels) && OriginSoa(z, newSoa) && NoOriginSoa(z, adds)
    ensures forall oldSoa: RRset ::
              var a := ApplyDiff(z, s.txn.value, Diff(oldSoa, dels, newSoa, adds));
              a.Success? && Chain(z, s.soa.value, Serial(newSoa), a.value, diffs, last, result)
    decreases |rs|, 0
  {
    hide Step, Steps, Apply, ReplaceIn, SameRRset, Chain, Flatten, OriginSoa;
    var i := DataThenSoa(z, s, rs, result);
    dels, newSoa := rs[..i], rs[i];
    var t := s.(txn := Some(Apply(z, true, s.txn.value, dels).value));
    NewSoaTurns(z, t, newSoa, rs[i + 1..]);
    var u := t.(deleteMode := false, serial := Serial(newSoa), txn := Some(ReplaceIn(z, t.txn.value, newSoa).value));
    adds, diffs, last := AdditionsFound(z, u, rs[i + 1..], result);
  }

  /** Every chain of differences is accepted. */
  lemma {:induction false} ChainAccepted(z: ZoneInfo, s: State, diffs: seq<Diff>, last: RRset, result: Store)
    requires Ready(s) && !s.done && s.kind == IXFR && !s.deleteMode
    requires OriginSoa(z, last) && (diffs == [] ==> !s.expectingSoa)
    requires Chain(z, s.soa.value, s.serial, s.txn.value, diffs, last, result)
    ensures Accepts(z, s, Flatten(diffs) + [last], result)
    decreases diffs
  {
    hide Step, Apply, ReplaceIn, SameRRset;
    if diffs == [] {
      assert Flatten(diffs) + [last] == [last] + [];
      FinalSoaEnds(z, s, last, [], result);
    } else {
      var d := diffs[0];
      var rest3 := Flatten(diffs[1..]) + [last];
      var rest2 := d.additions + rest3;
      var rest1 := d.deletions + ([d.newSoa] + rest2);
      assert diffs == [d] + diffs[1..];
      FlattenCons(d, diffs[1..], [last]);
      OldSoaBegins(z, s, d.oldSoa, rest1);
      var t := s.(deleteMode := true, expectingSoa := false);
      StepsData(z, t, d.deletions, [d.newSoa] + rest2);
      var u := t.(txn := Some(Apply(z, true, t.txn.value, d.deletions).value));
      NewSoaTurns(z, u, d.newSoa, rest2);
      var v := u.(deleteMode := false, serial := Serial(d.newSoa),
                  txn := Some(ReplaceIn(z, u.txn.value, d.newSoa).value));
      StepsData(z, v, d.additions, rest3);
      var w := v.(txn := Some(Apply(z, false, v.txn.value, d.additions).value));
      ChainAccepted(z, w, diffs[1..], last, result);
    }
  }

  // ---------- Exactly which streams transfer a zone ----------

  /** The records of a whole zone, and its SOA again. */
  predicate AxfrTail(z: ZoneInfo, soa: RRset, store: Store, rs: seq<RRset>, result: Store)
    requires rs != []
  {
    var (mid, last) := (rs[..|rs| - 1], rs[|rs| - 1]);
    && SameRRset(last, soa) && NoOriginSoa(z, mid)
    && var a := Apply(z, false, store, mid);
    a.Success? && ReplaceIn(z, a.value, last) == Success(result)
  }

  /** Differences, and the announced SOA again. */
  predicate IxfrTail(z: ZoneInfo, soa: RRset, n: serial, store: Store, rs: seq<RRset>, result: Store, diffs: seq<Diff>)
    requires rs != []
  {
    var (mid, last) := (rs[..|rs| - 1], rs[|rs| - 1]);
    && diffs != [] && mid == Flatten(diffs)
    && Chain(z, soa, n, store, diffs, last, result)
  }

  /** What a stream of records says, independently of how it is read: an SOA first, and then either
      the whole zone, or (for an incremental transfer that leads to another serial, and not back)
      a chain of differences from the current version. */
  ghost predicate Transferred(z: ZoneInfo, kind: Kind, n: serial, zone: Store, rs: seq<RRset>, result: Store) {
    && |rs| >= 2 && OriginSoa(z, rs[0])
    && (kind == AXFR ==> AxfrTail(z, rs[0], map[], rs[1..], result))
    && (kind == IXFR ==>
          && Serial(rs[0]) != n && !Less(Serial(rs[0]), n)
          && (|| (|rs| > 2 && AxfrTail(z, rs[0], map[], rs[1..], result))
              || exists diffs :: IxfrTail(z, rs[0], n, zone, rs[1..], result, diffs)))
  }

  lemma SameRRsetIsOriginSoa(z: ZoneInfo, r: RRset, soa: RRset)
    requires OriginSoa(z, soa)
    ensures SameRRset(r, soa) ==> OriginSoa(z, r)
  {
  }

  lemma UntilLast(z: ZoneInfo, rs: seq<RRset>, i: nat)
    requires rs != [] && i == Until(z, rs)
    ensures i < |rs| - 1 ==> !NoOriginSoa(z, rs[..|rs| - 1])
    ensures i == |rs| ==> !OriginSoa(z, rs[|rs| - 1])
    ensures i >= |rs| - 1 ==> NoOriginSoa(z, rs[..|rs| - 1])
  {
    hide Until, OriginSoa;
    if i < |rs| - 1 {
      assert OriginSoa(z, rs[..|rs| - 1][i]);
    } else if i == |rs| {
      assert !OriginSoa(z, rs[..i][|rs| - 1]);
      assert rs[..i] == rs;
    }
  }

  lemma InnerSoaFails(z: ZoneInfo, s: State, r: RRset, rest: seq<RRset>)
    requires Ready(s) && !s.done && s.kind == AXFR
    requires OriginSoa(z, r) && !SameRRset(r, s.soa.value)
    ensures Steps(z, s, [r] + rest).error.Some?
  {
    hide SameRRset;
    StepsFirst(z, s, r, rest);
  }

  lemma {:induction false} AxfrUpTo(z: ZoneInfo, s: State, rs: seq<RRset>, i: nat, result: Store)
    requires Ready(s) && !s.done && !s.expectingSoa && !s.deleteMode && s.kind == AXFR
    requires i <= |rs| && NoOriginSoa(z, rs[..i]) && (i < |rs| ==> OriginSoa(z, rs[i]))
    ensures Accepts(z, s, rs, result) <==>
            && i == |rs| - 1 && SameRRset(rs[i], s.soa.value)
            && var a := Apply(z, false, s.txn.value, rs[..i]);
            a.Success? && ReplaceIn(z, a.value, rs[i]) == Success(result)
  {
    hide Apply, ReplaceIn, SameRRset, Step, NoOriginSoa, OriginSoa;
    assert rs == rs[..i] + rs[i..];
    StepsData(z, s, rs[..i], rs[i..]);
    var a := Apply(z, false, s.txn.value, rs[..i]);
    if i < |rs| && a.Success? {
      var t := s.(txn := Some(a.value));
      assert rs[i..] == [rs[i]] + rs[i + 1..];
      if SameRRset(rs[i], s.soa.value) {
        FinalSoaEnds(z, t, rs[i], rs[i + 1..], result);
      } else {
        InnerSoaFails(z, t, rs[i], rs[i + 1..]);
      }
    }
  }

  lemma {:induction false} AxfrExact(z: ZoneInfo, s: State, rs: seq<RRset>, result: Store)
    requires Ready(s) && !s.done && !s.expectingSoa && !s.deleteMode && s.kind == AXFR && OriginSoa(z, s.soa.value)
    requires rs != []
    ensures Accepts(z, s, rs, result) <==> AxfrTail(z, s.soa.value, s.txn.value, rs, result)
  {
    hide Apply, ReplaceIn, SameRRset, Step, Until, NoOriginSoa, OriginSoa, Accepts;
    var i := Until(z, rs);
    SameRRsetIsOriginSoa(z, rs[|rs| - 1], s.soa.value);
    UntilLast(z, rs, i);
    AxfrUpTo(z, s, rs, i, result);
  }

  /** Where an incremental transfer expects its first difference. */
  predicate Expecting(z: ZoneInfo, s: State) {
    Ready(s) && !s.done && s.expectingSoa && !s.deleteMode && s.kind == IXFR && OriginSoa(z, s.soa.value)
  }

  /** Anything but an SOA there turns the transfer into that of a whole zone. */
  lemma {:induction false} FallBackSteps(z: ZoneInfo, s: State, rs: seq<RRset>)
    requires Expecting(z, s) && rs != [] && !OriginSoa(z, rs[0])
    ensures Steps(z, s, rs) == Steps(z, FallBack(s), rs)
  {
    hide AddTo, DeleteFrom;
    assert Step(z, s, rs[0]) == Step(z, FallBack(s), rs[0]);
  }

  lemma EmptySequenceFails(z: ZoneInfo, s: State, r: RRset, rest: seq<RRset>)
    requires Expecting(z, s) && SameRRset(r, s.soa.value)
    ensures Steps(z, s, [r] + rest).error == Some(EmptyIxfr)
  {
    SameRRsetIsOriginSoa(z, r, s.soa.value);
    hide SameRRset;
    StepsFirst(z, s, r, rest);
  }

  lemma {:induction false} ChainEndsInSoa(z: ZoneInfo, first: RRset, n: serial, store: Store, diffs: seq<Diff>,
                                          last: RRset, result: Store)
    requires OriginSoa(z, first) && Chain(z, first, n, store, diffs, last, result)
    ensures OriginSoa(z, last)
    decreases diffs
  {
    if diffs == [] {
      SameRRsetIsOriginSoa(z, last, first);
    } else {
      hide ApplyDiff, OriginSoa;
      ChainEndsInSoa(z, first, Serial(diffs[0].newSoa), ApplyDiff(z, store, diffs[0]).value, diffs[1..], last, result);
    }
  }

  lemma {:induction false} ChainFound(z: ZoneInfo, s: State, rs: seq<RRset>, result: Store) returns (diffs: seq<Diff>)
    requires Expecting(z, s) && rs != [] && OriginSoa(z, rs[0]) && Accepts(z, s, rs, result)
    ensures IxfrTail(z, s.soa.value, s.serial, s.txn.value, rs, result, diffs)
  {
    hide Apply, ReplaceIn, SameRRset, Step, ApplyDiff, OriginSoa, Flatten;
    assert rs == [rs[0]] + rs[1..];
    if SameRRset(rs[0], s.soa.value) {
      EmptySequenceFails(z, s, rs[0], rs[1..]);
    }
    OldSoaBegins(z, s, rs[0], rs[1..]);
    var dels, newSoa, adds, more, last :=
      DeletionsFound(z, s.(deleteMode := true, expectingSoa := false), rs[1..], result);
    var d := Diff(rs[0], dels, newSoa, adds);
    FlattenCons(d, more, [last]);
    diffs := [d] + more;
    assert rs == Flatten(diffs) + [last];
    assert rs[..|rs| - 1] == Flatten(diffs);
    assert diffs[1..] == more;
    assert WellFormed(z, s.soa.value, d);
  }

  lemma {:induction false} IxfrExact(z: ZoneInfo, s: State, rs: seq<RRset>, result: Store)
    requires Expecting(z, s) && rs != []
    ensures Accepts(z, s, rs, result) <==>
            || (|rs| > 1 && AxfrTail(z, s.soa.value, map[], rs, result))
            || exists diffs :: IxfrTail(z, s.soa.value, s.serial, s.txn.value, rs, result, diffs)
  {
    hide Apply, ReplaceIn, SameRRset, Step, ApplyDiff, OriginSoa, Chain, Flatten;
    if OriginSoa(z, rs[0]) {
      if Accepts(z, s, rs, result) {
        var diffs := ChainFound(z, s, rs, result);
      }
      assert |rs| > 1 ==> OriginSoa(z, rs[..|rs| - 1][0]);
    } else {
      FallBackSteps(z, s, rs);
      AxfrExact(z, FallBack(s), rs, result);
      SameRRsetIsOriginSoa(z, rs[0], s.soa.value);
    }
    forall diffs | IxfrTail(z, s.soa.value, s.serial, s.txn.value, rs, result, diffs)
      ensures OriginSoa(z, rs[0]) && Accepts(z, s, rs, result)
    {
      ChainTailAccepted(z, s, rs, result, diffs);
    }
  }

  lemma {:induction false} ChainTailAccepted(z: ZoneInfo, s: State, rs: seq<RRset>, result: Store, diffs: seq<Diff>)
    requires Expecting(z, s) && rs != []
    requires IxfrTail(z, s.soa.value, s.serial, s.txn.value, rs, result, diffs)
    ensures OriginSoa(z, rs[0]) && Accepts(z, s, rs, result)
  {
    hide Apply, ReplaceIn, SameRRset, Step, ApplyDiff, OriginSoa;
    var last := rs[|rs| - 1];
    assert rs == Flatten(diffs) + [last];
    assert diffs == [diffs[0]] + diffs[1..];
    FlattenCons(diffs[0], diffs[1..], [last]);
    ChainEndsInSoa(z, s.soa.value, s.serial, s.txn.value, diffs, last, result);
    ChainAccepted(z, s, diffs, last, result);
  }

  function Plain(rs: seq<RRset>): Message {
    Message(0, [], rs)
  }

  /** Exactly which answers change the zone, and to what. */
  lemma {:induction false} TransferExact(z: ZoneInfo, kind: Kind, n: serial, zone: Store, commits: nat,
      rs: seq<RRset>, result: Store)
    ensures var o := Process(z, Start(kind, n, zone, commits), Plain(rs), false);
            o.error.None? && o.state.commits == commits + 1 && o.state.zone == result
            <==> Transferred(z, kind, n, zone, rs, result)
  {
    var s := Open(Start(kind, n, zone, commits));
    var first := FirstRecord(z, s, rs, false);
    ProcessUntorn(z, s, Plain(rs), false, zone, commits);
    hide AxfrTail, IxfrTail, Step, Process, Untorn;
    if first.error.None? {
      if kind == AXFR && |rs| > 1 {
        AxfrExact(z, first.state, rs[1..], result);
      } else if kind == IXFR && Serial(rs[0]) != n && |rs| > 1 {
        IxfrExact(z, first.state, rs[1..], result);
      }
    }
  }
}
