/** Whole resolutions: the driving loop of `Resolver.resolve`, with any cache and any replies. */
module ResolutionRuns {
  import opened Wrappers
  import opened LruCache
  import opened Resolutions

  datatype End = GotAnswer(answer: Answer) | NoAnswerRaised | NxdomainRaised | NoNameserversRaised | YxdomainRaised

  datatype Phase = Requesting | Querying | Ended(end: End)

  /** `taken` are the names asked for so far; `attempts` counts the queries for the last of them, and
      `kept` those after which the server was kept although it did not answer. */
  datatype System = System(s: State, phase: Phase, taken: seq<Qname>, attempts: nat, kept: nat)

  /** What comes from outside: what the cache holds for a name and the order of the servers, or what
      becomes of a query. */
  datatype Input = Look(first: Option<Answer>, second: Option<Answer>, servers: seq<string>) | Reply(reply: Reply)

  // ---------- Servers ----------

  lemma {:induction false} RemoveTakesOne(servers: seq<string>, server: string)
    requires server in servers
    ensures multiset(Remove(servers, server)) == multiset(servers) - multiset{server}
    decreases servers
  {
    assert servers == [servers[0]] + servers[1..];
    if servers[0] != server {
      RemoveTakesOne(servers[1..], server);
    }
  }

  /** Between two queries: the servers left in this round, and the one to be asked again over TCP, are
      among those still of use. */
  predicate Fair(s: State) {
    && (s.retryWithTcp ==> s.nameserver.Some?)
    && multiset(s.current) + (if s.retryWithTcp then multiset{s.nameserver.value} else multiset{})
       <= multiset(s.nameservers)
  }

  /** The same for the server being asked. */
  predicate Asking(s: State) {
    && InFlight(s) && !s.retryWithTcp
    && multiset(s.current) + multiset{s.nameserver.value} <= multiset(s.nameservers)
  }

  /** An error that takes its server out of the mix. */
  predicate Disqualifies(config: Config, e: Error) {
    match e.cause
    case Exception(failure) => failure == Unusable || (failure == Truncated && e.tcp)
    case BadAnswer => true
    case Yxdomain => false
    case BadRcode(rcode) => rcode != SERVFAIL || !config.retryServfail
  }

  function Discarded(config: Config, errors: seq<Error>): multiset<string>
    decreases |errors|
  {
    if errors == [] then multiset{}
    else
      var last := errors[|errors| - 1];
      Discarded(config, errors[..|errors| - 1])
      + if Disqualifies(config, last) then multiset{last.server} else multiset{}
  }

  /** Every configured server is either of use or has been discarded for an error on record. */
  predicate Accounted(config: Config, s: State) {
    Discarded(config, s.errors) + multiset(s.nameservers) == multiset(config.servers)
  }

  lemma PopFair(round: seq<string>, servers: seq<string>)
    requires round != [] && multiset(round) <= multiset(servers)
    ensures multiset(round[1..]) + multiset{round[0]} <= multiset(servers) && round[0] in servers
  {
    assert round == [round[0]] + round[1..];
    assert multiset(servers)[round[0]] >= 1;
  }

  lemma RetryFair(current: seq<string>, server: string, servers: seq<string>)
    requires multiset(current) + multiset{server} <= multiset(servers)
    ensures server in servers
  {
    assert multiset(servers)[server] >= 1;
  }

  lemma NextFair(config: Config, s: State)
    requires Fair(s) && Accounted(config, s)
    ensures var (t, attempt) := NextNameserver(config, s);
            && Accounted(config, t) && t.nameservers == s.nameservers && t.nxdomains == s.nxdomains
            && t.qname == s.qname && t.qnames == s.qnames
            && (attempt.Some? ==> Asking(t) && attempt.value.server == t.nameserver.value
                                  && (s.retryWithTcp ==> t.tcpAttempt))
            && (attempt.None? ==> !s.retryWithTcp && s.nameservers == [])
  {
    assert multiset(s.current) <= multiset(s.nameservers);
    if s.retryWithTcp {
      RetryFair(s.current, s.nameserver.value, s.nameservers);
    } else if s.current != [] || s.nameservers != [] {
      PopFair(if s.current == [] then s.nameservers else s.current, s.nameservers);
    }
    hide Discarded;
  }

  predicate Keeps(config: Config, reply: Reply) {
    if reply.Failed? then reply.failure == OtherFailure
    else reply.rcode == SERVFAIL && config.retryServfail
  }

  lemma ReportAccounts(config: Config, s: State, cause: Cause, discard: bool)
    requires Asking(s) && Accounted(config, s)
    requires discard <==> Disqualifies(config, Error(s.nameserver.value, s.tcpAttempt, s.port, cause))
    ensures var t := Report(s, cause);
            && (discard ==> Accounted(config, Discard(t)) && Fair(Discard(t))
                            && |Discard(t).nameservers| == |s.nameservers| - 1)
            && (!discard ==> Accounted(config, t) && Fair(t) && Asking(t))
  {
    var t := Report(s, cause);
    assert t.errors[..|t.errors| - 1] == s.errors;
    if discard {
      RemoveTakesOne(s.nameservers, s.nameserver.value);
      assert |multiset(Discard(t).nameservers)| == |Discard(t).nameservers|;
    }
  }

  /** After a reply the books are right again, and either a server is gone, or it is kept, or it is to
      be asked again over TCP, or the name is settled. */
  ghost predicate Booked(config: Config, s: State, t: State, r: Result_, keeps: bool) {
    && Accounted(config, t) && Fair(t) && t.qname == s.qname && t.qnames == s.qnames
    && (r == Again ==>
          t.nxdomains == s.nxdomains
          && (|| (|t.nameservers| == |s.nameservers| - 1 && !t.retryWithTcp)
              || (t.nameservers == s.nameservers && keeps && !t.retryWithTcp)
              || (t.nameservers == s.nameservers && t.retryWithTcp && !s.tcpAttempt)))
    && (r != Again ==> t.nameservers == s.nameservers)
    && (r == Done ==> t.nxdomains == s.nxdomains[s.qname := NXDOMAIN])
    && (r != Done ==> t.nxdomains == s.nxdomains)
  }

  lemma SameBooks(config: Config, s: State, nxdomains: map<Qname, nat>)
    requires Asking(s) && Accounted(config, s)
    ensures Accounted(config, s) && Fair(s)
    ensures Accounted(config, s.(nxdomains := nxdomains)) && Fair(s.(nxdomains := nxdomains))
    ensures Accounted(config, s.(retryWithTcp := true)) && Fair(s.(retryWithTcp := true))
  {
  }

  lemma FailedFair(config: Config, s: State, failure: Failure)
    requires Asking(s) && Accounted(config, s)
    ensures var (t, r) := QueryResult(config, s, Failed(failure));
            Booked(config, s, t, r, Keeps(config, Failed(failure)))
  {
    hide Accounted, Fair, Discarded, Remove;
    var discard := failure == Unusable || (failure == Truncated && s.tcpAttempt);
    ReportAccounts(config, s, Exception(failure), discard);
    var t := Report(s, Exception(failure));
    if !discard {
      SameBooks(config, t, t.nxdomains);
    }
    hide Asking;
  }

  lemma RespondedFair(config: Config, s: State, rcode: nat, answer: Option<Answer>)
    requires Asking(s) && Accounted(config, s)
    ensures var reply := Responded(rcode, answer);
            var (t, r) := QueryResult(config, s, reply);
            Booked(config, s, t, r, Keeps(config, reply))
  {
    hide Accounted, Fair, Discarded, Remove;
    if rcode == NOERROR || rcode == NXDOMAIN {
      if answer.None? {
        ReportAccounts(config, s, BadAnswer, true);
      } else {
        SameBooks(config, s, s.nxdomains[s.qname := rcode]);
      }
    } else if rcode == YXDOMAIN {
      ReportAccounts(config, s, Yxdomain, false);
    } else {
      ReportAccounts(config, s, BadRcode(rcode), rcode != SERVFAIL || !config.retryServfail);
    }
  }

  lemma ResultFair(config: Config, s: State, reply: Reply)
    requires Asking(s) && Accounted(config, s)
    ensures var (t, r) := QueryResult(config, s, reply); Booked(config, s, t, r, Keeps(config, reply))
  {
    hide QueryResult, Booked, Keeps;
    match reply
    case Failed(failure) => FailedFair(config, s, failure);
    case Responded(rcode, answer) => RespondedFair(config, s, rcode, answer);
  }

  // ---------- The driving loop ----------

  predicate Covers(s: State, taken: seq<Qname>) {
    forall q | q in taken :: q in s.nxdomains
  }

  /** At most two queries for each server discarded and for each reply after which it was kept. */
  predicate Bounded(config: Config, y: System) {
    && |y.s.nameservers| <= |config.servers|
    && y.attempts <= 2 * (|config.servers| - |y.s.nameservers| + y.kept) + (if y.s.retryWithTcp then 1 else 0)
  }

  ghost predicate Inv(config: Config, names: seq<Qname>, y: System) {
    && names == y.taken + y.s.qnames
    && (forall q | q in y.s.nxdomains :: y.s.nxdomains[q] == NXDOMAIN)
    && (y.phase == Requesting ==> Covers(y.s, y.taken))
    && (y.phase == Querying ==>
          && y.taken != [] && y.s.qname == y.taken[|y.taken| - 1] && Covers(y.s, y.taken[..|y.taken| - 1])
          && Fair(y.s) && Accounted(config, y.s) && Bounded(config, y))
    && (y.phase == Ended(NxdomainRaised) ==> y.s.qnames == [] && Covers(y.s, y.taken))
    && (y.phase == Ended(NoNameserversRaised) ==> y.s.nameservers == [] && Accounted(config, y.s))
    && y.attempts <= 2 * (|config.servers| + y.kept)
  }

  function Initial(names: seq<Qname>): System {
    System(Start(names), Requesting, [], 0, 0)
  }

  /** One name taken off the list. The servers are tried in any order. */
  function Look(config: Config, y: System, first: Option<Answer>, second: Option<Answer>, servers: seq<string>): System
    requires y.s.qnames != []
  {
    var (t, r) := TakeName(config, y.s, first, second, servers);
    var z := y.(s := t, taken := y.taken + [y.s.qnames[0]]);
    if r.None? then z
    else match r.value
      case Ask => z.(phase := Querying, attempts := 0, kept := 0)
      case Cached(answer) => z.(phase := Ended(GotAnswer(answer)))
      case _ => z.(phase := Ended(NoAnswerRaised))
  }

  function PhaseAfter(r: Result_): Phase {
    match r
    case Again => Querying
    case Done => Requesting
    case Answered(answer) => Ended(GotAnswer(answer))
    case RaisedNoAnswer => Ended(NoAnswerRaised)
    case RaisedYxdomain => Ended(YxdomainRaised)
  }

  function Queried(y: System, t: State, r: Result_, keeps: bool): System {
    y.(s := t, phase := PhaseAfter(r), attempts := y.attempts + 1, kept := y.kept + if keeps then 1 else 0)
  }

  /** One query to the next server, and what its reply leads to. */
  function Ask(config: Config, y: System, reply: Reply): System
    requires Fair(y.s) && Accounted(config, y.s)
  {
    NextFair(config, y.s);
    var (s, attempt) := NextNameserver(config, y.s);
    if attempt.None? then y.(s := s, phase := Ended(NoNameserversRaised))
    else
      var (t, r) := QueryResult(config, s, reply);
      Queried(y, t, r, Keeps(config, reply))
  }

  /** One step of the loop; an input of the wrong kind changes nothing. */
  ghost function Step(config: Config, names: seq<Qname>, y: System, input: Input): System
    requires Inv(config, names, y)
  {
    if y.phase == Requesting && y.s.qnames == [] then y.(phase := Ended(NxdomainRaised))
    else if y.phase == Requesting && input.Look? && multiset(input.servers) == multiset(config.servers) then
      Look(config, y, input.first, input.second, input.servers)
    else if y.phase == Querying && input.Reply? then Ask(config, y, input.reply)
    else y
  }

  lemma {:induction false} LookKeeps(config: Config, names: seq<Qname>, y: System, first: Option<Answer>,
      second: Option<Answer>,
                  servers: seq<string>)
    requires Inv(config, names, y) && y.phase == Requesting && y.s.qnames != []
    requires multiset(servers) == multiset(config.servers)
    ensures Inv(config, names, Look(config, y, first, second, servers))
  {
    var z := Look(config, y, first, second, servers);
    assert y.taken + y.s.qnames == z.taken + z.s.qnames;
    assert z.taken[..|z.taken| - 1] == y.taken;
    assert |multiset(servers)| == |servers| && |multiset(config.servers)| == |config.servers|;
  }

  lemma AskBounded(config: Config, y: System, s: State, t: State, r: Result_, keeps: bool)
    requires Bounded(config, y) && s.nameservers == y.s.nameservers != [] && (y.s.retryWithTcp ==> s.tcpAttempt)
    requires Booked(config, s, t, r, keeps)
    ensures var z := Queried(y, t, r, keeps);
            z.attempts <= 2 * (|config.servers| + z.kept) && (r == Again ==> Bounded(config, z))
  {
    hide Accounted, Fair;
  }

  lemma AskCovers(config: Config, names: seq<Qname>, y: System, s: State, t: State, r: Result_, keeps: bool)
    requires Inv(config, names, y) && y.phase == Querying
    requires s.nxdomains == y.s.nxdomains && s.qname == y.s.qname && s.qnames == y.s.qnames
    requires Booked(config, s, t, r, keeps)
    ensures names == y.taken + t.qnames && t.qname == y.s.qname
    ensures forall q | q in t.nxdomains :: t.nxdomains[q] == NXDOMAIN
    ensures Covers(t, y.taken[..|y.taken| - 1]) && (r == Done ==> Covers(t, y.taken))
  {
    hide Accounted, Fair, Bounded;
    assert y.taken == y.taken[..|y.taken| - 1] + [y.s.qname];
  }

  lemma QueriedKeeps(config: Config, names: seq<Qname>, y: System, s: State, t: State, r: Result_, keeps: bool)
    requires Inv(config, names, y) && y.phase == Querying
    requires s.nxdomains == y.s.nxdomains && s.qname == y.s.qname && s.qnames == y.s.qnames
    requires s.nameservers == y.s.nameservers != [] && (y.s.retryWithTcp ==> s.tcpAttempt)
    requires Booked(config, s, t, r, keeps)
    ensures Inv(config, names, Queried(y, t, r, keeps))
  {
    hide Accounted, Fair, Covers, Bounded;
    AskCovers(config, names, y, s, t, r, keeps);
    AskBounded(config, y, s, t, r, keeps);
  }

  lemma OutOfServers(config: Config, names: seq<Qname>, y: System, t: State)
    requires Inv(config, names, y) && y.phase == Querying && t.nameservers == [] && Accounted(config, t)
    requires t.nxdomains == y.s.nxdomains && t.qname == y.s.qname && t.qnames == y.s.qnames
    ensures Inv(config, names, y.(s := t, phase := Ended(NoNameserversRaised)))
  {
    hide Accounted, Fair, Covers, Bounded;
  }

  lemma {:induction false} AskKeeps(config: Config, names: seq<Qname>, y: System, reply: Reply)
    requires Inv(config, names, y) && y.phase == Querying
    ensures Inv(config, names, Ask(config, y, reply))
  {
    NextFair(config, y.s);
    var (s, attempt) := NextNameserver(config, y.s);
    hide Inv, Accounted, Fair, NextNameserver, QueryResult, Booked, Keeps, Queried;
    if attempt.None? {
      OutOfServers(config, names, y, s);
    } else {
      ResultFair(config, s, reply);
      var (t, r) := QueryResult(config, s, reply);
      QueriedKeeps(config, names, y, s, t, r, Keeps(config, reply));
    }
  }

  lemma {:induction false} StepKeeps(config: Config, names: seq<Qname>, y: System, input: Input)
    requires Inv(config, names, y)
    ensures Inv(config, names, Step(config, names, y, input))
  {
    if y.phase == Requesting && y.s.qnames != [] && input.Look? && multiset(input.servers) == multiset(config.servers) {
      LookKeeps(config, names, y, input.first, input.second, input.servers);
    } else if y.phase == Querying && input.Reply? {
      AskKeeps(config, names, y, input.reply);
    }
    hide Look, Ask;
  }

  ghost function Run(config: Config, names: seq<Qname>, y: System, inputs: seq<Input>): System
    requires Inv(config, names, y)
    decreases inputs
  {
    if inputs == [] then y
    else
      StepKeeps(config, names, y, inputs[0]);
      Run(config, names, Step(config, names, y, inputs[0]), inputs[1..])
  }

  lemma {:induction false} RunInv(config: Config, names: seq<Qname>, y: System, inputs: seq<Input>)
    requires Inv(config, names, y)
    ensures Inv(config, names, Run(config, names, y, inputs))
    decreases inputs
  {
    hide Inv, Step;
    if inputs != [] {
      StepKeeps(config, names, y, inputs[0]);
      RunInv(config, names, Step(config, names, y, inputs[0]), inputs[1..]);
    }
  }

  /** In every run: NXDOMAIN is raised only when every name to be tried has an NXDOMAIN response on
      record, and the lack of servers only when every configured one has been discarded for an error. */
  lemma {:induction false} EndsForAReason(config: Config, names: seq<Qname>, inputs: seq<Input>)
    ensures Inv(config, names, Initial(names))
    ensures var y := Run(config, names, Initial(names), inputs);
            && (y.phase == Ended(NxdomainRaised) ==>
                  forall q | q in names :: q in y.s.nxdomains && y.s.nxdomains[q] == NXDOMAIN)
            && (y.phase == Ended(NoNameserversRaised) ==>
                  Discarded(config, y.s.errors) == multiset(config.servers))
  {
    RunInv(config, names, Initial(names), inputs);
    hide Run, Discarded;
  }

  /** In every run: the server asked is one of those still of use, so that it can be removed; and a
      name takes at most two queries for each server and for each reply that kept one. */
  lemma {:induction false} AttemptsBounded(config: Config, names: seq<Qname>, inputs: seq<Input>)
    ensures Inv(config, names, Initial(names))
    ensures var y := Run(config, names, Initial(names), inputs);
            && y.attempts <= 2 * (|config.servers| + y.kept)
            && (y.phase == Querying ==>
                  && (y.s.retryWithTcp ==> y.s.nameserver.Some?)
                  && var (t, attempt) := NextNameserver(config, y.s);
                     attempt.Some? ==> InFlight(t) && t.nameserver == Some(attempt.value.server))
  {
    RunInv(config, names, Initial(names), inputs);
    var y := Run(config, names, Initial(names), inputs);
    hide Run, Discarded;
    if y.phase == Querying {
      NextFair(config, y.s);
    }
  }

  // ---------- How a resolution ends ----------

  /** There is a server to ask. */
  predicate Served(s: State) {
    s.retryWithTcp || s.nameservers != []
  }

  /** The input is an answer for the name in hand: from the cache, or a response without an error. */
  predicate Brings(config: Config, y: System, input: Input, a: Answer) {
    || (y.phase == Requesting && y.s.qnames != [] && input.Look? && input.first == Some(a)
        && multiset(input.servers) == multiset(config.servers))
    || (y.phase == Querying && Served(y.s) && input == Reply(Responded(0, Some(a))))
  }

  /** The answer has data, or it is not asked to. */
  predicate Acceptable(config: Config, a: Answer) {
    a.hasRRset || !config.raiseOnNoAnswer
  }

  /** What must come in for each ending. */
  ghost predicate Causes(config: Config, y: System, input: Input, end: End) {
    match end
    case GotAnswer(a) => Brings(config, y, input, a) && Acceptable(config, a)
    case NoAnswerRaised => exists a :: Brings(config, y, input, a) && !Acceptable(config, a)
    case YxdomainRaised =>
      y.phase == Querying && Served(y.s) && input.Reply? && input.reply.Responded? && input.reply.rcode == 6
    case NxdomainRaised => y.phase == Requesting && y.s.qnames == []
    case NoNameserversRaised => y.phase == Querying && input.Reply? && !Served(y.s)
  }

  lemma ServerFound(config: Config, s: State)
    requires Fair(s)
    ensures NextNameserver(config, s).1.Some? <==> Served(s)
  {
    assert multiset(s.current) <= multiset(s.nameservers);
    if s.current != [] {
      PopFair(s.current, s.nameservers);
    }
  }

  /** The results of a query that end a resolution. */
  lemma ResultMeans(config: Config, s: State, reply: Reply)
    requires InFlight(s)
    ensures var r := QueryResult(config, s, reply).1;
            && (forall a :: r == Answered(a) <==> reply == Responded(0, Some(a)) && Acceptable(config, a))
            && (r == RaisedNoAnswer <==>
                  reply.Responded? && reply.rcode == 0 && reply.answer.Some? && !Acceptable(config, reply.answer.value))
            && (r == RaisedYxdomain <==> reply.Responded? && reply.rcode == 6)
  {
    hide Remove;
  }

  /** A reply ends a resolution in this way. */
  predicate Concludes(config: Config, reply: Reply, end: End) {
    && reply.Responded?
    && match end
       case GotAnswer(a) => reply == Responded(0, Some(a)) && Acceptable(config, a)
       case NoAnswerRaised => reply.rcode == 0 && reply.answer.Some? && !Acceptable(config, reply.answer.value)
       case YxdomainRaised => reply.rcode == 6
       case _ => false
  }

  lemma ReplyCauses(config: Config, y: System, reply: Reply, end: End)
    requires y.phase == Querying
    ensures Causes(config, y, Input.Reply(reply), end)
            <==> if Served(y.s) then Concludes(config, reply, end) else end == NoNameserversRaised
  {
    hide Acceptable, Served;
    if Served(y.s) && end == NoAnswerRaised && Concludes(config, reply, end) {
      assert Brings(config, y, Input.Reply(reply), reply.answer.value);
    }
  }

  lemma AskEnds(config: Config, y: System, reply: Reply, end: End)
    requires y.phase == Querying && Fair(y.s) && Accounted(config, y.s)
    ensures Ask(config, y, reply).phase == Ended(end) <==> Causes(config, y, Input.Reply(reply), end)
  {
    ServerFound(config, y.s);
    NextFair(config, y.s);
    ReplyCauses(config, y, reply, end);
    var (s, attempt) := NextNameserver(config, y.s);
    if attempt.Some? {
      ResultMeans(config, s, reply);
    }
    hide Accounted, Fair, NextNameserver, QueryResult, Keeps, Acceptable, Served, Causes, Asking;
  }

  lemma LookEnds(config: Config, y: System, input: Input, end: End)
    requires y.phase == Requesting && y.s.qnames != [] && input.Look?
    requires multiset(input.servers) == multiset(config.servers)
    ensures Look(config, y, input.first, input.second, input.servers).phase == Ended(end)
            <==> Causes(config, y, input, end)
  {
    if input.first.Some? {
      assert Brings(config, y, input, input.first.value);
    }
  }

  /** A step ends the resolution in one of the five ways exactly when that is what comes in. */
  lemma StepEnds(config: Config, names: seq<Qname>, y: System, input: Input, end: End)
    requires Inv(config, names, y) && !y.phase.Ended?
    ensures Step(config, names, y, input).phase == Ended(end) <==> Causes(config, y, input, end)
  {
    if y.phase == Requesting && y.s.qnames != [] && input.Look? && multiset(input.servers) == multiset(config.servers) {
      LookEnds(config, y, input, end);
    } else if y.phase == Querying && input.Reply? {
      AskEnds(config, y, input.reply, end);
    }
    hide Inv, Look, Ask;
  }

  lemma {:induction false} EndedStays(config: Config, names: seq<Qname>, y: System, inputs: seq<Input>)
    requires Inv(config, names, y) && y.phase.Ended?
    ensures Run(config, names, y, inputs) == y
    decreases inputs
  {
    hide Inv;
    if inputs != [] {
      assert Step(config, names, y, inputs[0]) == y;
      EndedStays(config, names, y, inputs[1..]);
    }
  }

  lemma {:induction false} LastStep(config: Config, names: seq<Qname>, y: System, inputs: seq<Input>)
    returns (k: nat)
    requires Inv(config, names, y) && !y.phase.Ended? && Run(config, names, y, inputs).phase.Ended?
    ensures k < |inputs|
    ensures var z := Run(config, names, y, inputs[..k]);
            && Inv(config, names, z) && !z.phase.Ended?
            && Step(config, names, z, inputs[k]) == Run(config, names, y, inputs)
    decreases inputs
  {
    hide Inv, Step;
    StepKeeps(config, names, y, inputs[0]);
    var z := Step(config, names, y, inputs[0]);
    if z.phase.Ended? {
      k := 0;
      EndedStays(config, names, z, inputs[1..]);
      assert inputs[..0] == [];
    } else {
      var j := LastStep(config, names, z, inputs[1..]);
      k := j + 1;
      assert inputs[..k][1..] == inputs[1..][..j];
    }
  }

  /** In every run that ends, one input ends it, and which of the five ways it is follows from that
      input alone. */
  lemma {:induction false} EndsExactly(config: Config, names: seq<Qname>, inputs: seq<Input>) returns (k: nat)
    ensures Inv(config, names, Initial(names))
    ensures Run(config, names, Initial(names), inputs).phase.Ended? ==>
              && k < |inputs| && !Run(config, names, Initial(names), inputs[..k]).phase.Ended?
              && forall end ::
                   Run(config, names, Initial(names), inputs).phase == Ended(end)
                   <==> Causes(config, Run(config, names, Initial(names), inputs[..k]), inputs[k], end)
  {
    var start := Initial(names);
    assert Inv(config, names, start);
    hide Inv, Causes, Step;
    k := 0;
    if Run(config, names, start, inputs).phase.Ended? {
      k := LastStep(config, names, start, inputs);
      var y := Run(config, names, start, inputs[..k]);
      forall end
        ensures Run(config, names, start, inputs).phase == Ended(end) <==> Causes(config, y, inputs[k], end)
      {
        StepEnds(config, names, y, inputs[k], end);
      }
    }
  }
}
