/** Which server a resolution asks when, and after what pause. */
module Attempts {
  import opened Wrappers
  import opened LruCache
  import opened Resolutions
  import opened ResolutionRuns

  function PortOf(config: Config, server: string): nat {
    if server in config.ports then config.ports[server] else config.port
  }

  /** The pause before a round: none before the first, then doubling from a tenth of a second up to two
      seconds. */
  function PauseBefore(round: nat): real {
    if round == 0 then 0.0
    else if round <= 5 then [0.1, 0.2, 0.4, 0.8, 1.6][round - 1]
    else 2.0
  }

  /** The next attempt, and the state after it has timed out. */
  function TimedOut(config: Config, s: State): (State, Option<Attempt>)
    requires !s.retryWithTcp
  {
    var (t, attempt) := NextNameserver(config, s);
    if attempt.None? || !InFlight(t) then (t, attempt)
    else (QueryResult(config, t, Failed(OtherFailure)).0, attempt)
  }

  /** After `k` attempts that have all timed out. */
  function AfterTimeouts(config: Config, s: State, k: nat): (t: State)
    requires !s.retryWithTcp
    ensures !t.retryWithTcp
    decreases k
  {
    if k == 0 then s else TimedOut(config, AfterTimeouts(config, s, k - 1)).0
  }

  /** In round `round`, `done` servers have been asked. */
  predicate InRound(s: State, servers: seq<string>, round: nat, done: nat) {
    && done <= |servers| && s.nameservers == servers && s.current == servers[done..]
    && !s.retryWithTcp && s.backoff == PauseBefore(round + 1)
  }

  lemma OneTimeout(config: Config, s: State, servers: seq<string>, round: nat, done: nat)
    requires InRound(s, servers, round, done) && done < |servers|
    ensures var (t, attempt) := TimedOut(config, s);
            && attempt == Some(Attempt(servers[done], PortOf(config, servers[done]), config.tcp, 0.0))
            && InRound(t, servers, round, done + 1)
  {
    assert servers[done..][1..] == servers[done + 1..];
    assert s.current[0] == servers[done];
  }

  lemma RoundOver(config: Config, s: State, servers: seq<string>, round: nat)
    requires InRound(s, servers, round, |servers|) && servers != []
    ensures var (t, attempt) := TimedOut(config, s);
            && attempt == Some(Attempt(servers[0], PortOf(config, servers[0]), config.tcp, PauseBefore(round + 1)))
            && InRound(t, servers, round + 1, 1)
  {
    assert s.current == [];
  }

  /** While every query times out, the servers are asked in their order, round after round, each at its
      own port, and with a pause before each round. */
  lemma {:induction false} TimeoutsInTurn(config: Config, s: State, servers: seq<string>, round: nat, i: nat)
    requires i < |servers|
    ensures var here := AfterTimeouts(config, Prepared(s, servers), round * |servers| + i);
            && TimedOut(config, here).1
               == Some(Attempt(servers[i], PortOf(config, servers[i]), config.tcp,
                               if i == 0 then PauseBefore(round) else 0.0))
            && InRound(TimedOut(config, here).0, servers, round, i + 1)
    decreases round, i
  {
    var n := |servers|;
    var start := Prepared(s, servers);
    hide TimedOut, PortOf;
    if i > 0 {
      TimeoutsInTurn(config, s, servers, round, i - 1);
      OneTimeout(config, AfterTimeouts(config, start, round * n + i), servers, round, i);
    } else if round > 0 {
      TimeoutsInTurn(config, s, servers, round - 1, n - 1);
      assert (round - 1) * n + (n - 1) + 1 == round * n;
      RoundOver(config, AfterTimeouts(config, start, round * n), servers, round - 1);
    } else {
      assert AfterTimeouts(config, start, 0) == start;
      assert 0 * n + 0 == 0;
      assert InRound(start, servers, 0, 0);
      OneTimeout(config, start, servers, 0, 0);
    }
  }

  /** After a truncated reply, the same server is asked again at the same port, over TCP and at once. */
  lemma TruncatedRetried(config: Config, s: State)
    requires InFlight(s) && !s.tcpAttempt
    ensures var (t, r) := QueryResult(config, s, Failed(Truncated));
            && r == Again
            && NextNameserver(config, t).1 == Some(Attempt(s.nameserver.value, s.port, true, 0.0))
            && t.nameservers == s.nameservers && t.current == s.current
  {
  }

  // ---------- What a reply that settles nothing leaves behind ----------

  /** The fault of a reply: NOERROR and NXDOMAIN are one only when no answer can be made of them. */
  function Fault(reply: Reply): Cause {
    if reply.Failed? then Exception(reply.failure)
    else if reply.rcode == 0 || reply.rcode == 3 then BadAnswer
    else BadRcode(reply.rcode)
  }

  /** The server may do better another time: after a timeout and the like, a truncated datagram, or a
      SERVFAIL that is to be tried again. */
  predicate StillOfUse(config: Config, tcp: bool, reply: Reply) {
    if reply.Failed? then reply.failure == OtherFailure || (reply.failure == Truncated && !tcp)
    else reply.rcode == 2 && config.retryServfail
  }

  /** The fault is on record under the server, port and protocol that were asked, and nothing else is
      new but what becomes of the server. */
  ghost predicate Recorded(s: State, t: State, fault: Cause, kept: bool, again: bool)
    requires s.nameserver.Some?
  {
    && t.errors == s.errors + [Error(s.nameserver.value, s.tcpAttempt, s.port, fault)]
    && (if kept then t.nameservers == s.nameservers
        else multiset(t.nameservers) == multiset(s.nameservers) - multiset{s.nameserver.value})
    && t.retryWithTcp == again
    && t.current == s.current && t.qnames == s.qnames && t.nxdomains == s.nxdomains
  }

  lemma FailureRecorded(config: Config, s: State, failure: Failure)
    requires InFlight(s) && !s.retryWithTcp
    ensures var (t, r) := QueryResult(config, s, Failed(failure));
            && r == Again
            && Recorded(s, t, Fault(Failed(failure)), StillOfUse(config, s.tcpAttempt, Failed(failure)),
                        failure == Truncated && !s.tcpAttempt)
  {
    RemoveTakesOne(s.nameservers, s.nameserver.value);
    hide Remove;
  }

  lemma ResponseRecorded(config: Config, s: State, rcode: nat, answer: Option<Answer>)
    requires InFlight(s) && !s.retryWithTcp && QueryResult(config, s, Responded(rcode, answer)).1 == Again
    ensures Recorded(s, QueryResult(config, s, Responded(rcode, answer)).0, Fault(Responded(rcode, answer)),
                     StillOfUse(config, s.tcpAttempt, Responded(rcode, answer)), false)
  {
    RemoveTakesOne(s.nameservers, s.nameserver.value);
    hide Remove;
  }

  /** When a reply leads to another query, its fault is on record, the server goes exactly when it is of
      no more use, and only a truncated datagram has it asked again over TCP. */
  lemma FaultRecorded(config: Config, s: State, reply: Reply)
    requires InFlight(s) && !s.retryWithTcp && QueryResult(config, s, reply).1 == Again
    ensures Recorded(s, QueryResult(config, s, reply).0, Fault(reply),
                     StillOfUse(config, s.tcpAttempt, reply), reply == Failed(Truncated) && !s.tcpAttempt)
  {
    hide QueryResult, Recorded, Fault, StillOfUse;
    if reply.Failed? {
      FailureRecorded(config, s, reply.failure);
    } else {
      ResponseRecorded(config, s, reply.rcode, reply.answer);
    }
  }
}
