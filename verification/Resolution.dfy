/** The logic of a resolution, apart from its I/O: `_Resolution` of `dns/resolver.py`. */
module Resolutions {
  import opened Wrappers
  import opened Names
  import opened LruCache

  const NOERROR := 0
  const SERVFAIL := 2
  const NXDOMAIN := 3
  const YXDOMAIN := 6
  const ANY := 255

  type Qname = seq<Label>

  /** What the resolver is configured with. */
  datatype Config = Config(
    servers: seq<string>, ports: map<string, nat>, port: nat, retryServfail: bool, tcp: bool,
    raiseOnNoAnswer: bool, rdtype: nat, rdclass: nat)

  /** How a query can fail: with an error that tells that the server is no good (a malformed message,
      the end of a stream, an error of the system), truncated, or any other way, like a timeout. */
  datatype Failure = Unusable | Truncated | OtherFailure

  /** A query fails, or brings a response; `answer` is what that can be made into, if it can. */
  datatype Reply = Failed(failure: Failure) | Responded(rcode: nat, answer: Option<Answer>)

  datatype Cause = Exception(failure: Failure) | BadAnswer | Yxdomain | BadRcode(rcode: nat)

  datatype Error = Error(server: string, tcp: bool, port: nat, cause: Cause)

  datatype State = State(
    qnames: seq<Qname>, qname: Qname, nxdomains: map<Qname, nat>, nameservers: seq<string>,
    current: seq<string>, nameserver: Option<string>, port: nat, tcpAttempt: bool, retryWithTcp: bool,
    backoff: real, errors: seq<Error>)

  function Start(names: seq<Qname>): State {
    State(names, [], map[], [], [], None, 0, false, false, 0.0, [])
  }

  // ---------- next_request ----------

  datatype Requested = Ask | Cached(answer: Answer) | NoAnswer | NoSuchName

  function Prepared(s: State, servers: seq<string>): State {
    s.(nameservers := servers, current := servers, errors := [], nameserver := None, tcpAttempt := false,
       retryWithTcp := false, backoff := 0.1)
  }

  /** One name off the list: `first` is the cached answer to the question, `second` what is cached of
      the name having no data of any type. Nothing when that sends it on to the next name. `servers` is
      the order in which the servers are to be tried. */
  function TakeName(config: Config, s: State, first: Option<Answer>, second: Option<Answer>, servers: seq<string>)
    : (State, Option<Requested>)
    requires s.qnames != []
  {
    var t := s.(qname := s.qnames[0], qnames := s.qnames[1..]);
    if first.Some? then
      (t, Some(if !first.value.hasRRset && config.raiseOnNoAnswer then NoAnswer else Cached(first.value)))
    else if second.Some? && second.value.rcode == NXDOMAIN then
      (t.(nxdomains := t.nxdomains[t.qname := second.value.rcode]), None)
    else
      (Prepared(t, servers), Some(Ask))
  }

  // ---------- next_nameserver ----------

  datatype Attempt = Attempt(server: string, port: nat, tcp: bool, backoff: real)

  function NextNameserver(config: Config, s: State): (State, Option<Attempt>)
    requires s.retryWithTcp ==> s.nameserver.Some?
  {
    if s.retryWithTcp then
      (s.(tcpAttempt := true, retryWithTcp := false), Some(Attempt(s.nameserver.value, s.port, true, 0.0)))
    else if s.current == [] && s.nameservers == [] then (s, None)
    else
      var t := if s.current == []
               then s.(current := s.nameservers, backoff := if s.backoff * 2.0 < 2.0 then s.backoff * 2.0 else 2.0)
               else s;
      var server := t.current[0];
      var port := if server in config.ports then config.ports[server] else config.port;
      (t.(nameserver := Some(server), current := t.current[1..], port := port, tcpAttempt := config.tcp),
       Some(Attempt(server, port, config.tcp, if s.current == [] then s.backoff else 0.0)))
  }

  // ---------- query_result ----------

  datatype Result_ = Again | Done | Answered(answer: Answer) | RaisedNoAnswer | RaisedYxdomain

  /** `list.remove`: the first occurrence goes. */
  function Remove(servers: seq<string>, server: string): seq<string>
    requires server in servers
  {
    if servers[0] == server then servers[1..] else [servers[0]] + Remove(servers[1..], server)
  }

  function Report(s: State, cause: Cause): State
    requires s.nameserver.Some?
  {
    s.(errors := s.errors + [Error(s.nameserver.value, s.tcpAttempt, s.port, cause)])
  }

  function Discard(s: State): State
    requires s.nameserver.Some? && s.nameserver.value in s.nameservers
  {
    s.(nameservers := Remove(s.nameservers, s.nameserver.value))
  }

  /** The server being asked is one of those that are still of use. */
  predicate InFlight(s: State) {
    s.nameserver.Some? && s.nameserver.value in s.nameservers
  }

  function QueryResult(config: Config, s: State, reply: Reply): (State, Result_)
    requires InFlight(s)
  {
    match reply
    case Failed(failure) =>
      var t := Report(s, Exception(failure));
      if failure == Unusable then (Discard(t), Again)
      else if failure == Truncated then (if s.tcpAttempt then Discard(t) else t.(retryWithTcp := true), Again)
      else (t, Again)
    case Responded(rcode, answer) =>
      if rcode == NOERROR then
        if answer.None? then (Discard(Report(s, BadAnswer)), Again)
        else if !answer.value.hasRRset && config.raiseOnNoAnswer then (s, RaisedNoAnswer)
        else (s, Answered(answer.value))
      else if rcode == NXDOMAIN then
        if answer.None? then (Discard(Report(s, BadAnswer)), Again)
        else (s.(nxdomains := s.nxdomains[s.qname := rcode]), Done)
      else if rcode == YXDOMAIN then (Report(s, Yxdomain), RaisedYxdomain)
      else
        var t := if rcode != SERVFAIL || !config.retryServfail then Discard(s) else s;
        (Report(t, BadRcode(rcode)), Again)
  }

  // ---------- The object ----------

  /** What a cache with these items (no items stand for no cache) has for a name: the answer to the
      question, or else what is known of the name having no data of any type; and the items then. The
      clock is read once for each. */
  function LookedUp(config: Config, items: seq<Item>, qname: Qname, now: int, later: int)
    : (Option<Answer>, Option<Answer>, seq<Item>)
  {
    var (key, anyKey) := (CacheKey(qname, config.rdtype, config.rdclass), CacheKey(qname, ANY, config.rdclass));
    var first := Found(items, key, now);
    var after := Gotten(items, key, now);
    if first.Some? then (first, None, after)
    else (first, Found(after, anyKey, later), Gotten(after, anyKey, later))
  }

  /** Names are taken off the list until one settles what to do. The clock shows `clock(k)` when it is
      read next, then `clock(k + 1)`, and so on. */
  function Requesting(config: Config, s: State, items: seq<Item>, clock: nat -> int, k: nat, servers: seq<string>)
    : (State, Requested, seq<Item>)
    decreases |s.qnames|
  {
    if s.qnames == [] then (s, NoSuchName, items)
    else
      var (first, second, after) := LookedUp(config, items, s.qnames[0], clock(k), clock(k + 1));
      var (t, r) := TakeName(config, s, first, second, servers);
      if r.Some? then (t, r.value, after) else Requesting(config, t, after, clock, k + 2, servers)
  }

  /** What a reply puts into the cache. */
  function CachePut(config: Config, s: State, reply: Reply): Option<(CacheKey, Answer)> {
    if reply.Failed? || reply.answer.None? then None
    else if reply.rcode == NOERROR then Some((CacheKey(s.qname, config.rdtype, config.rdclass), reply.answer.value))
    else if reply.rcode == NXDOMAIN then Some((CacheKey(s.qname, ANY, config.rdclass), reply.answer.value))
    else None
  }

  class Resolution {
    const config: Config
    const cache: LRUCache?
    var qnames: seq<Qname>
    var qname: Qname
    var nxdomains: map<Qname, nat>
    var nameservers: seq<string>
    var current: seq<string>
    var nameserver: Option<string>
    var port: nat
    var tcpAttempt: bool
    var retryWithTcp: bool
    var backoff: real
    var errors: seq<Error>

    ghost function Abstract(): State
      reads this
    {
      State(qnames, qname, nxdomains, nameservers, current, nameserver, port, tcpAttempt, retryWithTcp, backoff, errors)
    }

    ghost function Items(): seq<Item>
      reads cache
    {
      if cache == null then [] else cache.items
    }

    constructor (config: Config, cache: LRUCache?, names: seq<Qname>)
      ensures this.config == config && this.cache == cache && Abstract() == Start(names)
    {
      this.config := config;
      this.cache := cache;
      qnames, qname, nxdomains := names, [], map[];
      nameservers, current, nameserver, port := [], [], None, 0;
      tcpAttempt, retryWithTcp, backoff, errors := false, false, 0.0, [];
    }

    /** Looks in the cache for the answer, and if there is none for the name having no data at all. */
    method LookUp(now: int, later: int) returns (first: Option<Answer>, second: Option<Answer>)
      requires cache != null ==> cache.Valid()
      modifies cache, if cache == null then {} else cache.repr
      ensures cache != null ==> cache.Valid() && cache.repr == old(cache.repr)
      ensures (first, second, Items()) == LookedUp(config, old(Items()), qname, now, later)
    {
      hide LRUCache.Valid;
      first, second := None, None;
      if cache != null {
        first := cache.Get(CacheKey(qname, config.rdtype, config.rdclass), now);
        if first.None? {
          second := cache.Get(CacheKey(qname, ANY, config.rdclass), later);
        }
      }
    }

    /** What the loop does with one name. `servers` are the configured servers in the order they are
        to be tried. */
    method NextName(now: int, later: int, servers: seq<string>) returns (r: Option<Requested>)
      requires qnames != [] && (cache != null ==> cache.Valid())
      modifies this, cache, if cache == null then {} else cache.repr
      ensures cache != null ==> cache.Valid() && cache.repr == old(cache.repr)
      ensures var (first, second, after) := LookedUp(config, old(Items()), old(qnames)[0], now, later);
              (Abstract(), r) == TakeName(config, old(Abstract()), first, second, servers) && Items() == after
      ensures qnames == old(qnames)[1..]
    {
      hide LRUCache.Valid, LookedUp;
      qname := qnames[0];
      qnames := qnames[1..];
      var first, second := LookUp(now, later);
      if first.Some? {
        if !first.value.hasRRset && config.raiseOnNoAnswer {
          return Some(NoAnswer);
        }
        return Some(Cached(first.value));
      }
      if second.Some? && second.value.rcode == NXDOMAIN {
        nxdomains := nxdomains[qname := second.value.rcode];
        return None;
      }
      Prepare(servers);
      return Some(Ask);
    }

    method Prepare(servers: seq<string>)
      modifies this
      ensures Abstract() == Prepared(old(Abstract()), servers)
    {
      nameservers, current := servers, servers;
      errors, nameserver, tcpAttempt, retryWithTcp, backoff := [], None, false, false, 0.1;
    }

    method NextRequest(clock: nat -> int, servers: seq<string>) returns (r: Requested)
      requires cache != null ==> cache.Valid()
      modifies this, cache, if cache == null then {} else cache.repr
      ensures cache != null ==> cache.Valid() && cache.repr == old(cache.repr)
      ensures (Abstract(), r, Items()) == Requesting(config, old(Abstract()), old(Items()), clock, 0, servers)
    {
      hide LRUCache.Valid, LookedUp, TakeName;
      var k := 0;
      while |qnames| > 0
        invariant cache != null ==> cache.Valid() && cache.repr == old(cache.repr)
        invariant Requesting(config, old(Abstract()), old(Items()), clock, 0, servers)
                  == Requesting(config, Abstract(), Items(), clock, k, servers)
        decreases |qnames|
      {
        var found := NextName(clock(k), clock(k + 1), servers);
        if found.Some? {
          return found.value;
        }
        k := k + 2;
      }
      return NoSuchName;
    }

    method NextServer() returns (attempt: Option<Attempt>)
      requires retryWithTcp ==> nameserver.Some?
      modifies this
      ensures (Abstract(), attempt) == NextNameserver(config, old(Abstract()))
    {
      if retryWithTcp {
        tcpAttempt := true;
        retryWithTcp := false;
        return Some(Attempt(nameserver.value, port, true, 0.0));
      }
      var pause := 0.0;
      if |current| == 0 {
        if |nameservers| == 0 {
          return None;
        }
        current := nameservers;
        pause := backoff;
        backoff := if backoff * 2.0 < 2.0 then backoff * 2.0 else 2.0;
      }
      nameserver := Some(current[0]);
      current := current[1..];
      port := if nameserver.value in config.ports then config.ports[nameserver.value] else config.port;
      tcpAttempt := config.tcp;
      return Some(Attempt(nameserver.value, port, tcpAttempt, pause));
    }

    method ReportError(cause: Cause)
      requires nameserver.Some?
      modifies `errors
      ensures Abstract() == Report(old(Abstract()), cause)
    {
      errors := errors + [Error(nameserver.value, tcpAttempt, port, cause)];
    }

    method DiscardServer()
      requires InFlight(Abstract())
      modifies `nameservers
      ensures Abstract() == Discard(old(Abstract()))
    {
      nameservers := Remove(nameservers, nameserver.value);
    }

    method TakeResult(reply: Reply) returns (r: Result_)
      requires InFlight(Abstract()) && (cache != null ==> cache.Valid())
      modifies this, cache, if cache == null then {} else cache.repr
      ensures (Abstract(), r) == QueryResult(config, old(Abstract()), reply)
      ensures cache != null ==>
                && cache.Valid() && fresh(cache.repr - old(cache.repr))
                && var put := CachePut(config, old(Abstract()), reply);
                   cache.items == if put.None? then old(cache.items)
                                  else Stored(old(cache.items), old(cache.maxSize), put.value.0, put.value.1)
    {
      hide LRUCache.Valid, Stored;
      if reply.Failed? {
        ReportError(Exception(reply.failure));
        if reply.failure == Unusable {
          DiscardServer();
        } else if reply.failure == Truncated {
          if tcpAttempt {
            DiscardServer();
          } else {
            retryWithTcp := true;
          }
        }
        return Again;
      }
      if reply.rcode == NOERROR {
        if reply.answer.None? {
          ReportError(BadAnswer);
          DiscardServer();
          return Again;
        }
        var answer := reply.answer.value;
        if cache != null {
          cache.Put(CacheKey(qname, config.rdtype, config.rdclass), answer);
        }
        if !answer.hasRRset && config.raiseOnNoAnswer {
          return RaisedNoAnswer;
        }
        return Answered(answer);
      } else if reply.rcode == NXDOMAIN {
        if reply.answer.None? {
          ReportError(BadAnswer);
          DiscardServer();
          return Again;
        }
        nxdomains := nxdomains[qname := reply.rcode];
        if cache != null {
          cache.Put(CacheKey(qname, ANY, config.rdclass), reply.answer.value);
        }
        return Done;
      } else if reply.rcode == YXDOMAIN {
        ReportError(Yxdomain);
        return RaisedYxdomain;
      } else {
        if reply.rcode != SERVFAIL || !config.retryServfail {
          DiscardServer();
        }
        ReportError(BadRcode(reply.rcode));
        return Again;
      }
    }
  }
}
