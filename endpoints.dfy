/**
 * Broker endpoints: the failover split of the broker URI in _init, and the choice of endpoint and
 * the bounded retry of _makeConnection.
 */
module Endpoints {
  import opened Wrappers
  import opened Sequences
  import opened Errors
  import opened Text
  import opened OrderedMaps
  import opened Frames

  /** One broker as parse_url describes it: host, optional port, scheme. */
  datatype Endpoint = Endpoint(host: string, port: Option<int>, scheme: string)

  /** The three groups the broker URI pattern captures: scheme, host list, query string. */
  datatype UriParts = UriParts(scheme: string, hosts: string, query: string)

  /**
   * The library parsers _init relies on, whose grammar is not part of this model: the broker URI
   * pattern, parse_url and parse_str.
   */
  datatype Parsers = Parsers(
    matchUri: string -> Option<UriParts>,
    parseUrl: string -> Option<Endpoint>,
    parseQuery: string -> Headers)

  const DefaultPort: int := 61613

  /** Connection attempts per _makeConnection. */
  const Attempts: nat := 10

  /** The URLs _init hands to parse_url: the whole URI, or each comma-separated failover host. */
  function UrlPieces(uri: string, parts: UriParts): (pieces: seq<string>)
    ensures parts.scheme != "failover" ==> pieces == [uri]
    ensures parts.scheme == "failover" ==> |pieces| == Count(parts.hosts, ',') + 1 && Join(pieces, ',') == parts.hosts
    ensures parts.scheme == "failover" ==> forall i :: 0 <= i < |pieces| ==> ',' !in pieces[i]
  {
    if parts.scheme != "failover" then [uri] else Split(parts.hosts, ',')
  }

  /** The failover list names its brokers one per comma-free piece, in the order written. */
  lemma FailoverPiecesInOrder(uri: string, hosts: seq<string>, query: string)
    requires |hosts| >= 1 && forall i :: 0 <= i < |hosts| ==> ',' !in hosts[i]
    ensures UrlPieces(uri, UriParts("failover", Join(hosts, ','), query)) == hosts
  {
    SplitJoin(hosts, ',');
  }

  /**
   * The endpoints of the longest prefix of `pieces` that parse_url accepts, in order: the hosts
   * _processUrl has pushed when the loop stops, normally or at the first bad URL.
   */
  function ParsedPrefix(pieces: seq<string>, parseUrl: string -> Option<Endpoint>): (r: seq<Endpoint>)
    ensures |r| <= |pieces|
    ensures forall i :: 0 <= i < |r| ==> parseUrl(pieces[i]) == Some(r[i])
    ensures |r| < |pieces| ==> parseUrl(pieces[|r|]).None?
  {
    if pieces == [] then []
    else match parseUrl(pieces[0])
      case None => []
      case Some(e) => [e] + ParsedPrefix(pieces[1..], parseUrl)
  }

  /** The result of _init: whether the URI was accepted, the hosts pushed and the query parameters. */
  datatype Setup = Setup(outcome: Outcome<StompError>, hosts: seq<Endpoint>, params: Headers)

  /**
   * _init from the hosts and parameters held before: reject a URI the pattern refuses; push one
   * endpoint per URL piece until one fails parse_url, which rejects that piece; parse the query
   * string, when there is one, into the parameters.
   */
  function InitSpec(uri: string, parsers: Parsers, hosts: seq<Endpoint>, params: Headers): (r: Setup)
    ensures |hosts| <= |r.hosts| && r.hosts[..|hosts|] == hosts
    ensures r.outcome.Fail? ==> r.params == params
  {
    match parsers.matchUri(uri)
    case None => Setup(Fail(BadBrokerUrl(uri)), hosts, params)
    case Some(parts) =>
      var pieces := UrlPieces(uri, parts);
      var parsed := ParsedPrefix(pieces, parsers.parseUrl);
      if |parsed| < |pieces| then Setup(Fail(BadBrokerUrl(pieces[|parsed|])), hosts + parsed, params)
      else Setup(Pass, hosts + parsed, if parts.query != "" then parsers.parseQuery(parts.query) else params)
  }

  lemma InitFailoverPrefix(uri: string, parsers: Parsers, urls: seq<string>, query: string)
    requires |urls| >= 1 && forall i :: 0 <= i < |urls| ==> ',' !in urls[i]
    requires parsers.matchUri(uri) == Some(UriParts("failover", Join(urls, ','), query))
    ensures var parsed := ParsedPrefix(urls, parsers.parseUrl);
      var r := InitSpec(uri, parsers, [], []);
      r.hosts == parsed && r.outcome == if |parsed| < |urls| then Fail(BadBrokerUrl(urls[|parsed|])) else Pass
  {
    FailoverPiecesInOrder(uri, urls, query);
    assert [] + ParsedPrefix(urls, parsers.parseUrl) == ParsedPrefix(urls, parsers.parseUrl);
  }

  /** A failover URI whose pieces all parse gives one endpoint per piece, in the order written. */
  lemma InitSplitsFailover(uri: string, parsers: Parsers, urls: seq<string>, query: string)
    requires |urls| >= 1 && forall i :: 0 <= i < |urls| ==> ',' !in urls[i]
    requires parsers.matchUri(uri) == Some(UriParts("failover", Join(urls, ','), query))
    requires forall i :: 0 <= i < |urls| ==> parsers.parseUrl(urls[i]).Some?
    ensures var r := InitSpec(uri, parsers, [], []);
      r.outcome == Pass && |r.hosts| == |urls| && forall i :: 0 <= i < |urls| ==> Some(r.hosts[i]) == parsers.parseUrl(urls[i])
  {
    InitFailoverPrefix(uri, parsers, urls, query);
  }

  /**
   * The first failover piece that does not parse rejects the URI, naming that piece, after the
   * pieces before it were added.
   */
  lemma InitRejectsPiece(uri: string, parsers: Parsers, urls: seq<string>, query: string, b: nat)
    requires |urls| >= 1 && forall i :: 0 <= i < |urls| ==> ',' !in urls[i]
    requires parsers.matchUri(uri) == Some(UriParts("failover", Join(urls, ','), query))
    requires b < |urls| && parsers.parseUrl(urls[b]).None?
    requires forall i :: 0 <= i < b ==> parsers.parseUrl(urls[i]).Some?
    ensures var r := InitSpec(uri, parsers, [], []);
      r.outcome == Fail(BadBrokerUrl(urls[b])) && |r.hosts| == b
  {
    InitFailoverPrefix(uri, parsers, urls, query);
    var parsed := ParsedPrefix(urls, parsers.parseUrl);
    assert |parsed| <= b;
  }

  /** `$port == null`: a missing port and port 0 both mean the default STOMP port. */
  function EffectivePort(port: Option<int>): (p: int)
    ensures port.Some? && port.value != 0 ==> p == port.value
    ensures port.None? || port.value == 0 ==> p == DefaultPort
  {
    if port.None? || port.value == 0 then DefaultPort else port.value
  }

  /** `($i + 1) % count($this->_hosts)`: the next index round robin, wrapping to the first host. */
  function Following(i: int, n: nat): (j: nat)
    requires n > 0 && -1 <= i < n
    ensures j == if i + 1 < n then i + 1 else 0
  {
    if i + 1 == n then assert i + 1 == n * 1 + 0; (i + 1) % n else (i + 1) % n
  }

  /** The index the next attempt dials, and the random draws left. */
  function NextIndex(randomize: bool, i: int, n: nat, draws: seq<nat>): (r: (nat, seq<nat>))
    requires n > 0 && -1 <= i < n
    ensures r.0 < n
  {
    if randomize then
      if draws == [] then (0, []) else (draws[0] % n, draws[1..])
    else (Following(i, n), draws)
  }

  /** The outcome of _makeConnection's loop and what it used up of the dial and draw scripts. */
  datatype Dialing = Dialing(outcome: Result<nat, StompError>, dialed: seq<nat>, dialResults: seq<bool>, draws: seq<nat>)

  /**
   * _makeConnection's loop from the index `i` last tried, after `att` attempts: dial the next
   * index; on success stop there; after a failed last attempt on the last host, fail naming it;
   * once the attempts are used up, fail without naming a host.
   */
  function Dial(hosts: seq<Endpoint>, randomize: bool, i: int, att: nat, results: seq<bool>, draws: seq<nat>): (d: Dialing)
    requires |hosts| > 0 && -1 <= i < |hosts| && att <= Attempts
    ensures |d.dialed| <= Attempts - att
    decreases Attempts - att
  {
    if att >= Attempts then Dialing(Failure(CouldNotConnect), [], results, draws)
    else
      var next := NextIndex(randomize, i, |hosts|, draws);
      var j := next.0;
      var ok := results != [] && results[0];
      var results' := if results == [] then [] else results[1..];
      if !ok && att + 1 >= Attempts && j + 1 >= |hosts| then
        Dialing(Failure(CouldNotConnectTo(hosts[j].host, EffectivePort(hosts[j].port), att + 1, Attempts)), [j], results', next.1)
      else if ok then Dialing(Success(j), [j], results', next.1)
      else
        var rest := Dial(hosts, randomize, j, att + 1, results', next.1);
        rest.(dialed := [j] + rest.dialed)
  }

  /**
   * The same loop as _makeConnection runs it, carrying the indexes dialed so far: each turn
   * picks the next index, dials it, and either stops or goes round again.
   */
  function DialOn(hosts: seq<Endpoint>, randomize: bool, tried: seq<nat>, i: int, att: nat, results: seq<bool>,
                  draws: seq<nat>): Dialing
    requires |hosts| > 0 && -1 <= i < |hosts| && att <= Attempts
    decreases Attempts - att
  {
    if att >= Attempts then Dialing(Failure(CouldNotConnect), tried, results, draws)
    else
      var next := NextIndex(randomize, i, |hosts|, draws);
      var j := next.0;
      var ok := results != [] && results[0];
      var results' := if results == [] then [] else results[1..];
      if !ok && att + 1 >= Attempts && j + 1 >= |hosts| then
        Dialing(Failure(CouldNotConnectTo(hosts[j].host, EffectivePort(hosts[j].port), att + 1, Attempts)), tried + [j], results', next.1)
      else if ok then Dialing(Success(j), tried + [j], results', next.1)
      else DialOn(hosts, randomize, tried + [j], j, att + 1, results', next.1)
  }

  /** The loop with its running record agrees with Dial: the record is the indexes tried before, then Dial's. */
  lemma {:induction false} DialOnDial(hosts: seq<Endpoint>, randomize: bool, tried: seq<nat>, i: int, att: nat,
                                      results: seq<bool>, draws: seq<nat>)
    requires |hosts| > 0 && -1 <= i < |hosts| && att <= Attempts
    ensures var d := Dial(hosts, randomize, i, att, results, draws);
      DialOn(hosts, randomize, tried, i, att, results, draws) == d.(dialed := tried + d.dialed)
    decreases Attempts - att
  {
    if att < Attempts {
      var next := NextIndex(randomize, i, |hosts|, draws);
      var j := next.0;
      var ok := results != [] && results[0];
      var results' := if results == [] then [] else results[1..];
      DialStep(hosts, randomize, i, att, results, draws);
      if !ok && !(att + 1 >= Attempts && j + 1 >= |hosts|) {
        var rest := Dial(hosts, randomize, j, att + 1, results', next.1);
        DialOnDial(hosts, randomize, tried + [j], j, att + 1, results', next.1);
        AppendAssociates(tried, [j], rest.dialed);
      }
    } else {
      AppendEmpty(tried);
    }
  }

  /** Every index dialed names one of `n` hosts, and a success is the last index dialed. */
  predicate DialedWithin(d: Dialing, n: nat)
  {
    && (forall k :: 0 <= k < |d.dialed| ==> d.dialed[k] < n)
    && (d.outcome.Success? ==> d.dialed != [] && d.outcome.value == d.dialed[|d.dialed| - 1])
  }

  /** Dialing one more index in range before the rest keeps the dialing within range. */
  lemma DialedWithinPrepend(rest: Dialing, j: nat, n: nat)
    requires j < n && DialedWithin(rest, n)
    ensures DialedWithin(rest.(dialed := [j] + rest.dialed), n)
  {
    var d := rest.(dialed := [j] + rest.dialed);
    forall k | 1 <= k < |d.dialed| ensures d.dialed[k] == rest.dialed[k - 1] { }
  }

  /** Every index _makeConnection dials names a configured host, and it connects to the last one dialed. */
  lemma {:induction false} DialInRange(hosts: seq<Endpoint>, randomize: bool, i: int, att: nat, results: seq<bool>, draws: seq<nat>)
    requires |hosts| > 0 && -1 <= i < |hosts| && att <= Attempts
    ensures DialedWithin(Dial(hosts, randomize, i, att, results, draws), |hosts|)
    decreases Attempts - att
  {
    if att < Attempts {
      var next := NextIndex(randomize, i, |hosts|, draws);
      var results' := if results == [] then [] else results[1..];
      DialStep(hosts, randomize, i, att, results, draws);
      DialInRange(hosts, randomize, next.0, att + 1, results', next.1);
      DialedWithinPrepend(Dial(hosts, randomize, next.0, att + 1, results', next.1), next.0, |hosts|);
    }
  }

  /** The first of the next `limit` dial results that succeeds, if any. */
  function FirstSuccess(results: seq<bool>, limit: nat): (r: Option<nat>)
    ensures r.Some? ==> r.value < limit && r.value < |results| && results[r.value]
    ensures r.Some? ==> forall k :: 0 <= k < r.value ==> !results[k]
    ensures r.None? ==> forall k :: 0 <= k < limit && k < |results| ==> !results[k]
  {
    if limit == 0 || results == [] then None
    else if results[0] then Some(0)
    else match FirstSuccess(results[1..], limit - 1)
      case None => None
      case Some(k) => Some(k + 1)
  }

  /** The indices round robin visits after `i`, each the one following the one before. */
  function RoundRobin(i: int, n: nat, count: nat): (r: seq<nat>)
    requires n > 0 && -1 <= i < n
    ensures |r| == count
    ensures forall k :: 0 <= k < count ==> r[k] < n
    ensures count > 0 ==> r[0] == Following(i, n)
    ensures forall k :: 0 <= k < count - 1 ==> r[k + 1] == Following(r[k], n)
    decreases count
  {
    if count == 0 then [] else [Following(i, n)] + RoundRobin(Following(i, n), n, count - 1)
  }

  /** From the initial index -1, the first attempts try the hosts in the order they were listed. */
  lemma {:induction false} RoundRobinFromStart(i: int, n: nat, count: nat)
    requires n > 0 && -1 <= i < n && i + 1 + count <= n
    ensures forall k :: 0 <= k < count ==> RoundRobin(i, n, count)[k] == i + 1 + k
    decreases count
  {
    if count > 0 {
      RoundRobinFromStart(i + 1, n, count - 1);
    }
  }

  /** One turn of the attempts loop, as Dial takes it. */
  lemma DialStep(hosts: seq<Endpoint>, randomize: bool, i: int, att: nat, results: seq<bool>, draws: seq<nat>)
    requires |hosts| > 0 && -1 <= i < |hosts| && att < Attempts
    ensures var next := NextIndex(randomize, i, |hosts|, draws);
      var j := next.0;
      var ok := results != [] && results[0];
      var results' := if results == [] then [] else results[1..];
      var rest := Dial(hosts, randomize, j, att + 1, results', next.1);
      Dial(hosts, randomize, i, att, results, draws) ==
        if !ok && att + 1 >= Attempts && j + 1 >= |hosts| then
          Dialing(Failure(CouldNotConnectTo(hosts[j].host, EffectivePort(hosts[j].port), att + 1, Attempts)), [j], results', next.1)
        else if ok then Dialing(Success(j), [j], results', next.1)
        else rest.(dialed := [j] + rest.dialed)
  {
  }

  /** A failed round-robin dial that does not end the loop leaves the rest to the next attempt. */
  lemma DialContinues(hosts: seq<Endpoint>, i: int, att: nat, results: seq<bool>, draws: seq<nat>)
    requires |hosts| > 0 && -1 <= i < |hosts| && att < Attempts
    requires !(results != [] && results[0])
    requires !(att + 1 >= Attempts && Following(i, |hosts|) + 1 >= |hosts|)
    ensures var j := Following(i, |hosts|);
      var rest := Dial(hosts, false, j, att + 1, if results == [] then [] else results[1..], draws);
      Dial(hosts, false, i, att, results, draws) == rest.(dialed := [j] + rest.dialed)
  {
  }

  /** Round robin visits the index following `i`, then goes on from there. */
  lemma RoundRobinCons(i: int, n: nat, count: nat)
    requires n > 0 && -1 <= i < n && count > 0
    ensures RoundRobin(i, n, count) == [Following(i, n)] + RoundRobin(Following(i, n), n, count - 1)
  {
  }

  /** A dialing that connected at its k-th try of the indexes `tried`: it tried their first k + 1. */
  predicate SucceededAs(d: Dialing, tried: seq<nat>, k: nat)
  {
    k < |tried| && d.outcome == Success(tried[k]) && d.dialed == tried[..k + 1]
  }

  /** A failed dial before a dialing that succeeds moves the success one try later. */
  lemma SucceededPrepend(rest: Dialing, tried: seq<nat>, k: nat, j: nat)
    requires SucceededAs(rest, tried, k)
    ensures SucceededAs(rest.(dialed := [j] + rest.dialed), [j] + tried, k + 1)
  {
    ConsPrefix(j, tried, k + 1);
  }

  /**
   * Without randomize, _makeConnection dials the hosts round robin after the last index and
   * stops at the first dial that succeeds within the attempts left, connected to that host.
   */
  lemma {:induction false} DialSucceeds(hosts: seq<Endpoint>, i: int, att: nat, results: seq<bool>, draws: seq<nat>)
    requires |hosts| > 0 && -1 <= i < |hosts| && att <= Attempts
    requires FirstSuccess(results, Attempts - att).Some?
    ensures SucceededAs(Dial(hosts, false, i, att, results, draws), RoundRobin(i, |hosts|, Attempts - att),
                        FirstSuccess(results, Attempts - att).value)
    decreases Attempts - att
  {
    var n := |hosts|;
    var j := Following(i, n);
    var results' := results[1..];
    var tried' := RoundRobin(j, n, Attempts - att - 1);
    RoundRobinCons(i, n, Attempts - att);
    if !results[0] {
      var k := FirstSuccess(results', Attempts - att - 1).value;
      assert FirstSuccess(results, Attempts - att) == Some(k + 1);
      assert j + 1 >= n ==> att + 1 < Attempts;
      DialContinues(hosts, i, att, results, draws);
      DialSucceeds(hosts, j, att + 1, results', draws);
      SucceededPrepend(Dial(hosts, false, j, att + 1, results', draws), tried', k, j);
    } else {
      DialStep(hosts, false, i, att, results, draws);
      ConsPrefix(j, tried', 0);
      EmptyAppend<nat>([]);
    }
  }

  /**
   * How a dialing that never succeeded ends, given the indexes it tried: it tried exactly those,
   * and it names the last host only when the last attempt was made on it.
   */
  predicate ExhaustedAs(d: Dialing, hosts: seq<Endpoint>, tried: seq<nat>)
    requires |hosts| > 0
  {
    var n := |hosts|;
    && d.dialed == tried
    && d.outcome == (
      if tried != [] && tried[|tried| - 1] == n - 1 then
        Failure(CouldNotConnectTo(hosts[n - 1].host, EffectivePort(hosts[n - 1].port), Attempts, Attempts))
      else Failure(CouldNotConnect))
  }

  /** A failed dial of an index other than the last host, before an exhausted rest, keeps the verdict. */
  lemma ExhaustedPrepend(rest: Dialing, hosts: seq<Endpoint>, tried: seq<nat>, j: nat)
    requires |hosts| > 0 && ExhaustedAs(rest, hosts, tried)
    requires tried == [] ==> j != |hosts| - 1
    ensures ExhaustedAs(rest.(dialed := [j] + rest.dialed), hosts, [j] + tried)
  {
    if tried != [] {
      ConsLast(j, tried);
    }
  }

  /**
   * Without randomize, when no dial within the attempts left succeeds, _makeConnection tries the
   * hosts round robin once per attempt and fails, naming the last host only when the last attempt
   * was made on it.
   */
  lemma {:induction false} DialExhausted(hosts: seq<Endpoint>, i: int, att: nat, results: seq<bool>, draws: seq<nat>)
    requires |hosts| > 0 && -1 <= i < |hosts| && att <= Attempts
    requires FirstSuccess(results, Attempts - att).None?
    ensures ExhaustedAs(Dial(hosts, false, i, att, results, draws), hosts, RoundRobin(i, |hosts|, Attempts - att))
    decreases Attempts - att
  {
    var n := |hosts|;
    if att < Attempts {
      var j := Following(i, n);
      var results' := if results == [] then [] else results[1..];
      var tried' := RoundRobin(j, n, Attempts - att - 1);
      RoundRobinCons(i, n, Attempts - att);
      if !(att + 1 >= Attempts && j + 1 >= n) {
        if results != [] {
          assert !results[0];
          assert FirstSuccess(results', Attempts - att - 1).None?;
        }
        DialContinues(hosts, i, att, results, draws);
        DialExhausted(hosts, j, att + 1, results', draws);
        ExhaustedPrepend(Dial(hosts, false, j, att + 1, results', draws), hosts, tried', j);
      } else {
        DialLastAttempt(hosts, i, att, results, draws);
        assert tried' == [];
        AppendEmpty([j]);
      }
    }
  }

  /** A failed last attempt on the last host names that host. */
  lemma DialLastAttempt(hosts: seq<Endpoint>, i: int, att: nat, results: seq<bool>, draws: seq<nat>)
    requires |hosts| > 0 && -1 <= i < |hosts| && att + 1 == Attempts && Following(i, |hosts|) == |hosts| - 1
    requires !(results != [] && results[0])
    ensures var n := |hosts|;
      Dial(hosts, false, i, att, results, draws) ==
        Dialing(Failure(CouldNotConnectTo(hosts[n - 1].host, EffectivePort(hosts[n - 1].port), Attempts, Attempts)),
                [n - 1], if results == [] then [] else results[1..], draws)
  {
    DialStep(hosts, false, i, att, results, draws);
  }
}
