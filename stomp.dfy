/**
 * The client class itself: its fields, and each method doing in place what the source does,
 * proved to follow the session functions of module Sessions. The loops of readFrame,
 * _makeConnection and _init run in methods of their own, on local variables.
 */
module Client {
  import opened Wrappers
  import opened Sequences
  import opened Errors
  import opened Text
  import opened OrderedMaps
  import opened Frames
  import opened Wire
  import opened Receipts
  import opened Commands
  import opened Endpoints
  import opened Sessions

  /** readFrame's decoding: split off the body, then take the header lines one by one. */
  method ParseFrame(data: string) returns (f: Frame)
    ensures f == DecodeFrame(data)
  {
    var parts := match SplitOnce(data, "\n\n") case Some(p) => p case None => (data, "");
    var header, body := parts.0, parts.1;
    var lines := Split(header, '\n');
    var headers := ParseHeaderLines(lines[1..]);
    f := Frame(lines[0], headers, Trim(body, Whitespace));
  }

  /** readFrame's loop over the header lines: each is split on its first colon and assigned. */
  method ParseHeaderLines(lines: seq<string>) returns (headers: Headers)
    ensures headers == DecodeHeaders(lines)
  {
    headers := [];
    for k := 0 to |lines|
      invariant headers == DecodeHeaders(lines[..k])
    {
      var line := DecodeHeaderLine(lines[k]);
      DecodeHeadersPrefix(lines, k);
      headers := Put(headers, line.0, line.1);
    }
    assert lines[..|lines|] == lines;
  }

  /**
   * readFrame's read loop: take chunks until the text holds the NUL terminator and at least two
   * characters; a read that yields nothing loses the connection.
   */
  method ReadChunks(events: seq<Event>) returns (g: Gathered)
    ensures g == Gather(events, "", false)
  {
    var rest := events;
    var data := "";
    var end := false;
    while true
      invariant Gather(rest, data, end) == Gather(events, "", false)
      decreases |rest|
    {
      if rest == [] || !rest[0].Chunk? || rest[0].text == "" {
        return Lost(if rest == [] then [] else rest[1..]);
      }
      data := data + rest[0].text;
      rest := rest[1..];
      if '\0' in data {
        end := true;
        data := Trim(data, {'\n'});
      }
      if |data| >= 2 && end {
        return Complete(data, rest);
      }
    }
  }

  /**
   * _makeConnection's attempts loop: from the index `last` tried, dial the next host until one
   * answers, the last host fails on the last attempt, or the attempts run out.
   */
  method TryHosts(hosts: seq<Endpoint>, randomize: bool, last: int, dialResults: seq<bool>, draws: seq<nat>)
    returns (d: Dialing)
    requires |hosts| > 0 && -1 <= last < |hosts|
    ensures d == Dial(hosts, randomize, last, 0, dialResults, draws)
  {
    var i := last;
    var att := 0;
    var results, rest := dialResults, draws;
    var tried: seq<nat> := [];
    ghost var whole := DialOn(hosts, randomize, [], last, 0, dialResults, draws);
    ghost var spec := Dial(hosts, randomize, last, 0, dialResults, draws);
    DialOnDial(hosts, randomize, [], last, 0, dialResults, draws);
    EmptyAppend(spec.dialed);
    var outcome := None;
    while outcome.None?
      invariant att <= Attempts && -1 <= i < |hosts|
      invariant outcome.Some? ==> outcome.value == whole
      invariant outcome.None? ==> DialOn(hosts, randomize, tried, i, att, results, rest) == whole
      decreases Attempts - att, if outcome.Some? then 0 else 1
    {
      outcome, tried, i, att, results, rest := Attempt(hosts, randomize, tried, i, att, results, rest);
    }
    d := outcome.value;
  }

  /**
   * One turn of _makeConnection's loop: give up when no attempts remain, otherwise pick the next
   * index and dial it; the dialing is over after a success or a failed last attempt on the last host.
   */
  method Attempt(hosts: seq<Endpoint>, randomize: bool, tried: seq<nat>, i: int, att: nat, results: seq<bool>, draws: seq<nat>)
    returns (over: Option<Dialing>, tried': seq<nat>, i': int, att': nat, results': seq<bool>, draws': seq<nat>)
    requires |hosts| > 0 && -1 <= i < |hosts| && att <= Attempts
    ensures -1 <= i' < |hosts| && att <= att' <= Attempts
    ensures over.Some? ==> over.value == DialOn(hosts, randomize, tried, i, att, results, draws)
    ensures over.None? ==> att' == att + 1
    ensures over.None? ==>
      DialOn(hosts, randomize, tried', i', att', results', draws') == DialOn(hosts, randomize, tried, i, att, results, draws)
  {
    if att >= Attempts {
      return Some(Dialing(Failure(CouldNotConnect), tried, results, draws)), tried, i, att, results, draws;
    }
    var next := NextIndex(randomize, i, |hosts|, draws);
    i', draws', att' := next.0, next.1, att + 1;
    tried' := tried + [i'];
    var ok := results != [] && results[0];
    results' := if results == [] then [] else results[1..];
    if !ok && att' >= Attempts && i' + 1 >= |hosts| {
      over := Some(Dialing(Failure(CouldNotConnectTo(hosts[i'].host, EffectivePort(hosts[i'].port), att', Attempts)), tried', results', draws'));
    } else if ok {
      over := Some(Dialing(Success(i'), tried', results', draws'));
    } else {
      over := None;
    }
  }

  /**
   * _init: match the broker URI; a failover URI names several URLs, any other URI is one URL;
   * every URL must parse, and each is pushed onto the host list in order; the failover query
   * becomes the parameters.
   */
  method Init(brokerUri: string, parsers: Parsers) returns (setup: Setup)
    ensures setup == InitSpec(brokerUri, parsers, [], [])
  {
    var parts;
    match parsers.matchUri(brokerUri) {
      case None => return Setup(Fail(BadBrokerUrl(brokerUri)), [], []);
      case Some(p) => parts := p;
    }
    var pieces := UrlPieces(brokerUri, parts);
    ghost var parsed := ParsedPrefix(pieces, parsers.parseUrl);
    var hosts: seq<Endpoint> := [];
    for k := 0 to |pieces|
      invariant k <= |parsed| && hosts == parsed[..k]
    {
      match parsers.parseUrl(pieces[k]) {
        case None =>
          assert k == |parsed|;
          assert parsed[..k] == parsed;
          assert [] + parsed == parsed;
          return Setup(Fail(BadBrokerUrl(pieces[k])), hosts, []);
        case Some(e) =>
          assert parsed[..k + 1] == parsed[..k] + [e];
          hosts := hosts + [e];
      }
    }
    assert parsed[..|pieces|] == parsed;
    assert [] + parsed == parsed;
    var params: Headers := [];
    if parts.query != "" {
      params := parsers.parseQuery(parts.query);
    }
    return Setup(Pass, hosts, params);
  }

  /** The socket resource: whether it is open, what it will deliver, and every frame written to it. */
  datatype Socket = Socket(open: bool, inbound: seq<Event>, sent: seq<Frame>)

  /**
   * What lies outside the client: the host indices handed to fsockopen so far, whether each of
   * the next fsockopen calls succeeds (none left means refused), the next values of rand(), and
   * the clock from which receipt ids are drawn.
   */
  datatype Environment = Environment(dialed: seq<nat>, dialResults: seq<bool>, draws: seq<nat>, ticks: nat)

  /**
   * new Stomp($brokerUri): the settings take their values, and _init fills the hosts and
   * parameters; a URI _init rejects means no client.
   */
  method Open(brokerUri: string, parsers: Parsers, sync: bool, prefetchSize: int, clientId: Option<string>,
              inbound: seq<Event>, dialResults: seq<bool>, draws: seq<nat>)
    returns (r: Result<Stomp, StompError>)
    ensures var init := InitSpec(brokerUri, parsers, [], []);
      && (r.Failure? <==> init.outcome.Fail?)
      && (r.Failure? ==> r.error == init.outcome.error)
      && (r.Success? ==> fresh(r.value) && r.value.State() == Session(sync, prefetchSize, clientId, "AMQ",
            brokerUri, init.hosts, init.params, [], -1, "", "", None, [], false, inbound, [], [],
            dialResults, draws, 0))
  {
    var setup := Init(brokerUri, parsers);
    if setup.outcome.Fail? {
      return Failure(setup.outcome.error);
    }
    var client := new Stomp(brokerUri, setup.hosts, setup.params, sync, prefetchSize, clientId,
                            inbound, dialResults, draws);
    return Success(client);
  }

  /**
   * A STOMP client session over one broker connection at a time. The settings and the host list
   * are fixed when the client is made; everything a method changes is a mutable field.
   */
  class Stomp {
    const brokerUri: string
    const hosts: seq<Endpoint>
    const params: Headers
    const sync: bool
    const prefetchSize: int
    const clientId: Option<string>
    var brokerVendor: string
    var subscriptions: OrderedMap<Option<Headers>>
    var currentHost: int
    var username: string
    var password: string
    var sessionId: Option<string>
    var waitbuf: seq<Item>
    var socket: Socket
    var env: Environment

    /** All fields, as one value. */
    function State(): Session
      reads this
    {
      Session(sync, prefetchSize, clientId, brokerVendor, brokerUri, hosts, params, subscriptions, currentHost,
              username, password, sessionId, waitbuf, socket.open, socket.inbound, socket.sent,
              env.dialed, env.dialResults, env.draws, env.ticks)
    }

    /** The field defaults, with the settings and the hosts and parameters _init produced. */
    constructor (brokerUri: string, hosts: seq<Endpoint>, params: Headers, sync: bool, prefetchSize: int,
                 clientId: Option<string>, inbound: seq<Event>, dialResults: seq<bool>, draws: seq<nat>)
      ensures State() == Session(sync, prefetchSize, clientId, "AMQ", brokerUri, hosts, params, [], -1, "", "",
                                 None, [], false, inbound, [], [], dialResults, draws, 0)
    {
      this.brokerUri := brokerUri;
      this.hosts := hosts;
      this.params := params;
      this.sync := sync;
      this.prefetchSize := prefetchSize;
      this.clientId := clientId;
      brokerVendor := "AMQ";
      subscriptions := [];
      currentHost := -1;
      username := "";
      password := "";
      sessionId := None;
      waitbuf := [];
      socket := Socket(false, inbound, []);
      env := Environment([], dialResults, draws, 0);
    }

    /** disconnect. */
    method Disconnect()
      modifies this
      ensures State() == DisconnectSpec(old(State()))
    {
      if socket.open {
        socket := socket.(sent := socket.sent + [DisconnectFrame(clientId)]);
      }
      socket := socket.(open := false);
      sessionId := None;
      currentHost := -1;
      subscriptions := [];
      username := "";
      password := "";
      waitbuf := [];
    }

    /** _writeFrame. */
    method WriteFrame(f: Frame) returns (o: Outcome<StompError>)
      modifies this
      ensures Step(State(), o) == WriteSpec(old(State()), f)
    {
      if !socket.open {
        return Fail(SocketNotEstablished);
      }
      socket := socket.(sent := socket.sent + [f]);
      return Pass;
    }

    /** hasFrameToRead. */
    method HasFrameToRead() returns (r: Result<bool, StompError>)
      modifies this
      ensures Step(State(), r) == HasFrameSpec(old(State()))
    {
      if !socket.open {
        return Failure(ReadabilityCheckFailed);
      }
      if socket.inbound == [] {
        return Success(false);
      }
      match socket.inbound[0] {
        case Silence =>
          socket := socket.(inbound := socket.inbound[1..]);
          return Success(false);
        case SelectFailure =>
          socket := socket.(inbound := socket.inbound[1..]);
          return Failure(ReadabilityCheckFailed);
        case _ =>
          return Success(true);
      }
    }

    /** readFrame: the pending buffer first; otherwise chunks up to the NUL, then decoding. */
    method ReadFrame() returns (r: Result<Item, StompError>)
      modifies this
      ensures Step(State(), r) == ReadSpec(old(State()))
    {
      if waitbuf != [] {
        r := Success(waitbuf[0]);
        waitbuf := waitbuf[1..];
        return;
      }
      var ready := HasFrameToRead();
      if ready.Failure? {
        return Failure(ready.error);
      }
      if !ready.value {
        return Success(NoFrame);
      }
      var g := ReadChunks(socket.inbound);
      socket := socket.(inbound := g.rest);
      if g.Lost? {
        return Failure(ConnectionLost);
      }
      var f := ParseFrame(g.data);
      return Success(Got(f));
    }

    /** _waitForReceipt. */
    method WaitForReceipt(h: Headers, sync: Option<bool>) returns (r: Result<bool, StompError>)
      modifies this
      ensures var w := WaitForReceiptSpec(h, this.sync, sync, old(waitbuf), old(socket.inbound), old(socket.open));
        Step(State(), r) == Step(old(State()).(waitbuf := w.waitbuf, inbound := w.inbound), w.result)
    {
      var id;
      match AwaitedReceipt(h, this.sync, sync) {
        case None => return Success(true);
        case Some(x) => id := x;
      }
      var buf := [];
      while true
        invariant State() == old(State()).(waitbuf := waitbuf, inbound := socket.inbound)
        invariant Await(id, buf, waitbuf, socket.inbound, socket.open)
          == Await(id, [], old(waitbuf), old(socket.inbound), socket.open)
        decreases |waitbuf| + |socket.inbound|, if buf == [] then 1 else 0
      {
        var read := ReadFrame();
        if read.Failure? {
          return Failure(read.error);
        }
        var item := read.value;
        if item == NoFrame && buf != [] {
          waitbuf := buf;
          return Success(false);
        }
        if IsReceipt(item) {
          var got := Get(item.frame.headers, "receipt-id");
          if got == Some(id) {
            waitbuf := buf;
            return Success(true);
          }
          return Failure(UnexpectedReceipt(got, item.frame.body));
        }
        buf := buf + [item];
      }
    }

    /** _prepareReceipt, _writeFrame and _waitForReceipt, as every request runs them. */
    method Transmit(f: Frame, sync: Option<bool>) returns (r: Result<bool, StompError>)
      modifies this
      ensures Step(State(), r) == TransmitSpec(old(State()), f, sync)
    {
      ghost var s := State();
      var h := PrepareReceipt(f.headers, this.sync, sync, Ticket(env.ticks));
      if EffectiveSync(this.sync, sync) {
        env := env.(ticks := env.ticks + 1);
      }
      ghost var s1 := s.(ticks := if EffectiveSync(s.sync, sync) then s.ticks + 1 else s.ticks);
      assert State() == s1;
      assert TransmitSpec(s, f, sync) == DeliverSpec(s1, f.(headers := h), sync);
      r := Deliver(f.(headers := h), sync);
    }

    /** _writeFrame and _waitForReceipt on a frame already tagged. */
    method Deliver(f: Frame, sync: Option<bool>) returns (r: Result<bool, StompError>)
      modifies this
      ensures Step(State(), r) == DeliverSpec(old(State()), f, sync)
    {
      var w := WriteFrame(f);
      if w.Fail? {
        return Failure(w.error);
      }
      r := WaitForReceipt(f.headers, sync);
    }

    /** _makeConnection: drop the current connection, then dial as the attempts loop decides. */
    method MakeConnection() returns (o: Outcome<StompError>)
      modifies this
      ensures Step(State(), o) == MakeConnectionSpec(old(State()))
    {
      if |hosts| == 0 {
        return Fail(NoBrokerDefined);
      }
      Disconnect();
      var d := TryHosts(hosts, Randomize(params), currentHost, env.dialResults, env.draws);
      env := env.(dialed := env.dialed + d.dialed, dialResults := d.dialResults, draws := d.draws);
      socket := socket.(open := d.outcome.Success?);
      if d.outcome.Failure? {
        return Fail(d.outcome.error);
      }
      currentHost := d.outcome.value;
      return Pass;
    }

    /** connect. */
    method Connect(username: string, password: string) returns (o: Outcome<StompError>)
      modifies this
      ensures Step(State(), o) == ConnectSpec(old(State()), username, password)
    {
      o := MakeConnection();
      if o.Fail? {
        return;
      }
      if username != "" {
        this.username := username;
      }
      if password != "" {
        this.password := password;
      }
      o := Handshake();
    }

    /** The CONNECT frame and the wait for CONNECTED at the end of connect. */
    method Handshake() returns (o: Outcome<StompError>)
      modifies this
      ensures Step(State(), o) == HandshakeSpec(old(State()))
    {
      o := WriteFrame(Frame("CONNECT", ConnectHeaders(username, password, clientId), ""));
      if o.Fail? {
        return;
      }
      var r := ReadFrame();
      match r {
        case Failure(e) => return Fail(e);
        case Success(NoFrame) => return Fail(ConnectionNotAcknowledged);
        case Success(Got(f)) =>
          if f.command != "CONNECTED" {
            return Fail(UnexpectedCommand(f.command, f.body));
          }
          sessionId := Get(f.headers, "session");
          brokerVendor := DetectVendor(brokerVendor, f.headers);
          return Pass;
      }
    }

    /** isConnected. */
    function IsConnected(): (b: bool)
      reads this
      ensures b <==> Sessions.IsConnected(State())
    {
      HasSession(sessionId) && socket.open
    }

    /** getSessionId. */
    function GetSessionId(): Option<string>
      reads this
    {
      sessionId
    }

    /** send. */
    method Send(destination: string, msg: Message, properties: Headers, sync: Option<bool>) returns (r: Result<bool, StompError>)
      modifies this
      ensures Step(State(), r) == SendSpec(old(State()), destination, msg, properties, sync)
    {
      r := Transmit(SendFrame(destination, msg, properties), sync);
    }

    /** subscribe. */
    method Subscribe(destination: string, properties: Option<Headers>, sync: Option<bool>) returns (r: Result<bool, StompError>)
      modifies this
      ensures Step(State(), r) == SubscribeSpec(old(State()), destination, properties, sync)
    {
      var f := Frame("SUBSCRIBE", SubscribeHeaders(destination, properties, brokerVendor, prefetchSize, clientId), "");
      r := Transmit(f, sync);
      if r == Success(true) {
        subscriptions := Put(subscriptions, destination, properties);
      }
    }

    /** unsubscribe. */
    method Unsubscribe(destination: string, properties: Option<Headers>, sync: Option<bool>) returns (r: Result<bool, StompError>)
      modifies this
      ensures Step(State(), r) == UnsubscribeSpec(old(State()), destination, properties, sync)
    {
      var f := Frame("UNSUBSCRIBE", UnsubscribeHeaders(destination, properties, brokerVendor, clientId), "");
      r := Transmit(f, sync);
      if r == Success(true) {
        subscriptions := Delete(subscriptions, destination);
      }
    }

    /** begin. */
    method Begin(transactionId: Option<string>, sync: Option<bool>) returns (r: Result<bool, StompError>)
      modifies this
      ensures Step(State(), r) == TransactionSpec(old(State()), "BEGIN", transactionId, sync)
    {
      r := Transmit(Frame("BEGIN", TransactionHeaders(transactionId), ""), sync);
    }

    /** commit. */
    method Commit(transactionId: Option<string>, sync: Option<bool>) returns (r: Result<bool, StompError>)
      modifies this
      ensures Step(State(), r) == TransactionSpec(old(State()), "COMMIT", transactionId, sync)
    {
      r := Transmit(Frame("COMMIT", TransactionHeaders(transactionId), ""), sync);
    }

    /** abort. */
    method Abort(transactionId: Option<string>, sync: Option<bool>) returns (r: Result<bool, StompError>)
      modifies this
      ensures Step(State(), r) == TransactionSpec(old(State()), "ABORT", transactionId, sync)
    {
      r := Transmit(Frame("ABORT", TransactionHeaders(transactionId), ""), sync);
    }

    /** ack. */
    method Ack(target: AckTarget, transactionId: Option<string>) returns (r: Result<bool, StompError>)
      modifies this
      ensures Step(State(), r) == AckSpec(old(State()), target, transactionId)
    {
      var w := WriteFrame(Frame("ACK", AckHeaders(target, transactionId, brokerVendor), ""));
      if w.Fail? {
        return Failure(w.error);
      }
      return Success(true);
    }

    /** _reconnect. */
    method Reconnect() returns (o: Outcome<StompError>)
      modifies this
      ensures Step(State(), o) == ReconnectSpec(old(State()))
    {
      var subs := subscriptions;
      o := Connect(username, password);
      if o.Fail? {
        return;
      }
      ghost var connected := State();
      for k := 0 to |subs|
        invariant ReplaySpec(State(), subs[k..]) == ReplaySpec(connected, subs)
      {
        assert subs[k..][0] == subs[k] && subs[k..][1..] == subs[k + 1..];
        var r := Subscribe(subs[k].0, subs[k].1, None);
        if r.Failure? {
          return Fail(r.error);
        }
      }
      return Pass;
    }
  }
}
