/** What the client's operations promise, stated over the session functions of module Sessions. */
module SessionLaws {
  import opened Wrappers
  import opened Sequences
  import opened Errors
  import opened OrderedMaps
  import opened Frames
  import opened Wire
  import opened Receipts
  import opened Commands
  import opened Endpoints
  import opened Sessions

  /** Disconnecting twice is disconnecting once: the second call finds the socket closed. */
  lemma DisconnectIdempotent(s: Session)
    ensures DisconnectSpec(DisconnectSpec(s)) == DisconnectSpec(s)
  {
  }

  /** disconnect leaves a state in which the client is not connected, and keeps it valid. */
  lemma DisconnectKeepsValid(s: Session)
    requires Valid(s)
    ensures Valid(DisconnectSpec(s)) && !IsConnected(DisconnectSpec(s))
  {
  }

  /**
   * An asynchronous request writes the frame as built, with no receipt added, and returns true
   * without reading from the socket.
   */
  lemma AsyncRequest(s: Session, f: Frame, sync: Option<bool>)
    requires !EffectiveSync(s.sync, sync) && s.socketOpen
    ensures TransmitSpec(s, f, sync) == Step(s.(sent := s.sent + [f]), Success(true))
  {
    assert f.(headers := f.headers) == f;
  }

  /**
   * A synchronous request writes the frame with a fresh receipt id and then waits for exactly
   * that id, over the pending buffer first and the socket after.
   */
  lemma SyncRequest(s: Session, f: Frame, sync: Option<bool>)
    requires EffectiveSync(s.sync, sync) && s.socketOpen
    ensures var t := TransmitSpec(s, f, sync);
      var w := Await(Ticket(s.ticks), [], s.waitbuf, s.inbound, true);
      && t.state.sent == s.sent + [f.(headers := Put(f.headers, "receipt", Ticket(s.ticks)))]
      && t.state.ticks == s.ticks + 1
      && t.result == w.result && t.state.waitbuf == w.waitbuf && t.state.inbound == w.inbound
  {
    ReceiptTagging(f.headers, s.sync, sync, Ticket(s.ticks));
  }

  lemma ReadKeepsPending(s: Session)
    requires Pending(s.waitbuf)
    ensures Pending(ReadSpec(s).state.waitbuf)
  {
    if s.waitbuf != [] {
      PendingSuffix(s.waitbuf);
    }
  }

  /**
   * readFrame with nothing pending, on a frame fgets delivers in several chunks: the frame decoded
   * from the chunks' trimmed text is returned and the socket is left at the events after it.
   */
  lemma ReadChunkedFrame(s: Session, texts: seq<string>, rest: seq<Event>)
    requires s.waitbuf == [] && s.socketOpen && s.inbound == Chunks(texts) + rest
    requires FrameChunks(texts) && |Text.Trim(Concat(texts), {'\n'})| >= 2
    ensures ReadSpec(s) == Step(s.(inbound := rest), Success(Got(DecodeFrame(Text.Trim(Concat(texts), {'\n'})))))
  {
    ChunkedFrame(texts, rest);
  }

  /** `k` calls of readFrame in a row: the state they leave and their results, in order. */
  function Reads(s: Session, k: nat): (r: Step<seq<Result<Item, StompError>>>)
    ensures |r.result| == k
    decreases k
  {
    if k == 0 then Step(s, [])
    else
      var first := ReadSpec(s);
      var more := Reads(first.state, k - 1);
      Step(more.state, [first.result] + more.result)
  }

  /**
   * While something is pending, readFrame hands back the pending entries first in, first out,
   * and neither checks nor reads the socket: k reads with at least k entries pending return the
   * first k entries in order and leave only the pending buffer shortened.
   */
  lemma {:induction false} BufferedReadsInOrder(s: Session, k: nat)
    requires k <= |s.waitbuf|
    ensures Reads(s, k).state == s.(waitbuf := s.waitbuf[k..])
    ensures forall i :: 0 <= i < k ==> Reads(s, k).result[i] == Success(s.waitbuf[i])
    decreases k
  {
    if k > 0 {
      var first := ReadSpec(s);
      assert first == Step(s.(waitbuf := s.waitbuf[1..]), Success(s.waitbuf[0]));
      BufferedReadsInOrder(first.state, k - 1);
      DropAfterHead(s.waitbuf, k - 1);
      var more := Reads(first.state, k - 1);
      forall i | 0 <= i < k
        ensures Reads(s, k).result[i] == Success(s.waitbuf[i])
      {
        if i > 0 {
          assert Reads(s, k).result[i] == more.result[i - 1];
          assert first.state.waitbuf[i - 1] == s.waitbuf[i];
        }
      }
    }
  }

  /**
   * After a request that did not fail, the frames that were pending before it are still the
   * first ones readFrame hands back, in the order they arrived; the frames a wait collected
   * follow them.
   */
  lemma BacklogReadFirst(s: Session, f: Frame, sync: Option<bool>)
    requires Pending(s.waitbuf) && TransmitSpec(s, f, sync).result.Success?
    ensures var t := TransmitSpec(s, f, sync).state;
      && StartsWith(t.waitbuf, s.waitbuf)
      && Reads(t, |t.waitbuf|).state == t.(waitbuf := [])
      && (forall i :: 0 <= i < |t.waitbuf| ==> Reads(t, |t.waitbuf|).result[i] == Success(t.waitbuf[i]))
      && forall i :: 0 <= i < |s.waitbuf| ==> Reads(t, |t.waitbuf|).result[i] == Success(s.waitbuf[i])
  {
    var t := TransmitSpec(s, f, sync).state;
    if EffectiveSync(s.sync, sync) {
      SyncRequest(s, f, sync);
      assert [] + s.waitbuf == s.waitbuf;
      AwaitKeepsBacklog(Ticket(s.ticks), [], s.waitbuf, s.inbound, true);
    } else {
      AsyncRequest(s, f, sync);
      assert t.waitbuf[..|s.waitbuf|] == s.waitbuf;
    }
    BufferedReadsInOrder(t, |t.waitbuf|);
    assert t.waitbuf[|t.waitbuf|..] == [];
    forall i | 0 <= i < |s.waitbuf|
      ensures Reads(t, |t.waitbuf|).result[i] == Success(s.waitbuf[i])
    {
      assert t.waitbuf[..|s.waitbuf|][i] == t.waitbuf[i];
    }
  }

  /** connect with no broker configured fails with "No broker defined" and changes nothing: no DISCONNECT is written. */
  lemma ConnectWithoutHosts(s: Session, username: string, password: string)
    requires s.hosts == []
    ensures ConnectSpec(s, username, password) == Step(s, Fail(NoBrokerDefined))
  {
  }

  /** Every request keeps the session valid, whatever the broker answers. */
  lemma {:induction false} TransmitKeepsValid(s: Session, f: Frame, sync: Option<bool>)
    requires Valid(s)
    ensures Valid(TransmitSpec(s, f, sync).state)
  {
    var h := PrepareReceipt(f.headers, s.sync, sync, Ticket(s.ticks));
    match AwaitedReceipt(h, s.sync, sync)
    case None =>
    case Some(id) =>
      AwaitKeepsPending(id, [], s.waitbuf, s.inbound, s.socketOpen);
  }

  /**
   * subscribe registers the destination with its properties exactly when the request returned
   * true, and touches no other destination.
   */
  lemma SubscribeRegistry(s: Session, destination: string, properties: Option<Headers>, sync: Option<bool>)
    ensures var t := SubscribeSpec(s, destination, properties, sync);
      && (t.result == Success(true) ==> Get(t.state.subscriptions, destination) == Some(properties))
      && (t.result != Success(true) ==> t.state.subscriptions == s.subscriptions)
      && (forall k :: k != destination ==> Get(t.state.subscriptions, k) == Get(s.subscriptions, k))
  {
  }

  /**
   * unsubscribe removes the destination exactly when the request returned true, and touches no
   * other destination.
   */
  lemma UnsubscribeRegistry(s: Session, destination: string, properties: Option<Headers>, sync: Option<bool>)
    ensures var t := UnsubscribeSpec(s, destination, properties, sync);
      && (t.result == Success(true) ==> Get(t.state.subscriptions, destination) == None)
      && (t.result != Success(true) ==> t.state.subscriptions == s.subscriptions)
      && (forall k :: k != destination ==> Get(t.state.subscriptions, k) == Get(s.subscriptions, k))
  {
  }

  /**
   * ack on an open socket returns true, writes one ACK frame with the acknowledgement headers and
   * reads nothing.
   */
  lemma AckAlwaysTrue(s: Session, target: AckTarget, transactionId: Option<string>)
    requires s.socketOpen
    ensures AckSpec(s, target, transactionId) ==
      Step(s.(sent := s.sent + [Frame("ACK", AckHeaders(target, transactionId, s.brokerVendor), "")]), Success(true))
  {
  }

  /**
   * The host _makeConnection starts from is always the first one: disconnect resets the current
   * host before it is read, so the index of the last connection plays no part.
   */
  lemma MakeConnectionRestartsAtFirstHost(s: Session, c: int)
    requires |s.hosts| > 0
    ensures MakeConnectionSpec(s.(currentHost := c)) == MakeConnectionSpec(s)
  {
  }

  /** _makeConnection's outcome, socket, host and dial log are those of its attempts loop. */
  lemma MakeConnectionDials(s: Session)
    requires |s.hosts| > 0
    ensures var m := MakeConnectionSpec(s);
      var d := Dial(s.hosts, Randomize(s.params), -1, 0, s.dialResults, s.draws);
      && m.result == (if d.outcome.Success? then Pass else Fail(d.outcome.error))
      && m.state.socketOpen == d.outcome.Success?
      && m.state.currentHost == (if d.outcome.Success? then d.outcome.value else -1)
      && m.state.dialed == s.dialed + d.dialed
  {
  }

  /**
   * Without randomize, _makeConnection connects to the host of the first successful dial among
   * its ten attempts, dialling the hosts in listed order from the first; with no success it fails
   * with the socket closed. Either way it never returns without a verdict.
   */
  lemma MakeConnectionRoundRobin(s: Session)
    requires |s.hosts| > 0 && !Randomize(s.params)
    ensures var m := MakeConnectionSpec(s);
      var n := |s.hosts|;
      var tried := RoundRobin(-1, n, Attempts);
      match FirstSuccess(s.dialResults, Attempts)
      case Some(k) =>
        && m.result == Pass && m.state.socketOpen && m.state.currentHost == tried[k]
        && m.state.dialed == s.dialed + tried[..k + 1]
        && (k < n ==> m.state.currentHost == k)
      case None =>
        && m.result.Fail? && !m.state.socketOpen && m.state.currentHost == -1
        && m.state.dialed == s.dialed + tried
  {
    var n := |s.hosts|;
    var tried := RoundRobin(-1, n, Attempts);
    var d := Dial(s.hosts, false, -1, 0, s.dialResults, s.draws);
    MakeConnectionDials(s);
    match FirstSuccess(s.dialResults, Attempts)
    case Some(k) =>
      DialSucceeds(s.hosts, -1, 0, s.dialResults, s.draws);
      assert d.outcome == Success(tried[k]) && d.dialed == tried[..k + 1];
      if k < n {
        RoundRobinPrefix(-1, n, k + 1, Attempts);
        RoundRobinFromStart(-1, n, k + 1);
        assert tried[k] == tried[..k + 1][k] == k;
      }
    case None =>
      DialExhausted(s.hosts, -1, 0, s.dialResults, s.draws);
  }

  lemma {:induction false} RoundRobinPrefix(i: int, n: nat, c: nat, count: nat)
    requires n > 0 && -1 <= i < n && c <= count
    ensures RoundRobin(i, n, count)[..c] == RoundRobin(i, n, c)
    decreases c
  {
    if c > 0 {
      RoundRobinPrefix(Following(i, n), n, c - 1, count - 1);
    }
  }

  /**
   * The CONNECT handshake touches only the wire, the read buffers, the session id and the vendor:
   * the credentials, the registry, the settings and the socket stay as they were.
   */
  lemma HandshakeKeeps(s: Session)
    ensures var h := HandshakeSpec(s);
      && h.state.username == s.username && h.state.password == s.password
      && h.state.subscriptions == s.subscriptions && h.state.sync == s.sync
      && h.state.socketOpen == s.socketOpen
      && h.state.hosts == s.hosts && h.state.currentHost == s.currentHost
      && h.state.prefetchSize == s.prefetchSize && h.state.clientId == s.clientId
      && (h.result == Pass ==> s.socketOpen)
  {
    var w := WriteSpec(s, Frame("CONNECT", ConnectHeaders(s.username, s.password, s.clientId), ""));
    assert w.state == s.(sent := w.state.sent);
    var r := ReadSpec(w.state);
    assert r.state == w.state.(waitbuf := r.state.waitbuf, inbound := r.state.inbound);
  }

  /** _makeConnection keeps the session valid, and leaves no session id and nothing pending. */
  lemma MakeConnectionKeepsValid(s: Session)
    requires Valid(s)
    ensures var m := MakeConnectionSpec(s);
      && Valid(m.state)
      && (|s.hosts| > 0 ==> m.state.sessionId == None && m.state.waitbuf == [])
      && (m.result == Pass ==> m.state.socketOpen)
  {
    if |s.hosts| > 0 {
      DialInRange(s.hosts, Randomize(s.params), -1, 0, s.dialResults, s.draws);
    }
  }

  /** The CONNECT handshake keeps the session valid: a session id is only taken over an open socket. */
  lemma HandshakeKeepsValid(s: Session)
    requires Valid(s)
    ensures Valid(HandshakeSpec(s).state)
  {
    HandshakeKeeps(s);
    var w := WriteSpec(s, Frame("CONNECT", ConnectHeaders(s.username, s.password, s.clientId), ""));
    ReadKeepsPending(w.state);
  }

  /**
   * connect keeps the session valid whatever the broker answers, and a connect that returns
   * leaves the socket open.
   */
  lemma ConnectKeepsValid(s: Session, username: string, password: string)
    requires Valid(s)
    ensures var c := ConnectSpec(s, username, password);
      Valid(c.state) && (c.result == Pass ==> c.state.socketOpen)
  {
    var m := MakeConnectionSpec(s);
    MakeConnectionKeepsValid(s);
    if m.result.Pass? {
      var s1 := m.state.(username := if username != "" then username else m.state.username,
                         password := if password != "" then password else m.state.password);
      assert Valid(s1);
      HandshakeKeeps(s1);
      HandshakeKeepsValid(s1);
    }
  }

  /** connect never reuses stored credentials: once connected, it holds exactly the ones given. */
  lemma ConnectCredentials(s: Session, username: string, password: string)
    ensures var c := ConnectSpec(s, username, password);
      c.result == Pass ==> c.state.username == username && c.state.password == password
  {
    var m := MakeConnectionSpec(s);
    if m.result.Pass? {
      assert m.state.username == "" && m.state.password == "";
      HandshakeKeeps(m.state.(username := if username != "" then username else m.state.username,
                              password := if password != "" then password else m.state.password));
    }
  }

  /** The SUBSCRIBE frames an asynchronous replay writes, one per registry entry, in order. */
  function ReplayFrames(s: Session, subs: seq<(string, Option<Headers>)>): (fs: seq<Frame>)
    ensures |fs| == |subs|
    decreases |subs|
  {
    if subs == [] then []
    else
      var f := Frame("SUBSCRIBE", SubscribeHeaders(subs[0].0, subs[0].1, s.brokerVendor, s.prefetchSize, s.clientId), "");
      [f] + ReplayFrames(s, subs[1..])
  }

  /** The replay's i-th frame subscribes to the i-th registry entry's destination with its properties. */
  lemma {:induction false} ReplayFrameAt(s: Session, subs: seq<(string, Option<Headers>)>, i: nat)
    requires i < |subs|
    ensures ReplayFrames(s, subs)[i] ==
      Frame("SUBSCRIBE", SubscribeHeaders(subs[i].0, subs[i].1, s.brokerVendor, s.prefetchSize, s.clientId), "")
    decreases i
  {
    var rest := ReplayFrames(s, subs[1..]);
    assert ReplayFrames(s, subs)[1..] == rest;
    if i > 0 {
      ReplayFrameAt(s, subs[1..], i - 1);
      assert subs[1..][i - 1] == subs[i];
    }
  }

  lemma {:induction false} ReplayFramesDependOnSettings(s: Session, s': Session, subs: seq<(string, Option<Headers>)>)
    requires s.brokerVendor == s'.brokerVendor && s.prefetchSize == s'.prefetchSize && s.clientId == s'.clientId
    ensures ReplayFrames(s, subs) == ReplayFrames(s', subs)
    decreases |subs|
  {
    if subs != [] {
      ReplayFramesDependOnSettings(s, s', subs[1..]);
    }
  }

  /** An asynchronous subscribe on an open socket writes its frame, registers and returns true. */
  lemma SubscribeAsync(s: Session, destination: string, properties: Option<Headers>)
    requires !s.sync && s.socketOpen
    ensures SubscribeSpec(s, destination, properties, None) ==
      Step(s.(sent := s.sent + [Frame("SUBSCRIBE", SubscribeHeaders(destination, properties, s.brokerVendor, s.prefetchSize, s.clientId), "")],
              subscriptions := Put(s.subscriptions, destination, properties)), Success(true))
  {
    AsyncRequest(s, Frame("SUBSCRIBE", SubscribeHeaders(destination, properties, s.brokerVendor, s.prefetchSize, s.clientId), ""), None);
  }

  /** The first destination of an asynchronous replay is subscribed and the replay goes on. */
  lemma ReplayAsyncStep(s: Session, subs: seq<(string, Option<Headers>)>)
    requires !s.sync && s.socketOpen && subs != []
    ensures var f := Frame("SUBSCRIBE", SubscribeHeaders(subs[0].0, subs[0].1, s.brokerVendor, s.prefetchSize, s.clientId), "");
      ReplaySpec(s, subs) ==
        ReplaySpec(s.(sent := s.sent + [f], subscriptions := Put(s.subscriptions, subs[0].0, subs[0].1)), subs[1..])
  {
    SubscribeAsync(s, subs[0].0, subs[0].1);
  }

  /**
   * On an open socket of an asynchronous session, the replay subscribes to every destination in
   * order and rebuilds the registry entry by entry.
   */
  lemma {:induction false} ReplayAsync(s: Session, subs: seq<(string, Option<Headers>)>)
    requires !s.sync && s.socketOpen
    ensures ReplaySpec(s, subs) ==
      Step(s.(subscriptions := PutAll(s.subscriptions, subs), sent := s.sent + ReplayFrames(s, subs)), Pass)
    decreases |subs|
  {
    if subs != [] {
      var f := Frame("SUBSCRIBE", SubscribeHeaders(subs[0].0, subs[0].1, s.brokerVendor, s.prefetchSize, s.clientId), "");
      var s1 := s.(sent := s.sent + [f], subscriptions := Put(s.subscriptions, subs[0].0, subs[0].1));
      ReplayAsyncStep(s, subs);
      ReplayAsync(s1, subs[1..]);
      ReplayFramesDependOnSettings(s, s1, subs[1..]);
      var frames := ReplayFrames(s, subs);
      assert frames == [f] + ReplayFrames(s1, subs[1..]);
      var sent := s.sent + frames;
      AppendAssociates(s.sent, [f], ReplayFrames(s1, subs[1..]));
      var registry := PutAll(s.subscriptions, subs);
      assert PutAll(s1.subscriptions, subs[1..]) == registry;
      assert s1.(subscriptions := registry, sent := sent) == s.(subscriptions := registry, sent := sent);
    } else {
      assert s.sent + [] == s.sent;
    }
  }

  /**
   * _reconnect in an asynchronous session whose connect succeeds renews every subscription:
   * the registry comes back exactly as it was, order included, and one SUBSCRIBE per destination
   * follows the connection frames, in registry order.
   */
  lemma ReconnectRestoresSubscriptions(s: Session)
    requires !s.sync && ConnectSpec(s, s.username, s.password).result == Pass
    ensures var r := ReconnectSpec(s);
      var c := ConnectSpec(s, s.username, s.password);
      && r.result == Pass
      && r.state.subscriptions == s.subscriptions
      && r.state.sent == c.state.sent + ReplayFrames(c.state, s.subscriptions)
  {
    var c := ConnectSpec(s, s.username, s.password);
    var m := MakeConnectionSpec(s);
    HandshakeKeeps(m.state.(username := if s.username != "" then s.username else m.state.username,
                            password := if s.password != "" then s.password else m.state.password));
    assert c.state.socketOpen && c.state.subscriptions == [] && !c.state.sync;
    ReplayAsync(c.state, s.subscriptions);
    ReplayRebuilds(s.subscriptions);
  }

  /**
   * The answers of the subscribe calls a replay makes, in registry order, with the state after
   * the last: the calls stop after the first that throws.
   */
  function Subscribes(s: Session, subs: seq<(string, Option<Headers>)>): (r: Step<seq<Result<bool, StompError>>>)
    ensures |r.result| <= |subs|
    decreases |subs|
  {
    if subs == [] then Step(s, [])
    else
      var t := SubscribeSpec(s, subs[0].0, subs[0].1, None);
      if t.result.Failure? then Step(t.state, [t.result])
      else
        var more := Subscribes(t.state, subs[1..]);
        Step(more.state, [t.result] + more.result)
  }

  /** The entries whose subscribe answered true, in order. */
  function Confirmed(subs: seq<(string, Option<Headers>)>, answers: seq<Result<bool, StompError>>): seq<(string, Option<Headers>)>
    requires |answers| <= |subs|
    decreases |answers|
  {
    if answers == [] then []
    else (if answers[0] == Success(true) then [subs[0]] else []) + Confirmed(subs[1..], answers[1..])
  }

  /** The SUBSCRIBE frame for a registry entry, tagged with the ticket when the session is synchronous. */
  function SubscribeFrame(e: (string, Option<Headers>), vendor: string, prefetchSize: int, clientId: Option<string>,
                          sync: bool, ticket: string): Frame {
    Frame("SUBSCRIBE", PrepareReceipt(SubscribeHeaders(e.0, e.1, vendor, prefetchSize, clientId), sync, None, ticket), "")
  }

  /** The tick the i-th call of a replay from s draws its receipt from, in a synchronous session. */
  function ReplayTick(s: Session, i: nat): nat {
    if s.sync then s.ticks + i else s.ticks
  }

  /**
   * The SUBSCRIBE frame the i-th call of a replay from s writes: the session's headers for the
   * entry, and in a synchronous session the receipt drawn i ticks later.
   */
  function ReplayFrame(s: Session, e: (string, Option<Headers>), i: nat): Frame {
    SubscribeFrame(e, s.brokerVendor, s.prefetchSize, s.clientId, s.sync, Ticket(ReplayTick(s, i)))
  }

  /** What one subscribe of a replay does, with the session synchronous or not. */
  lemma SubscribeStep(s: Session, e: (string, Option<Headers>))
    ensures var t := SubscribeSpec(s, e.0, e.1, None);
      && t.state.sync == s.sync && t.state.brokerVendor == s.brokerVendor
      && t.state.prefetchSize == s.prefetchSize && t.state.clientId == s.clientId
      && t.state.ticks == (if s.sync then s.ticks + 1 else s.ticks)
      && (t.state.sent == s.sent + [ReplayFrame(s, e, 0)] || (t.state.sent == s.sent && t.result.Failure?))
      && t.state.subscriptions == (if t.result == Success(true) then Put(s.subscriptions, e.0, e.1) else s.subscriptions)
  {
  }

  /** The i-th frame of a replay is the (i-1)-th of the replay that goes on after its first call. */
  lemma ReplayFrameShift(s: Session, s': Session, e: (string, Option<Headers>), i: nat)
    requires i > 0 && s'.sync == s.sync && s'.brokerVendor == s.brokerVendor
    requires s'.prefetchSize == s.prefetchSize && s'.clientId == s.clientId
    requires s'.ticks == (if s.sync then s.ticks + 1 else s.ticks)
    ensures ReplayFrame(s', e, i - 1) == ReplayFrame(s, e, i)
  {
    assert Ticket(ReplayTick(s', i - 1)) == Ticket(ReplayTick(s, i));
  }

  /** A sequence that starts with `a + [f]` starts with `a`, and holds f just after it. */
  lemma SentAfterFirst<T>(a: seq<T>, f: T, b: seq<T>)
    requires |a| + 1 <= |b| && b[..|a| + 1] == a + [f]
    ensures b[..|a|] == a && b[|a|] == f
  {
    assert b[..|a|] == b[..|a| + 1][..|a|];
    assert b[|a|] == b[..|a| + 1][|a|];
  }

  /** No call threw. */
  predicate NoneThrew(answers: seq<Result<bool, StompError>>) {
    forall i :: 0 <= i < |answers| ==> answers[i].Success?
  }

  lemma NoneThrewCons(x: Result<bool, StompError>, rest: seq<Result<bool, StompError>>)
    ensures NoneThrew([x] + rest) <==> x.Success? && NoneThrew(rest)
  {
    if x.Success? && NoneThrew(rest) {
      forall i | 0 <= i < |[x] + rest| ensures ([x] + rest)[i].Success? {
        if i > 0 {
          assert ([x] + rest)[i] == rest[i - 1];
        }
      }
    }
    if NoneThrew([x] + rest) {
      assert ([x] + rest)[0] == x;
      forall i | 0 <= i < |rest| ensures rest[i].Success? {
        assert ([x] + rest)[i + 1] == rest[i];
      }
    }
  }

  /** The answer of the last call, if any call was made. */
  function LastAnswer(answers: seq<Result<bool, StompError>>): Option<Result<bool, StompError>> {
    if answers == [] then None else Some(answers[|answers| - 1])
  }

  lemma LastAnswerCons(x: Result<bool, StompError>, rest: seq<Result<bool, StompError>>)
    ensures LastAnswer([x] + rest) == if rest == [] then Some(x) else LastAnswer(rest)
  {
    if rest != [] {
      assert ([x] + rest)[|rest|] == rest[|rest| - 1];
    }
  }

  /**
   * A replay in a session of either kind ends where its subscribe calls end. It passes exactly
   * when every entry was tried and none threw; otherwise it fails with the error of the last call.
   */
  lemma {:induction false} ReplayAnswers(s: Session, subs: seq<(string, Option<Headers>)>)
    ensures ReplaySpec(s, subs).state == Subscribes(s, subs).state
    ensures ReplaySpec(s, subs).result == Pass <==> |Subscribes(s, subs).result| == |subs| && NoneThrew(Subscribes(s, subs).result)
    ensures ReplaySpec(s, subs).result.Fail? ==> LastAnswer(Subscribes(s, subs).result) == Some(Failure(ReplaySpec(s, subs).result.error))
    decreases |subs|
  {
    if subs != [] {
      var t := SubscribeSpec(s, subs[0].0, subs[0].1, None);
      var a := Subscribes(s, subs);
      if t.result.Success? {
        ReplayAnswers(t.state, subs[1..]);
        var more := Subscribes(t.state, subs[1..]);
        assert ReplaySpec(s, subs) == ReplaySpec(t.state, subs[1..]);
        assert a == Step(more.state, [t.result] + more.result);
        NoneThrewCons(t.result, more.result);
        LastAnswerCons(t.result, more.result);
      } else {
        assert ReplaySpec(s, subs) == Step(t.state, Fail(t.result.error));
        assert a == Step(t.state, [t.result]);
        assert !a.result[0].Success?;
      }
    }
  }

  /**
   * After a replay in a session of either kind the registry holds what it held before, then the
   * entries whose subscribe answered true, in order; an entry whose receipt did not come back is
   * not registered.
   */
  lemma {:induction false} ReplayRegistry(s: Session, subs: seq<(string, Option<Headers>)>)
    ensures ReplaySpec(s, subs).state.subscriptions == PutAll(s.subscriptions, Confirmed(subs, Subscribes(s, subs).result))
    decreases |subs|
  {
    if subs != [] {
      var t := SubscribeSpec(s, subs[0].0, subs[0].1, None);
      SubscribeStep(s, subs[0]);
      var a := Subscribes(s, subs).result;
      if t.result.Failure? {
        assert ReplaySpec(s, subs).state == t.state;
        assert a == [t.result];
        assert Confirmed(subs, a) == [];
      } else {
        ReplayRegistry(t.state, subs[1..]);
        var more := Subscribes(t.state, subs[1..]).result;
        var kept := Confirmed(subs[1..], more);
        assert ReplaySpec(s, subs) == ReplaySpec(t.state, subs[1..]);
        assert a == [t.result] + more && a[1..] == more;
        if t.result == Success(true) {
          assert Confirmed(subs, a) == [subs[0]] + kept;
          PutAllCons(s.subscriptions, subs[0], kept);
        } else {
          assert Confirmed(subs, a) == [] + kept;
          assert [] + kept == kept;
        }
      }
    }
  }

  /** From position m on, `out` holds the first frames of a replay from s, one per entry, in order. */
  ghost predicate ReplayedFrom(out: seq<Frame>, m: nat, s: Session, subs: seq<(string, Option<Headers>)>) {
    && m <= |out| <= m + |subs|
    && forall i :: 0 <= i < |out| - m ==> out[m + i] == ReplayFrame(s, subs[i], i)
  }

  /** The frames after the first call's frame are those of the replay that goes on from the state it left. */
  lemma ReplayedFromCons(out: seq<Frame>, m: nat, s: Session, t: Session, subs: seq<(string, Option<Headers>)>)
    requires subs != [] && m < |out| && out[m] == ReplayFrame(s, subs[0], 0)
    requires ReplayedFrom(out, m + 1, t, subs[1..])
    requires t.sync == s.sync && t.brokerVendor == s.brokerVendor
    requires t.prefetchSize == s.prefetchSize && t.clientId == s.clientId
    requires t.ticks == (if s.sync then s.ticks + 1 else s.ticks)
    ensures ReplayedFrom(out, m, s, subs)
  {
    forall i | 0 <= i < |out| - m
      ensures out[m + i] == ReplayFrame(s, subs[i], i)
    {
      if i > 0 {
        assert out[m + i] == out[(m + 1) + (i - 1)];
        assert subs[1..][i - 1] == subs[i];
        ReplayFrameShift(s, t, subs[i], i);
      }
    }
  }

  /** Nothing yet, or the first call's frame alone, is the start of a replay's frames. */
  lemma ReplayedFromFirst(prev: seq<Frame>, s: Session, subs: seq<(string, Option<Headers>)>)
    requires subs != []
    ensures ReplayedFrom(prev, |prev|, s, subs) && prev[..|prev|] == prev
    ensures ReplayedFrom(prev + [ReplayFrame(s, subs[0], 0)], |prev|, s, subs)
    ensures (prev + [ReplayFrame(s, subs[0], 0)])[..|prev|] == prev
  {
    var out := prev + [ReplayFrame(s, subs[0], 0)];
    assert |out| == |prev| + 1;
    forall i | 0 <= i < |out| - |prev|
      ensures out[|prev| + i] == ReplayFrame(s, subs[i], i)
    {
      assert i == 0;
    }
    assert out[..|prev|] == prev;
  }

  /**
   * What a replay in a session of either kind writes: after the frames written before, one
   * SUBSCRIBE per call, in registry order, the i-th for the i-th entry and carrying the i-th
   * receipt when the session is synchronous.
   */
  lemma {:induction false} ReplayWrites(s: Session, subs: seq<(string, Option<Headers>)>)
    ensures ReplayedFrom(ReplaySpec(s, subs).state.sent, |s.sent|, s, subs)
    ensures ReplaySpec(s, subs).state.sent[..|s.sent|] == s.sent
    decreases |subs|
  {
    if subs == [] {
      assert s.sent[..|s.sent|] == s.sent;
    } else {
      var t := SubscribeSpec(s, subs[0].0, subs[0].1, None);
      SubscribeStep(s, subs[0]);
      var f := ReplayFrame(s, subs[0], 0);
      if t.result.Success? {
        ReplayWrites(t.state, subs[1..]);
        var out := ReplaySpec(t.state, subs[1..]).state.sent;
        assert ReplaySpec(s, subs).state.sent == out;
        assert t.state.sent == s.sent + [f];
        assert |t.state.sent| == |s.sent| + 1 && out[..|t.state.sent|] == t.state.sent;
        SentAfterFirst(s.sent, f, out);
        ReplayedFromCons(out, |s.sent|, s, t.state, subs);
      } else {
        assert ReplaySpec(s, subs).state == t.state;
        ReplayedFromFirst(s.sent, s, subs);
      }
    }
  }

  /**
   * A replay writes one frame per call, except that a last call that threw may have written
   * nothing; so fewer frames than entries means the replay failed.
   */
  lemma {:induction false} ReplayWriteCount(s: Session, subs: seq<(string, Option<Headers>)>)
    ensures |s.sent| <= |ReplaySpec(s, subs).state.sent| <= |s.sent| + |Subscribes(s, subs).result|
    ensures |ReplaySpec(s, subs).state.sent| < |s.sent| + |Subscribes(s, subs).result| ==>
      ReplaySpec(s, subs).result.Fail? && |ReplaySpec(s, subs).state.sent| + 1 == |s.sent| + |Subscribes(s, subs).result|
    ensures |ReplaySpec(s, subs).state.sent| < |s.sent| + |subs| ==> ReplaySpec(s, subs).result.Fail?
    decreases |subs|
  {
    if subs != [] {
      var t := SubscribeSpec(s, subs[0].0, subs[0].1, None);
      SubscribeStep(s, subs[0]);
      if t.result.Success? {
        ReplayWriteCount(t.state, subs[1..]);
        ReplayAnswers(t.state, subs[1..]);
        assert ReplaySpec(s, subs) == ReplaySpec(t.state, subs[1..]);
        assert |Subscribes(s, subs).result| == 1 + |Subscribes(t.state, subs[1..]).result|;
        assert |t.state.sent| == |s.sent| + 1;
      } else {
        assert ReplaySpec(s, subs) == Step(t.state, Fail(t.result.error));
        assert |Subscribes(s, subs).result| == 1;
      }
    }
  }

  /**
   * _reconnect in a session of either kind whose connect succeeds: the registry holds exactly
   * the old entries whose renewed subscribe answered true, in order; after the connection frames
   * come one SUBSCRIBE per renewed entry, in registry order; and the reconnect passes exactly
   * when every entry was renewed without an error.
   */
  lemma ReconnectRenews(s: Session)
    requires ConnectSpec(s, s.username, s.password).result == Pass
    ensures ReconnectSpec(s).state.subscriptions ==
      PutAll([], Confirmed(s.subscriptions, Subscribes(ConnectSpec(s, s.username, s.password).state, s.subscriptions).result))
    ensures ReplayedFrom(ReconnectSpec(s).state.sent, |ConnectSpec(s, s.username, s.password).state.sent|,
                         ConnectSpec(s, s.username, s.password).state, s.subscriptions)
    ensures ReconnectSpec(s).state.sent[..|ConnectSpec(s, s.username, s.password).state.sent|] ==
      ConnectSpec(s, s.username, s.password).state.sent
    ensures ReconnectSpec(s).result == Pass <==>
      |Subscribes(ConnectSpec(s, s.username, s.password).state, s.subscriptions).result| == |s.subscriptions|
      && NoneThrew(Subscribes(ConnectSpec(s, s.username, s.password).state, s.subscriptions).result)
  {
    var c := ConnectSpec(s, s.username, s.password);
    var m := MakeConnectionSpec(s);
    HandshakeKeeps(m.state.(username := if s.username != "" then s.username else m.state.username,
                            password := if s.password != "" then s.password else m.state.password));
    assert c.state.subscriptions == [];
    assert ReconnectSpec(s) == ReplaySpec(c.state, s.subscriptions);
    ReplayRegistry(c.state, s.subscriptions);
    ReplayWrites(c.state, s.subscriptions);
    ReplayAnswers(c.state, s.subscriptions);
  }

  /** subscribe keeps the session valid, however the broker answers. */
  lemma SubscribeKeepsValid(s: Session, destination: string, properties: Option<Headers>, sync: Option<bool>)
    requires Valid(s)
    ensures Valid(SubscribeSpec(s, destination, properties, sync).state)
  {
    TransmitKeepsValid(s, Frame("SUBSCRIBE", SubscribeHeaders(destination, properties, s.brokerVendor, s.prefetchSize, s.clientId), ""), sync);
  }

  /** Renewing subscriptions keeps the session valid, however each SUBSCRIBE is answered. */
  lemma {:induction false} ReplayKeepsValid(s: Session, subs: seq<(string, Option<Headers>)>)
    requires Valid(s)
    ensures Valid(ReplaySpec(s, subs).state)
    decreases |subs|
  {
    if subs != [] {
      var t := SubscribeSpec(s, subs[0].0, subs[0].1, None);
      SubscribeKeepsValid(s, subs[0].0, subs[0].1, None);
      if t.result.Success? {
        ReplayKeepsValid(t.state, subs[1..]);
      }
    }
  }

  /** _reconnect keeps the session valid whatever the broker answers. */
  lemma ReconnectKeepsValid(s: Session)
    requires Valid(s)
    ensures Valid(ReconnectSpec(s).state)
  {
    ConnectKeepsValid(s, s.username, s.password);
    var c := ConnectSpec(s, s.username, s.password);
    if c.result.Pass? {
      ReplayKeepsValid(c.state, s.subscriptions);
    }
  }
}
