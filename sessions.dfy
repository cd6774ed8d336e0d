/**
 * The state of one client session and what each public operation of the client does to it, as
 * functions from the state before to the state after and the operation's result. The class in
 * module Client is proved to follow these functions; the lemmas here state what the operations
 * promise.
 */
module Sessions {
  import opened Wrappers
  import opened Errors
  import opened Text
  import opened OrderedMaps
  import opened Frames
  import opened Wire
  import opened Receipts
  import opened Commands
  import opened Endpoints

  /**
   * Every field of the client, plus the stand-ins for its surroundings: whether the socket is
   * open, what the socket will deliver, the frames written so far, the host indices dialled, the
   * outcomes of the next dials, the next random draws and a tick counter from which receipt ids
   * are made.
   */
  datatype Session = Session(
    sync: bool,
    prefetchSize: int,
    clientId: Option<string>,
    brokerVendor: string,
    brokerUri: string,
    hosts: seq<Endpoint>,
    params: Headers,
    subscriptions: OrderedMap<Option<Headers>>,
    currentHost: int,
    username: string,
    password: string,
    sessionId: Option<string>,
    waitbuf: seq<Item>,
    socketOpen: bool,
    inbound: seq<Event>,
    sent: seq<Frame>,
    dialed: seq<nat>,
    dialResults: seq<bool>,
    draws: seq<nat>,
    ticks: nat)

  /** A state after an operation, with the operation's result. */
  datatype Step<+R> = Step(state: Session, result: R)

  /** What the client keeps true between operations. */
  ghost predicate Valid(s: Session) {
    && Pending(s.waitbuf)
    && -1 <= s.currentHost < |s.hosts|
    && (s.socketOpen ==> s.currentHost >= 0)
    && (s.sessionId.Some? ==> s.socketOpen)
  }

  /** The receipt id a synchronous request draws; it stands for md5(microtime()). */
  function Ticket(ticks: nat): (t: string)
    ensures t != ""
  {
    "receipt-" + Digits(ticks)
  }

  /** `!empty($this->_sessionId)`: null, "" and "0" are all empty in PHP. */
  predicate HasSession(sessionId: Option<string>) {
    sessionId.Some? && sessionId.value != "" && sessionId.value != "0"
  }

  /** isConnected. */
  predicate IsConnected(s: Session) {
    HasSession(s.sessionId) && s.socketOpen
  }

  /** `_params['randomize'] == 'true'`. */
  predicate Randomize(params: Headers) {
    Get(params, "randomize") == Some("true")
  }

  /** The frame disconnect writes. */
  function DisconnectFrame(clientId: Option<string>): Frame {
    Frame("DISCONNECT", DisconnectHeaders(clientId), "")
  }

  /**
   * disconnect: a DISCONNECT frame when the socket is open, then the socket, the session id, the
   * current host, the registry, the credentials and the pending buffer are all reset.
   */
  function DisconnectSpec(s: Session): Session {
    s.(sent := if s.socketOpen then s.sent + [DisconnectFrame(s.clientId)] else s.sent,
       socketOpen := false, sessionId := None, currentHost := -1, subscriptions := [],
       username := "", password := "", waitbuf := [])
  }

  /** _writeFrame: the frame goes out on an open socket; without one the write fails. */
  function WriteSpec(s: Session, f: Frame): Step<Outcome<StompError>> {
    if s.socketOpen then Step(s.(sent := s.sent + [f]), Pass) else Step(s, Fail(SocketNotEstablished))
  }

  /** readFrame. */
  function ReadSpec(s: Session): Step<Result<Item, StompError>> {
    var r := ReadFrameSpec(s.waitbuf, s.inbound, s.socketOpen);
    Step(s.(waitbuf := r.waitbuf, inbound := r.inbound), r.result)
  }

  /** hasFrameToRead. */
  function HasFrameSpec(s: Session): Step<Result<bool, StompError>> {
    var p := Probe(s.inbound, s.socketOpen);
    Step(s.(inbound := p.1), p.0)
  }

  /**
   * _makeConnection: refuse an empty host list; otherwise disconnect, then dial from the current
   * host as disconnect left it, and record the host that answered.
   */
  function MakeConnectionSpec(s: Session): Step<Outcome<StompError>> {
    if |s.hosts| == 0 then Step(s, Fail(NoBrokerDefined))
    else
      var s1 := DisconnectSpec(s);
      var d := Dial(s1.hosts, Randomize(s1.params), s1.currentHost, 0, s1.dialResults, s1.draws);
      var s2 := s1.(dialed := s1.dialed + d.dialed, dialResults := d.dialResults, draws := d.draws,
                    socketOpen := d.outcome.Success?,
                    currentHost := if d.outcome.Success? then d.outcome.value else s1.currentHost);
      Step(s2, if d.outcome.Success? then Pass else Fail(d.outcome.error))
  }

  /**
   * connect: make the connection, keep the credentials given unless they are empty, send
   * CONNECT and read the answer; a CONNECTED frame gives the session id and may reveal RabbitMQ.
   */
  function ConnectSpec(s: Session, username: string, password: string): Step<Outcome<StompError>> {
    var m := MakeConnectionSpec(s);
    if m.result.Fail? then m
    else
      HandshakeSpec(m.state.(username := if username != "" then username else m.state.username,
                             password := if password != "" then password else m.state.password))
  }

  /**
   * The second half of connect, on an open connection: send CONNECT with the stored credentials
   * and read the answer, which must be a CONNECTED frame.
   */
  function HandshakeSpec(s: Session): Step<Outcome<StompError>> {
    var w := WriteSpec(s, Frame("CONNECT", ConnectHeaders(s.username, s.password, s.clientId), ""));
    if w.result.Fail? then w
    else
      var r := ReadSpec(w.state);
      match r.result
      case Failure(e) => Step(r.state, Fail(e))
      case Success(NoFrame) => Step(r.state, Fail(ConnectionNotAcknowledged))
      case Success(Got(f)) =>
        if f.command == "CONNECTED" then
          Step(r.state.(sessionId := Get(f.headers, "session"),
                        brokerVendor := DetectVendor(r.state.brokerVendor, f.headers)), Pass)
        else Step(r.state, Fail(UnexpectedCommand(f.command, f.body)))
  }

  /**
   * The request sequence shared by send, subscribe, unsubscribe, begin, commit and abort:
   * tag the frame with a receipt when the request is synchronous, write it, wait for the receipt.
   */
  function TransmitSpec(s: Session, f: Frame, sync: Option<bool>): Step<Result<bool, StompError>> {
    var h := PrepareReceipt(f.headers, s.sync, sync, Ticket(s.ticks));
    DeliverSpec(s.(ticks := if EffectiveSync(s.sync, sync) then s.ticks + 1 else s.ticks), f.(headers := h), sync)
  }

  /** A tagged request's write, then the wait for the receipt its headers name. */
  function DeliverSpec(s: Session, f: Frame, sync: Option<bool>): Step<Result<bool, StompError>> {
    var w := WriteSpec(s, f);
    if w.result.Fail? then Step(w.state, Failure(w.result.error))
    else
      var wt := WaitForReceiptSpec(f.headers, s.sync, sync, w.state.waitbuf, w.state.inbound, w.state.socketOpen);
      Step(w.state.(waitbuf := wt.waitbuf, inbound := wt.inbound), wt.result)
  }

  /** send. */
  function SendSpec(s: Session, destination: string, msg: Message, properties: Headers, sync: Option<bool>): Step<Result<bool, StompError>> {
    TransmitSpec(s, SendFrame(destination, msg, properties), sync)
  }

  /** subscribe: the destination is registered with its properties only when the request succeeded. */
  function SubscribeSpec(s: Session, destination: string, properties: Option<Headers>, sync: Option<bool>): Step<Result<bool, StompError>> {
    var f := Frame("SUBSCRIBE", SubscribeHeaders(destination, properties, s.brokerVendor, s.prefetchSize, s.clientId), "");
    var t := TransmitSpec(s, f, sync);
    if t.result == Success(true) then Step(t.state.(subscriptions := Put(t.state.subscriptions, destination, properties)), t.result)
    else t
  }

  /** unsubscribe: the destination is removed from the registry only when the request succeeded. */
  function UnsubscribeSpec(s: Session, destination: string, properties: Option<Headers>, sync: Option<bool>): Step<Result<bool, StompError>> {
    var f := Frame("UNSUBSCRIBE", UnsubscribeHeaders(destination, properties, s.brokerVendor, s.clientId), "");
    var t := TransmitSpec(s, f, sync);
    if t.result == Success(true) then Step(t.state.(subscriptions := Delete(t.state.subscriptions, destination)), t.result)
    else t
  }

  /** begin, commit and abort, told apart by the command. */
  function TransactionSpec(s: Session, command: string, transactionId: Option<string>, sync: Option<bool>): Step<Result<bool, StompError>> {
    TransmitSpec(s, Frame(command, TransactionHeaders(transactionId), ""), sync)
  }

  /** ack: always asynchronous; true once the frame is written. */
  function AckSpec(s: Session, target: AckTarget, transactionId: Option<string>): Step<Result<bool, StompError>> {
    var w := WriteSpec(s, Frame("ACK", AckHeaders(target, transactionId, s.brokerVendor), ""));
    Step(w.state, if w.result.Pass? then Success(true) else Failure(w.result.error))
  }

  /** _reconnect's foreach: subscribe again to each destination in turn, with the session's sync. */
  function ReplaySpec(s: Session, subs: seq<(string, Option<Headers>)>): Step<Outcome<StompError>>
    decreases |subs|
  {
    if subs == [] then Step(s, Pass)
    else
      var t := SubscribeSpec(s, subs[0].0, subs[0].1, None);
      if t.result.Failure? then Step(t.state, Fail(t.result.error)) else ReplaySpec(t.state, subs[1..])
  }

  /** _reconnect: connect again with the stored credentials, then renew the subscriptions held before. */
  function ReconnectSpec(s: Session): Step<Outcome<StompError>> {
    var c := ConnectSpec(s, s.username, s.password);
    if c.result.Fail? then c else ReplaySpec(c.state, s.subscriptions)
  }
}
