/**
 * The header maps the client builds for the frames it sends. Each builder follows the order of
 * assignments in the client, so a later assignment overrides an earlier one.
 */
module Commands {
  import opened Wrappers
  import opened Text
  import opened OrderedMaps
  import opened Frames

  /** `$this->clientId != null`: PHP's loose comparison treats "" as null. */
  predicate HasClientId(clientId: Option<string>) {
    clientId.Some? && clientId.value != ""
  }

  /** `isset($properties)`: a missing properties array contributes nothing. */
  function PropertiesOrNone(properties: Option<Headers>): (h: Headers)
    ensures properties.None? ==> h == []
    ensures properties.Some? ==> h == properties.value
  {
    if properties.Some? then properties.value else []
  }

  /** The header that carries the prefetch size, by broker vendor: ActiveMQ's or RabbitMQ's name. */
  function PrefetchHeader(vendor: string): Option<string> {
    if vendor == "AMQ" then Some("activemq.prefetchSize")
    else if vendor == "RMQ" then Some("prefetch-count")
    else None
  }

  /** The header that names a subscription after the client id, by broker vendor. */
  function SubscriptionIdHeader(vendor: string): Option<string> {
    if vendor == "AMQ" then Some("activemq.subscriptionName")
    else if vendor == "RMQ" then Some("id")
    else None
  }

  /**
   * The headers subscribe sets before the caller's properties: client acknowledgement, the
   * vendor's prefetch header, and the vendor's subscription-name header when there is a client id.
   */
  function SubscribeBase(vendor: string, prefetchSize: int, clientId: Option<string>): (h: Headers)
    ensures Get(h, "ack") == Some("client")
    ensures PrefetchHeader(vendor).Some? ==> Get(h, PrefetchHeader(vendor).value) == Some(Decimal(prefetchSize))
    ensures HasClientId(clientId) && SubscriptionIdHeader(vendor).Some? ==>
      Get(h, SubscriptionIdHeader(vendor).value) == Some(clientId.value)
    ensures forall k ::
      (k != "ack" && Some(k) != PrefetchHeader(vendor) && !(HasClientId(clientId) && Some(k) == SubscriptionIdHeader(vendor)))
      ==> Get(h, k) == None
  {
    var h0: Headers := [("ack", "client")];
    assert Keys(h0) == ["ack"];
    var prefetch := PrefetchHeader(vendor);
    var subscription := SubscriptionIdHeader(vendor);
    assert prefetch != Some("ack") && subscription != Some("ack");
    assert prefetch.Some? && subscription.Some? ==> prefetch.value != subscription.value;
    var h1 := if prefetch.Some? then Put(h0, prefetch.value, Decimal(prefetchSize)) else h0;
    assert Get(h1, "ack") == Some("client");
    assert forall k :: k != "ack" && Some(k) != prefetch ==> Get(h1, k) == None;
    if HasClientId(clientId) && subscription.Some? then Put(h1, subscription.value, clientId.value) else h1
  }

  /**
   * subscribe's headers: the base headers, then the caller's properties overriding them, then the
   * destination, which is always the one subscribed to.
   */
  function SubscribeHeaders(destination: string, properties: Option<Headers>, vendor: string, prefetchSize: int,
                            clientId: Option<string>): (h: Headers)
    ensures Get(h, "destination") == Some(destination)
    ensures forall k :: k != "destination" ==>
      Get(h, k) == if k in Keys(PropertiesOrNone(properties)) then Get(PropertiesOrNone(properties), k)
                   else Get(SubscribeBase(vendor, prefetchSize, clientId), k)
  {
    var base := SubscribeBase(vendor, prefetchSize, clientId);
    var props := PropertiesOrNone(properties);
    PutAllOverrides(base, props);
    Put(PutAll(base, props), "destination", destination)
  }

  /** A caller's property beats the client's own choice of subscription id or prefetch. */
  lemma SubscribePropertiesWin(destination: string, properties: Headers, vendor: string, prefetchSize: int,
                               clientId: Option<string>, k: string, v: string)
    requires k != "destination" && Get(properties, k) == Some(v)
    ensures Get(SubscribeHeaders(destination, Some(properties), vendor, prefetchSize, clientId), k) == Some(v)
  {
  }

  /**
   * unsubscribe's headers: the caller's properties, then the client id as `id` for RabbitMQ, then
   * the destination. Unlike subscribe, the client's `id` overrides the caller's.
   */
  function UnsubscribeHeaders(destination: string, properties: Option<Headers>, vendor: string,
                              clientId: Option<string>): (h: Headers)
    ensures Get(h, "destination") == Some(destination)
    ensures vendor == "RMQ" && HasClientId(clientId) ==> Get(h, "id") == Some(clientId.value)
    ensures forall k :: k != "destination" && !(k == "id" && vendor == "RMQ" && HasClientId(clientId)) ==>
      Get(h, k) == Get(PropertiesOrNone(properties), k)
  {
    var props := PropertiesOrNone(properties);
    PutAllOverrides([], props);
    var h0 := PutAll([], props);
    var h1 := if HasClientId(clientId) && vendor == "RMQ" then Put(h0, "id", clientId.value) else h0;
    Put(h1, "destination", destination)
  }

  /** begin / commit / abort: a `transaction` header when an id is given, nothing else. */
  function TransactionHeaders(transactionId: Option<string>): (h: Headers)
    ensures Get(h, "transaction") == transactionId
    ensures forall k :: k != "transaction" ==> Get(h, k) == None
  {
    if transactionId.Some? then [("transaction", transactionId.value)] else []
  }

  /** What ack is given: a received frame, or a bare message id. */
  datatype AckTarget = AckFrame(frame: Frame) | AckId(messageId: string)

  /**
   * ack's headers. For a frame: its headers, the transaction if one is given, and, for RabbitMQ,
   * no `content-length`. For a message id: `message-id` and the transaction if one is given.
   * Either way no receipt is asked for that the acknowledged frame did not carry.
   */
  function AckHeaders(target: AckTarget, transactionId: Option<string>, vendor: string): (h: Headers)
    ensures transactionId.Some? ==> Get(h, "transaction") == transactionId
    ensures target.AckFrame? && vendor == "RMQ" ==> Get(h, "content-length") == None
    ensures target.AckFrame? ==> forall k ::
      !(k == "transaction" && transactionId.Some?) && !(k == "content-length" && vendor == "RMQ") ==>
      Get(h, k) == Get(target.frame.headers, k)
    ensures target.AckId? ==> Get(h, "message-id") == Some(target.messageId)
    ensures target.AckId? ==> forall k :: k != "message-id" ==> Get(h, k) == Get(TransactionHeaders(transactionId), k)
    ensures Get(h, "receipt") == if target.AckFrame? then Get(target.frame.headers, "receipt") else None
  {
    assert "receipt" != "transaction" && "receipt" != "content-length" && "receipt" != "message-id";
    assert "transaction" != "content-length" && "transaction" != "message-id";
    match target
    case AckFrame(frame) =>
      var h0 := if transactionId.Some? then Put(frame.headers, "transaction", transactionId.value) else frame.headers;
      assert forall k :: !(k == "transaction" && transactionId.Some?) ==> Get(h0, k) == Get(frame.headers, k);
      if vendor == "RMQ" then Delete(h0, "content-length") else h0
    case AckId(id) =>
      Put(TransactionHeaders(transactionId), "message-id", id)
  }

  /** What send is given: a text body, or a frame to send as it is. */
  datatype Message = TextMessage(body: string) | FrameMessage(frame: Frame)

  /**
   * The frame send writes before any receipt tagging. A text becomes a SEND frame whose
   * destination is the argument whatever the properties say; a frame keeps its command and body,
   * gets the destination, and the properties are merged over it, so they win even over the
   * destination.
   */
  function SendFrame(destination: string, msg: Message, properties: Headers): (f: Frame)
    ensures msg.TextMessage? ==> f.command == "SEND" && f.body == msg.body
    ensures msg.TextMessage? ==> Get(f.headers, "destination") == Some(destination)
    ensures msg.TextMessage? ==> forall k :: k != "destination" ==> Get(f.headers, k) == Get(properties, k)
    ensures msg.FrameMessage? ==> f.command == msg.frame.command && f.body == msg.frame.body
    ensures msg.FrameMessage? ==>
      Get(f.headers, "destination") ==
        if "destination" in Keys(properties) then Get(properties, "destination") else Some(destination)
    ensures msg.FrameMessage? ==> forall k :: k != "destination" ==>
      Get(f.headers, k) == if k in Keys(properties) then Get(properties, k) else Get(msg.frame.headers, k)
  {
    match msg
    case TextMessage(body) => Frame("SEND", Put(properties, "destination", destination), body)
    case FrameMessage(frame) =>
      var h0 := Put(frame.headers, "destination", destination);
      PutAllOverrides(h0, properties);
      Frame(frame.command, PutAll(h0, properties), frame.body)
  }

  /** connect's headers: the credentials, and the client id when there is one. */
  function ConnectHeaders(username: string, password: string, clientId: Option<string>): (h: Headers)
    ensures Get(h, "login") == Some(username) && Get(h, "passcode") == Some(password)
    ensures Get(h, "client-id") == if HasClientId(clientId) then Some(clientId.value) else None
    ensures forall k :: k !in ["login", "passcode", "client-id"] ==> Get(h, k) == None
  {
    var h0: Headers := [("login", username), ("passcode", password)];
    if HasClientId(clientId) then Put(h0, "client-id", clientId.value) else h0
  }

  /** disconnect's headers: the client id when there is one. */
  function DisconnectHeaders(clientId: Option<string>): (h: Headers)
    ensures Get(h, "client-id") == if HasClientId(clientId) then Some(clientId.value) else None
    ensures forall k :: k != "client-id" ==> Get(h, k) == None
  {
    if HasClientId(clientId) then [("client-id", clientId.value)] else []
  }

  /** The vendor after a CONNECTED frame: RabbitMQ when its `server` header names it, in any case. */
  function DetectVendor(vendor: string, connected: Headers): (r: string)
    ensures r == "RMQ" || r == vendor
    ensures r != vendor ==> "server" in Keys(connected)
  {
    match Get(connected, "server")
    case Some(server) => if ContainsIgnoringCase(Trim(server, Whitespace), "rabbitmq") then "RMQ" else vendor
    case None => vendor
  }

  /** "RabbitMQ" lower-cases to "rabbitmq", which lower-casing leaves as it is. */
  lemma RabbitMQLowered()
    ensures Lower("RabbitMQ") == "rabbitmq" && Lower("rabbitmq") == "rabbitmq"
  {
    var up, low := Lower("RabbitMQ"), Lower("rabbitmq");
    assert up[0] == 'r' && up[6] == 'm' && up[7] == 'q';
    assert low[0] == 'r' && low[6] == 'm' && low[7] == 'q';
  }

  /**
   * The vendor becomes RabbitMQ exactly when the server header contains "rabbitmq" in any case,
   * anywhere: trimming the header first changes nothing, since it only removes spaces and
   * control characters.
   */
  lemma DetectVendorSearches(vendor: string, connected: Headers)
    ensures DetectVendor(vendor, connected) ==
      if Get(connected, "server").Some? && ContainsIgnoringCase(Get(connected, "server").value, "rabbitmq") then "RMQ"
      else vendor
  {
    if Get(connected, "server").Some? {
      RabbitMQLowered();
      WhitespaceIsLow();
      TrimmedContains(Get(connected, "server").value, "rabbitmq", Whitespace);
    }
  }

  /** "RabbitMQ" in any case, at any place in the server header, is recognised. */
  lemma RabbitMQRecognised(vendor: string, connected: Headers, before: string, word: string, after: string)
    requires Get(connected, "server") == Some(before + word + after) && Lower(word) == "rabbitmq"
    ensures DetectVendor(vendor, connected) == "RMQ"
  {
    var s := before + word + after;
    var p := |before|;
    assert s[p..p + |word|] == word;
    LowerSlice(s, p, p + |word|);
    RabbitMQLowered();
    assert OccursAt(Lower(s), Lower("rabbitmq"), p);
    DetectVendorSearches(vendor, connected);
  }

  /** A server header without the letter r in either case, such as ActiveMQ's, leaves the vendor alone. */
  lemma {:induction false} OtherBrokerKept(vendor: string, connected: Headers, server: string)
    requires Get(connected, "server") == Some(server) && 'r' !in server && 'R' !in server
    ensures DetectVendor(vendor, connected) == vendor
  {
    DetectVendorSearches(vendor, connected);
    RabbitMQLowered();
    forall p | 0 <= p <= |server| ensures !OccursAt(Lower(server), Lower("rabbitmq"), p) {
      if p < |server| {
        assert server[p] in server;
        NotLowerR(server[p]);
        Mismatch(Lower(server), Lower("rabbitmq"), p);
      }
    }
  }

  /** Only 'r' and 'R' lower-case to 'r'. */
  lemma NotLowerR(c: char)
    requires c != 'r' && c != 'R'
    ensures LowerChar(c) != 'r'
  {
  }
}
