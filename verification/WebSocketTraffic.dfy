// What connections and frames do to sockets, stated on the frames' own fields (app/api/websocket.py,
// app/services/connection_manager.py, app/services/ws_pubsub.py).
module WebSocketTraffic {
  import opened Wrappers
  import opened WebSockets
  import Decimal

  // ---------- the table ----------

  /** Connecting adds one socket to one user, and changes nobody else's sockets. */
  lemma ConnectedSockets(connections: Connections, user: int, socket: Socket, other: int)
    ensures SocketsOf(Connected(connections, user, socket), other)
      == SocketsOf(connections, other) + if other == user then {socket} else {}
  {
  }

  /** Disconnecting takes that socket away from that user, and changes nobody else's sockets. */
  lemma DisconnectedSockets(connections: Connections, user: int, socket: Socket, other: int)
    ensures SocketsOf(Disconnected(connections, user, socket), other)
      == SocketsOf(connections, other) - if other == user then {socket} else {}
  {
  }

  /** A socket belongs to at most one user. */
  ghost predicate OneUserEach(connections: Connections) {
    forall socket, a, b :: socket in SocketsOf(connections, a) && socket in SocketsOf(connections, b) ==> a == b
  }

  lemma CopiesCount(sockets: set<Socket>, message: Message, socket: Socket, other: Message)
    ensures Copies(sockets, message)[(socket, other)] == if socket in sockets && other == message then 1 else 0
  {
  }

  // ---------- frames ----------

  predicate Has(frame: Json, name: string, value: Json) {
    frame.JObject? && name in frame.fields && frame.fields[name] == value
  }

  /** The frame is `{"type": "message", "to": to, "body": body}`, whatever else it holds. */
  predicate IsMessage(frame: Json, to: Json, body: string) {
    Has(frame, "type", JString("message")) && Has(frame, "to", to) && Has(frame, "body", JString(body))
  }

  /** A message for user `n`: by number, or for 0 and 1 by the boolean that equals it. */
  predicate IsMessageFor(frame: Json, n: int, body: string) {
    || IsMessage(frame, JInt(n), body)
    || (n == 1 && IsMessage(frame, JBool(true), body))
    || (n == 0 && IsMessage(frame, JBool(false), body))
  }

  function CountIf(frames: seq<Json>, p: Json -> bool): nat {
    if frames == [] then
      0
    else
      var n := |frames| - 1;
      CountIf(frames[..n], p) + if p(frames[n]) then 1 else 0
  }

  function MessagesFor(frames: seq<Json>, n: int, body: string): nat {
    CountIf(frames, frame => IsMessageFor(frame, n, body))
  }

  function MessagesTo(frames: seq<Json>, to: Json, body: string): nat {
    CountIf(frames, frame => IsMessage(frame, to, body))
  }

  lemma InterpretMessage(frame: Json, n: int, body: string)
    ensures IsMessageFor(frame, n, body)
      <==> Interpret(frame).Send? && UserOf(Interpret(frame).to) == n && Interpret(frame).body == body
    ensures IsMessage(frame, JInt(n), body) <==> Interpret(frame) == Send(Number(n), body)
  {
  }

  /** Which frames are faulty, and how: no message at all, or one without a numeric recipient and a textual body. */
  lemma InterpretFault(frame: Json)
    ensures Interpret(frame) == Reply(UnsupportedMessageType) <==> !Has(frame, "type", JString("message"))
    ensures Interpret(frame) == Reply(MalformedFields)
      <==> Has(frame, "type", JString("message")) && !(HasRecipient(frame) && HasText(frame))
  {
  }

  predicate HasRecipient(frame: Json) {
    frame.JObject? && "to" in frame.fields && (frame.fields["to"].JInt? || frame.fields["to"].JBool?)
  }

  predicate HasText(frame: Json) {
    frame.JObject? && "body" in frame.fields && frame.fields["body"].JString?
  }

  lemma OneFrameDelivered(connections: Connections, reachable: bool, user: int, socket: Socket, traffic: Traffic,
                          frame: Json, n: int, body: string, other: Socket)
    requires OneUserEach(connections) && other in SocketsOf(connections, n)
    ensures
      var after := AfterFrame(connections, reachable, user, socket, traffic, frame);
      after.sent[(other, PrivateMessage(user, body))]
        == traffic.sent[(other, PrivateMessage(user, body))] + if IsMessageFor(frame, n, body) then 1 else 0
  {
    InterpretMessage(frame, n, body);
    if Interpret(frame).Send? {
      var message := PrivateMessage(user, Interpret(frame).body);
      CopiesCount(SocketsOf(connections, UserOf(Interpret(frame).to)), message, other, PrivateMessage(user, body));
    }
  }

  /**
   * Over any frames of a connection, each socket that user `n` has on this worker gets exactly one copy of a body for
   * each frame that sends this body to `n`, marked as coming from the connection's user.
   */
  lemma {:induction false} MessagesDelivered(connections: Connections, reachable: bool, user: int, socket: Socket,
                                             traffic: Traffic, frames: seq<Json>, n: int, body: string, other: Socket)
    requires OneUserEach(connections) && other in SocketsOf(connections, n)
    ensures
      var after := AfterFrames(connections, reachable, user, socket, traffic, frames);
      after.sent[(other, PrivateMessage(user, body))]
        == traffic.sent[(other, PrivateMessage(user, body))] + MessagesFor(frames, n, body)
  {
    if frames != [] {
      var k := |frames| - 1;
      MessagesDelivered(connections, reachable, user, socket, traffic, frames[..k], n, body, other);
      var before := AfterFrames(connections, reachable, user, socket, traffic, frames[..k]);
      OneFrameDelivered(connections, reachable, user, socket, before, frames[k], n, body, other);
      CountOneMore(frames, frame => IsMessageFor(frame, n, body));
    }
  }

  lemma CountOneMore(frames: seq<Json>, p: Json -> bool)
    requires frames != []
    ensures CountIf(frames, p) == CountIf(frames[..|frames| - 1], p) + if p(frames[|frames| - 1]) then 1 else 0
  {
  }

  /** Error replies aside, frames write nothing else: no other sender's message, no notification, no stray socket. */
  lemma {:induction false} NothingElseSent(connections: Connections, reachable: bool, user: int, socket: Socket,
                                           traffic: Traffic, frames: seq<Json>, other: Socket, message: Message)
    requires !message.Error?
    requires (message.PrivateMessage? && message.from == user) ==> forall n :: other !in SocketsOf(connections, n)
    ensures AfterFrames(connections, reachable, user, socket, traffic, frames).sent[(other, message)]
      == traffic.sent[(other, message)]
  {
    if frames != [] {
      var k := |frames| - 1;
      NothingElseSent(connections, reachable, user, socket, traffic, frames[..k], other, message);
      match Interpret(frames[k])
      case Reply(_) =>
      case Send(to, body) =>
        CopiesCount(SocketsOf(connections, UserOf(to)), PrivateMessage(user, body), other, message);
    }
  }

  // ---------- publications ----------

  function UserChannel(n: int): string {
    "ws:user:" + Decimal.IntText(n)
  }

  lemma ChannelsDiffer(recipient: Recipient, n: int)
    ensures Channel(recipient) == UserChannel(n) <==> recipient == Number(n)
  {
    ChannelRoundTrip(recipient);
    ChannelRoundTrip(Number(n));
  }

  lemma OneFramePublished(connections: Connections, reachable: bool, user: int, socket: Socket, traffic: Traffic,
                          frame: Json, n: int, body: string)
    ensures
      var after := AfterFrame(connections, reachable, user, socket, traffic, frame);
      var publication := (UserChannel(n), PrivateMessage(user, body));
      multiset(after.published)[publication] == multiset(traffic.published)[publication]
        + if IsMessage(frame, JInt(n), body) && SocketsOf(connections, n) == {} && reachable then 1 else 0
  {
    InterpretMessage(frame, n, body);
    if Interpret(frame).Send? {
      ChannelsDiffer(Interpret(frame).to, n);
      var message := PrivateMessage(user, Interpret(frame).body);
      var broadcasts := Broadcasts(connections, reachable, Interpret(frame).to, message);
      assert multiset(traffic.published + broadcasts) == multiset(traffic.published) + multiset(broadcasts);
    }
  }

  /**
   * If user `n` has no socket on this worker and Redis answers, exactly one publication goes out on "ws:user:" with
   * the decimal text of `n` for each frame that sends this body to the number `n`; otherwise none does.
   */
  lemma {:induction false} MessagesPublished(connections: Connections, reachable: bool, user: int, socket: Socket,
                                             traffic: Traffic, frames: seq<Json>, n: int, body: string)
    ensures
      var after := AfterFrames(connections, reachable, user, socket, traffic, frames);
      var publication := (UserChannel(n), PrivateMessage(user, body));
      multiset(after.published)[publication] == multiset(traffic.published)[publication]
        + if SocketsOf(connections, n) == {} && reachable then MessagesTo(frames, JInt(n), body) else 0
  {
    if frames != [] {
      var k := |frames| - 1;
      MessagesPublished(connections, reachable, user, socket, traffic, frames[..k], n, body);
      var before := AfterFrames(connections, reachable, user, socket, traffic, frames[..k]);
      OneFramePublished(connections, reachable, user, socket, before, frames[k], n, body);
      CountOneMore(frames, frame => IsMessage(frame, JInt(n), body));
    }
  }

  /** What is published keeps the order of the frames: earlier publications are never moved or removed. */
  lemma {:induction false} PublishedInOrder(connections: Connections, reachable: bool, user: int, socket: Socket,
                                            traffic: Traffic, frames: seq<Json>, k: nat)
    requires k <= |frames|
    ensures AfterFrames(connections, reachable, user, socket, traffic, frames[..k]).published
      <= AfterFrames(connections, reachable, user, socket, traffic, frames).published
  {
    if k < |frames| {
      var n := |frames| - 1;
      PublishedInOrder(connections, reachable, user, socket, traffic, frames[..n], k);
      assert frames[..n][..k] == frames[..k];
    } else {
      assert frames[..k] == frames;
    }
  }

  // ---------- the listener ----------

  /** The item carries this message on a channel of user `n`. */
  predicate CarriesFor(item: Item, n: int, message: Message) {
    item.PatternMessage? && ChannelUser(item.channel) == Some(n) && item.data == Some(message)
  }

  function CarriedFor(items: seq<Item>, n: int, message: Message): nat {
    if items == [] then
      0
    else
      var k := |items| - 1;
      CarriedFor(items[..k], n, message) + if CarriesFor(items[k], n, message) then 1 else 0
  }

  /** Each socket that user `n` has on the listener's worker gets one copy per item that carries a message for `n`. */
  lemma {:induction false} ListenerDelivers(connections: Connections, items: seq<Item>, n: int, message: Message,
                                            other: Socket)
    requires OneUserEach(connections) && other in SocketsOf(connections, n)
    ensures ForwardedAll(connections, items)[(other, message)] == CarriedFor(items, n, message)
  {
    if items != [] {
      var k := |items| - 1;
      ListenerDelivers(connections, items[..k], n, message, other);
      var item := items[k];
      if item.PatternMessage? && ChannelUser(item.channel).Some? && item.data.Some? {
        CopiesCount(SocketsOf(connections, ChannelUser(item.channel).value), item.data.value, other, message);
      }
    }
  }
}
