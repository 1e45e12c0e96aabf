// One worker's live sockets and what it sends (app/services/connection_manager.py,
// app/services/ws_pubsub.py, app/api/websocket.py).
module WebSockets {
  import opened Wrappers
  import Decimal

  datatype Socket = Socket(id: nat)

  datatype Message = PrivateMessage(from: int, body: string) | Notification(body: string) | Error(detail: ErrorDetail)

  datatype ErrorDetail = UnsupportedMessageType | MalformedFields

  type Connections = map<int, set<Socket>>

  /** A user's sockets on this worker. */
  function SocketsOf(connections: Connections, user: int): set<Socket> {
    if user in connections then connections[user] else {}
  }

  function Connected(connections: Connections, user: int, socket: Socket): Connections {
    connections[user := SocketsOf(connections, user) + {socket}]
  }

  /** The socket is dropped, and with its last socket the user's entry. */
  function Disconnected(connections: Connections, user: int, socket: Socket): Connections {
    var left := SocketsOf(connections, user) - {socket};
    if left == {} then connections - {user} else connections[user := left]
  }

  /** No user is listed without a socket. */
  ghost predicate NoEmptyEntries(connections: Connections) {
    forall user :: user in connections ==> connections[user] != {}
  }

  function Copies(sockets: set<Socket>, message: Message): multiset<(Socket, Message)> {
    multiset(set socket | socket in sockets :: (socket, message))
  }

  class ConnectionManager {
    var connections: Connections
    /** Everything written to sockets so far. */
    var sent: multiset<(Socket, Message)>

    constructor ()
      ensures connections == map[] && sent == multiset{}
      ensures NoEmptyEntries(connections)
    {
      connections := map[];
      sent := multiset{};
    }

    method Connect(user: int, socket: Socket)
      requires NoEmptyEntries(connections)
      modifies this`connections
      ensures connections == Connected(old(connections), user, socket)
      ensures NoEmptyEntries(connections)
    {
      if user !in connections {
        connections := connections[user := {}];
      }
      connections := connections[user := connections[user] + {socket}];
    }

    method Disconnect(user: int, socket: Socket)
      requires NoEmptyEntries(connections)
      modifies this`connections
      ensures connections == Disconnected(old(connections), user, socket)
      ensures NoEmptyEntries(connections)
    {
      if user !in connections {
        assert connections - {user} == connections;
        return;
      }
      connections := connections[user := connections[user] - {socket}];
      if connections[user] == {} {
        connections := connections - {user};
      }
    }

    /** Every socket the user has here gets the message once; the result says whether there was one. */
    method SendLocal(user: int, message: Message) returns (delivered: bool)
      requires NoEmptyEntries(connections)
      modifies this`sent
      ensures delivered <==> SocketsOf(connections, user) != {}
      ensures sent == old(sent) + Copies(SocketsOf(connections, user), message)
    {
      if user !in connections {
        assert Copies({}, message) == multiset{};
        return false;
      }
      var left := connections[user];
      ghost var done: set<Socket> := {};
      assert Copies(done, message) == multiset{};
      while left != {}
        invariant done !! left && done + left == connections[user]
        invariant sent == old(sent) + Copies(done, message)
        decreases left
      {
        var socket :| socket in left;
        sent := sent + multiset{(socket, message)};
        CopiesAdd(done, socket, message);
        left, done := left - {socket}, done + {socket};
      }
      assert done == connections[user];
      return true;
    }

    method IsConnectedLocally(user: int) returns (connected: bool)
      ensures connected <==> SocketsOf(connections, user) != {}
    {
      connected := user in connections && connections[user] != {};
    }
  }

  lemma CopiesAdd(sockets: set<Socket>, socket: Socket, message: Message)
    requires socket !in sockets
    ensures Copies(sockets + {socket}, message) == Copies(sockets, message) + multiset{(socket, message)}
  {
    var before := set s | s in sockets :: (s, message);
    var after := set s | s in sockets + {socket} :: (s, message);
    assert after == before + {(socket, message)};
    assert (socket, message) !in before;
  }

  /** Connecting a new socket and disconnecting it leaves the table as it was. */
  lemma BracketLeavesNoTrace(connections: Connections, user: int, socket: Socket)
    requires NoEmptyEntries(connections) && socket !in SocketsOf(connections, user)
    ensures Disconnected(Connected(connections, user, socket), user, socket) == connections
  {
    var sockets := SocketsOf(connections, user);
    assert sockets + {socket} - {socket} == sockets;
  }

  // ---------- channels ----------

  const USER_CHANNEL_PREFIX := "ws:user:"

  /** Whom a message is for: a number, or a boolean taken for one. */
  datatype Recipient = Number(n: int) | Truth(b: bool)

  /** A boolean finds the table entry of 0 or 1. */
  function UserOf(recipient: Recipient): int {
    match recipient
    case Number(n) => n
    case Truth(b) => if b then 1 else 0
  }

  /** In a channel name a boolean keeps its own text. */
  function RecipientText(recipient: Recipient): string {
    match recipient
    case Number(n) => Decimal.IntText(n)
    case Truth(b) => if b then "True" else "False"
  }

  function Channel(recipient: Recipient): string {
    USER_CHANNEL_PREFIX + RecipientText(recipient)
  }

  /** `int(channel.removeprefix(...))`; a channel that is no user's gives `None`. */
  function ChannelUser(channel: string): Option<int> {
    Decimal.ParseInt(if USER_CHANNEL_PREFIX <= channel then channel[|USER_CHANNEL_PREFIX|..] else channel)
  }

  /** The listener reads back the user a channel was made for if the recipient is a number, and nobody if not. */
  lemma ChannelRoundTrip(recipient: Recipient)
    ensures ChannelUser(Channel(recipient)) == if recipient.Number? then Some(UserOf(recipient)) else None
  {
    var text := RecipientText(recipient);
    assert Channel(recipient)[|USER_CHANNEL_PREFIX|..] == text;
    match recipient
    case Number(n) => Decimal.ParseIntText(n);
    case Truth(_) => assert text[0] != '-' && text[|text| - 1] == 'e' && !Decimal.IsDigit('e');
  }

  // ---------- publishing ----------

  /** The Redis side of publishing: reachable or not, and what has been published. */
  class Bus {
    var reachable: bool
    var published: seq<(string, Message)>

    constructor (reachable: bool)
      ensures this.reachable == reachable && published == []
    {
      this.reachable := reachable;
      this.published := [];
    }
  }

  /**
   * Local sockets first; only without one is the message broadcast. A failing broadcast is dropped without
   * an error.
   */
  method PublishToUser(manager: ConnectionManager, bus: Bus, recipient: Recipient, message: Message)
    requires NoEmptyEntries(manager.connections)
    modifies manager`sent, bus`published
    ensures manager.sent == old(manager.sent) + Copies(SocketsOf(manager.connections, UserOf(recipient)), message)
    ensures bus.published == old(bus.published) + Broadcasts(manager.connections, bus.reachable, recipient, message)
  {
    var deliveredLocally := manager.SendLocal(UserOf(recipient), message);
    if deliveredLocally {
      return;
    }
    if bus.reachable {
      bus.published := bus.published + [(USER_CHANNEL_PREFIX + RecipientText(recipient), message)];
    }
  }

  function Broadcasts(connections: Connections, reachable: bool, recipient: Recipient, message: Message)
    : seq<(string, Message)>
  {
    if SocketsOf(connections, UserOf(recipient)) == {} && reachable then [(Channel(recipient), message)] else []
  }

  // ---------- the listener ----------

  /** What the subscription yields: other events, and messages whose data may be no valid JSON. */
  datatype Item = OtherEvent | PatternMessage(channel: string, data: Option<Message>)

  /** The copies the listener writes for one item. */
  function Forwarded(connections: Connections, item: Item): multiset<(Socket, Message)> {
    if item.PatternMessage? && ChannelUser(item.channel).Some? && item.data.Some? then
      Copies(SocketsOf(connections, ChannelUser(item.channel).value), item.data.value)
    else
      multiset{}
  }

  /** A broadcast reaches a worker's sockets of the recipient if that is a number; for a boolean it is dropped. */
  lemma BroadcastForwarded(connections: Connections, recipient: Recipient, message: Message)
    ensures Forwarded(connections, PatternMessage(Channel(recipient), Some(message)))
      == if recipient.Number? then Copies(SocketsOf(connections, UserOf(recipient)), message) else multiset{}
  {
    ChannelRoundTrip(recipient);
  }

  function ForwardedAll(connections: Connections, items: seq<Item>): multiset<(Socket, Message)> {
    if items == [] then
      multiset{}
    else
      ForwardedAll(connections, items[..|items| - 1]) + Forwarded(connections, items[|items| - 1])
  }

  lemma ForwardedOneMore(connections: Connections, items: seq<Item>, i: nat)
    requires i < |items|
    ensures ForwardedAll(connections, items[..i + 1])
      == ForwardedAll(connections, items[..i]) + Forwarded(connections, items[i])
  {
    assert items[..i + 1][..i] == items[..i];
  }

  /** The listen loop over one run of items: malformed ones are skipped, the others forwarded to local sockets. */
  method ListenTo(manager: ConnectionManager, items: seq<Item>)
    requires NoEmptyEntries(manager.connections)
    modifies manager`sent
    ensures manager.sent == old(manager.sent) + ForwardedAll(manager.connections, items)
  {
    for i := 0 to |items|
      invariant manager.sent == old(manager.sent) + ForwardedAll(manager.connections, items[..i])
    {
      ForwardedOneMore(manager.connections, items, i);
      var item := items[i];
      if item.PatternMessage? {
        var user := ChannelUser(item.channel);
        if user.Some? && item.data.Some? {
          var _ := manager.SendLocal(user.value, item.data.value);
        }
      }
    }
    assert items[..|items|] == items;
  }

  // ---------- the endpoint ----------

  datatype Json = JNull | JBool(b: bool) | JInt(n: int) | JFloat | JString(s: string) | JArray
    | JObject(fields: map<string, Json>)

  function Field(json: Json, name: string): Json {
    if json.JObject? && name in json.fields then json.fields[name] else JNull
  }

  /** `isinstance(value, int)` holds of booleans too. */
  function AsRecipient(json: Json): Option<Recipient> {
    match json
    case JInt(n) => Some(Number(n))
    case JBool(b) => Some(Truth(b))
    case _ => None
  }

  datatype Action = Reply(detail: ErrorDetail) | Send(to: Recipient, body: string)

  /** What one received frame asks for. */
  function Interpret(frame: Json): Action {
    if !frame.JObject? || Field(frame, "type") != JString("message") then
      Reply(UnsupportedMessageType)
    else
      var to, body := AsRecipient(Field(frame, "to")), Field(frame, "body");
      if to.None? || !body.JString? then Reply(MalformedFields) else Send(to.value, body.s)
  }

  /** What has been sent and published after a number of frames from `user` on `socket`. */
  datatype Traffic = Traffic(sent: multiset<(Socket, Message)>, published: seq<(string, Message)>)

  function AfterFrame(connections: Connections, reachable: bool, user: int, socket: Socket, traffic: Traffic,
                      frame: Json)
    : Traffic
  {
    match Interpret(frame)
    case Reply(detail) => traffic.(sent := traffic.sent + multiset{(socket, Error(detail))})
    case Send(to, body) =>
      var message := PrivateMessage(user, body);
      Traffic(traffic.sent + Copies(SocketsOf(connections, UserOf(to)), message),
              traffic.published + Broadcasts(connections, reachable, to, message))
  }

  function AfterFrames(connections: Connections, reachable: bool, user: int, socket: Socket, traffic: Traffic,
                       frames: seq<Json>)
    : Traffic
  {
    if frames == [] then
      traffic
    else
      var n := |frames| - 1;
      AfterFrame(connections, reachable, user, socket,
                 AfterFrames(connections, reachable, user, socket, traffic, frames[..n]), frames[n])
  }

  /** Connect, serve the frames received until the client disconnects, and disconnect whatever happened. */
  method WebsocketEndpoint(manager: ConnectionManager, bus: Bus, user: int, socket: Socket, frames: seq<Json>)
    requires NoEmptyEntries(manager.connections) && socket !in SocketsOf(manager.connections, user)
    modifies manager, bus`published
    ensures manager.connections == old(manager.connections)
    ensures
      var before := Traffic(old(manager.sent), old(bus.published));
      var connections := Connected(old(manager.connections), user, socket);
      Traffic(manager.sent, bus.published) == AfterFrames(connections, bus.reachable, user, socket, before, frames)
  {
    ghost var before := Traffic(manager.sent, bus.published);
    ghost var outside := manager.connections;
    manager.Connect(user, socket);
    ghost var inside := manager.connections;
    for i := 0 to |frames|
      invariant manager.connections == inside
      invariant Traffic(manager.sent, bus.published)
                == AfterFrames(inside, bus.reachable, user, socket, before, frames[..i])
    {
      assert frames[..i + 1][..i] == frames[..i];
      var data := frames[i];
      if !data.JObject? || Field(data, "type") != JString("message") {
        manager.sent := manager.sent + multiset{(socket, Error(UnsupportedMessageType))};
        continue;
      }
      var recipient := AsRecipient(Field(data, "to"));
      var body := Field(data, "body");
      if recipient.None? || !body.JString? {
        manager.sent := manager.sent + multiset{(socket, Error(MalformedFields))};
        continue;
      }
      PublishToUser(manager, bus, recipient.value, PrivateMessage(user, body.s));
    }
    assert frames[..|frames|] == frames;
    BracketLeavesNoTrace(outside, user, socket);
    manager.Disconnect(user, socket);
  }

  /** The endpoint answers every faulty frame on its own socket, and only those. */
  lemma {:induction false} ErrorsAreAnswered(connections: Connections, reachable: bool, user: int, socket: Socket,
                                             traffic: Traffic, frames: seq<Json>, detail: ErrorDetail, other: Socket)
    ensures
      var after := AfterFrames(connections, reachable, user, socket, traffic, frames);
      after.sent[(other, Error(detail))]
        == traffic.sent[(other, Error(detail))] + if other == socket then Faults(frames, detail) else 0
  {
    if frames != [] {
      var n := |frames| - 1;
      ErrorsAreAnswered(connections, reachable, user, socket, traffic, frames[..n], detail, other);
      match Interpret(frames[n])
      case Reply(_) =>
      case Send(to, body) =>
        assert (other, Error(detail)) !in Copies(SocketsOf(connections, UserOf(to)), PrivateMessage(user, body));
    }
  }

  function Faults(frames: seq<Json>, detail: ErrorDetail): nat {
    if frames == [] then
      0
    else
      Faults(frames[..|frames| - 1], detail) + if Interpret(frames[|frames| - 1]) == Reply(detail) then 1 else 0
  }
}
