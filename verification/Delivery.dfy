// Message delivery across many workers: local first, Redis broadcast otherwise
// (app/services/ws_pubsub.py, app/services/connection_manager.py).
//
// Each worker holds its own connection table and the queue of broadcasts its listener has yet to take.
// Publishing and taking one broadcast are atomic steps.
module Delivery {
  import opened Wrappers
  import opened WebSockets

  /** A broadcast message; its number identifies it. */
  datatype Envelope = Envelope(id: nat, user: int)

  datatype Worker = Worker(connections: Connections, subscribed: bool, inbox: seq<Envelope>)

  /** Where a socket lives: a socket belongs to one worker and one user all its life. */
  datatype Home = Home(worker: nat, user: int)

  /**
   * `addressees[id]` is the user message `id` was published for, and `delivered` counts the copies of each
   * message written to each socket.
   */
  datatype System = System(
    workers: seq<Worker>, homes: map<Socket, Home>, addressees: seq<int>, delivered: multiset<(nat, Socket)>)

  datatype Step =
    | Connect(worker: nat, user: int, socket: Socket)
    | Disconnect(worker: nat, user: int, socket: Socket)
    | Publish(worker: nat, user: int, redisReachable: bool)
    | Consume(worker: nat)
    | ListenerDown(worker: nat)
    | ListenerUp(worker: nat)

  predicate Initial(s: System) {
    && s.homes == map[] && s.addressees == [] && s.delivered == multiset{}
    && forall w :: 0 <= w < |s.workers| ==> s.workers[w] == Worker(map[], true, [])
  }

  predicate Enabled(s: System, step: Step) {
    && step.worker < |s.workers|
    && (step.Connect? ==> step.socket !in s.homes)
    && (step.Consume? ==> s.workers[step.worker].subscribed && s.workers[step.worker].inbox != [])
  }

  function CopiesOf(id: nat, sockets: set<Socket>): multiset<(nat, Socket)> {
    multiset(set socket | socket in sockets :: (id, socket))
  }

  /** PUBLISH: every subscribed listener gets the envelope, the publisher's own included. */
  function Broadcast(workers: seq<Worker>, envelope: Envelope): seq<Worker> {
    seq(|workers|, w requires 0 <= w < |workers| =>
      if workers[w].subscribed then workers[w].(inbox := workers[w].inbox + [envelope]) else workers[w])
  }

  function Next(s: System, step: Step): System
    requires Enabled(s, step)
  {
    var w := step.worker;
    var worker := s.workers[w];
    match step
    case Connect(_, user, socket) =>
      s.(workers := s.workers[w := worker.(connections := Connected(worker.connections, user, socket))],
         homes := s.homes[socket := Home(w, user)])
    case Disconnect(_, user, socket) =>
      s.(workers := s.workers[w := worker.(connections := Disconnected(worker.connections, user, socket))])
    case Publish(_, user, redisReachable) =>
      var id := |s.addressees|;
      var sockets := SocketsOf(worker.connections, user);
      s.(addressees := s.addressees + [user],
         delivered := s.delivered + CopiesOf(id, sockets),
         workers := if sockets == {} && redisReachable then Broadcast(s.workers, Envelope(id, user)) else s.workers)
    case Consume(_) =>
      var envelope := worker.inbox[0];
      s.(delivered := s.delivered + CopiesOf(envelope.id, SocketsOf(worker.connections, envelope.user)),
         workers := s.workers[w := worker.(inbox := worker.inbox[1..])])
    case ListenerDown(_) =>
      s.(workers := s.workers[w := worker.(subscribed := false, inbox := [])])
    case ListenerUp(_) =>
      s.(workers := s.workers[w := worker.(subscribed := true)])
  }

  ghost predicate IsRun(states: seq<System>, steps: seq<Step>) {
    && |states| == |steps| + 1 && Initial(states[0])
    && forall i {:trigger steps[i]} :: 0 <= i < |steps| ==>
         Enabled(states[i], steps[i]) && states[i + 1] == Next(states[i], steps[i])
  }

  // ---------- the invariant ----------

  /** Sockets are listed at their home only. */
  ghost predicate HomesInv(s: System) {
    && (forall w :: 0 <= w < |s.workers| ==> AtHome(s.workers[w].connections, w, s.homes))
    && (forall socket :: socket in s.homes ==> s.homes[socket].worker < |s.workers|)
  }

  ghost predicate AtHome(connections: Connections, w: nat, homes: map<Socket, Home>) {
    forall user, socket :: socket in SocketsOf(connections, user) ==> socket in homes && homes[socket] == Home(w, user)
  }

  /** Queued broadcasts are published messages for their addressee, each at most once, in publishing order. */
  ghost predicate InboxInv(s: System) {
    forall w :: 0 <= w < |s.workers| ==> InboxOk(s.workers[w].inbox, s.addressees)
  }

  ghost predicate InboxOk(inbox: seq<Envelope>, addressees: seq<int>) {
    && (forall i :: 0 <= i < |inbox| ==> inbox[i].id < |addressees| && inbox[i].user == addressees[inbox[i].id])
    && (forall i, j :: 0 <= i < j < |inbox| ==> inbox[i].id < inbox[j].id)
  }

  ghost predicate Queued(s: System, w: nat, id: nat)
    requires w < |s.workers|
  {
    exists i :: 0 <= i < |s.workers[w].inbox| && s.workers[w].inbox[i].id == id
  }

  /** One pair: at most one copy, to a socket of the addressee, and none while the home's queue still holds it. */
  ghost predicate PairOk(s: System, id: nat, socket: Socket) {
    && s.delivered[(id, socket)] <= 1
    && (s.delivered[(id, socket)] > 0 ==>
          && id < |s.addressees| && socket in s.homes && s.homes[socket].user == s.addressees[id]
          && s.homes[socket].worker < |s.workers| && !Queued(s, s.homes[socket].worker, id))
  }

  ghost predicate DeliveredInv(s: System) {
    forall id: nat, socket: Socket :: PairOk(s, id, socket)
  }

  ghost predicate Inv(s: System) {
    HomesInv(s) && InboxInv(s) && DeliveredInv(s)
  }

  lemma HomesStep(s: System, step: Step)
    requires HomesInv(s) && Enabled(s, step)
    ensures HomesInv(Next(s, step))
  {
    var s' := Next(s, step);
    forall w | 0 <= w < |s'.workers| ensures AtHome(s'.workers[w].connections, w, s'.homes) {
      assert AtHome(s.workers[w].connections, w, s.homes);
      forall user, socket | socket in SocketsOf(s'.workers[w].connections, user)
        ensures socket in s'.homes && s'.homes[socket] == Home(w, user)
      {
        assert socket in SocketsOf(s.workers[w].connections, user) || step == Connect(w, user, socket);
      }
    }
  }

  /** A message published next fits behind everything queued. */
  lemma QueuedLast(inbox: seq<Envelope>, addressees: seq<int>, user: int)
    requires InboxOk(inbox, addressees)
    ensures InboxOk(inbox, addressees + [user])
    ensures InboxOk(inbox + [Envelope(|addressees|, user)], addressees + [user])
  {
  }

  lemma InboxStep(s: System, step: Step)
    requires InboxInv(s) && Enabled(s, step)
    ensures InboxInv(Next(s, step))
  {
    var s' := Next(s, step);
    forall w | 0 <= w < |s'.workers| ensures InboxOk(s'.workers[w].inbox, s'.addressees) {
      assert InboxOk(s.workers[w].inbox, s.addressees);
      if step.Publish? {
        QueuedLast(s.workers[w].inbox, s.addressees, step.user);
      }
    }
  }

  lemma CopiesCount(id: nat, sockets: set<Socket>, id': nat, socket: Socket)
    ensures CopiesOf(id, sockets)[(id', socket)] == if id == id' && socket in sockets then 1 else 0
  {
  }

  lemma PairStep(s: System, step: Step, id: nat, socket: Socket)
    requires Inv(s) && Enabled(s, step)
    ensures PairOk(Next(s, step), id, socket)
  {
    var s' := Next(s, step);
    assert PairOk(s, id, socket);
    match step
    case Publish(w, user, redisReachable) =>
      var sockets := SocketsOf(s.workers[w].connections, user);
      CopiesCount(|s.addressees|, sockets, id, socket);
      if id == |s.addressees| && s'.delivered[(id, socket)] > 0 {
        assert socket in sockets;
        var home := s.homes[socket];
        forall i | 0 <= i < |s.workers[home.worker].inbox| ensures s.workers[home.worker].inbox[i].id != id {
          assert InboxOk(s.workers[home.worker].inbox, s.addressees);
        }
      }
    case Consume(w) =>
      var inbox := s.workers[w].inbox;
      var envelope := inbox[0];
      assert InboxOk(inbox, s.addressees);
      var sockets := SocketsOf(s.workers[w].connections, envelope.user);
      CopiesCount(envelope.id, sockets, id, socket);
      if id == envelope.id && socket in sockets {
        assert s.homes[socket] == Home(w, envelope.user);
        assert inbox[0].id == id && Queued(s, w, id);
        assert forall i :: 1 <= i < |inbox| ==> inbox[0].id < inbox[i].id;
      }
    case _ =>
  }

  lemma {:induction false} RunInvariant(states: seq<System>, steps: seq<Step>, i: nat)
    requires IsRun(states, steps) && i < |states|
    ensures Inv(states[i])
  {
    if i > 0 {
      RunInvariant(states, steps, i - 1);
      var s, step := states[i - 1], steps[i - 1];
      assert states[i - 1 + 1] == Next(s, step);
      HomesStep(s, step);
      InboxStep(s, step);
      forall id: nat, socket: Socket ensures PairOk(states[i], id, socket) {
        PairStep(s, step, id, socket);
      }
    }
  }

  // ---------- the promises ----------

  /** In every run, listeners going down and lost publications included, no socket gets a message twice. */
  lemma AtMostOnce(states: seq<System>, steps: seq<Step>, i: nat, id: nat, socket: Socket)
    requires IsRun(states, steps) && i < |states|
    ensures states[i].delivered[(id, socket)] <= 1
  {
    RunInvariant(states, steps, i);
    assert PairOk(states[i], id, socket);
  }

  /** A message only ever reaches sockets of the user it was published for. */
  lemma OnlyTheAddressee(states: seq<System>, steps: seq<Step>, i: nat, id: nat, socket: Socket)
    requires IsRun(states, steps) && i < |states|
    requires (id, socket) in states[i].delivered
    ensures id < |states[i].addressees| && socket in states[i].homes
    ensures states[i].homes[socket].user == states[i].addressees[id]
  {
    RunInvariant(states, steps, i);
    assert PairOk(states[i], id, socket);
  }

  /** With a local socket, publishing reaches all of the user's local sockets, once each, and broadcasts nothing. */
  lemma LocalDelivery(states: seq<System>, steps: seq<Step>, i: nat, socket: Socket)
    requires IsRun(states, steps) && i < |steps| && steps[i].Publish?
    requires socket in SocketsOf(states[i].workers[steps[i].worker].connections, steps[i].user)
    ensures states[i + 1].delivered[(|states[i].addressees|, socket)] == 1
    ensures states[i + 1].workers == states[i].workers
  {
    RunInvariant(states, steps, i + 1);
    assert states[i + 1] == Next(states[i], steps[i]);
    var sockets := SocketsOf(states[i].workers[steps[i].worker].connections, steps[i].user);
    CopiesCount(|states[i].addressees|, sockets, |states[i].addressees|, socket);
    assert PairOk(states[i + 1], |states[i].addressees|, socket);
  }

  ghost predicate ListenerStaysUp(steps: seq<Step>, v: nat, first: nat, last: nat)
    requires last <= |steps|
  {
    forall j :: first <= j < last ==> steps[j] != ListenerDown(v)
  }

  /** Step `j` is worker `v` taking message `id` from its queue. */
  ghost predicate Consumes(states: seq<System>, steps: seq<Step>, v: nat, id: nat, j: nat)
    requires |states| == |steps| + 1
  {
    j < |steps| && steps[j] == Consume(v) && v < |states[j].workers|
    && states[j].workers[v].inbox != [] && states[j].workers[v].inbox[0].id == id
  }

  ghost predicate ConsumedWithin(states: seq<System>, steps: seq<Step>, v: nat, id: nat, first: nat, last: nat)
    requires |states| == |steps| + 1
  {
    exists j: nat :: first <= j < last && Consumes(states, steps, v, id, j)
  }

  lemma QueuedStep(s: System, step: Step, v: nat, id: nat)
    requires Enabled(s, step) && v < |s.workers| && Queued(s, v, id) && step != ListenerDown(v)
    ensures Queued(Next(s, step), v, id) || (step == Consume(v) && s.workers[v].inbox[0].id == id)
  {
    var i :| 0 <= i < |s.workers[v].inbox| && s.workers[v].inbox[i].id == id;
    var inbox' := Next(s, step).workers[v].inbox;
    if step == Consume(v) {
      if i > 0 {
        assert inbox'[i - 1].id == id;
      }
    } else {
      assert inbox'[i].id == id;
    }
  }

  lemma WorkersStay(s: System, step: Step)
    requires Enabled(s, step)
    ensures |Next(s, step).workers| == |s.workers|
  {
  }

  /** A broadcast stays in a live listener's queue until that worker takes it. */
  lemma {:induction false} QueuedUntilConsumed(states: seq<System>, steps: seq<Step>, v: nat, id: nat, first: nat,
                                               last: nat)
    requires IsRun(states, steps) && first <= last < |states|
    requires v < |states[first].workers| && Queued(states[first], v, id)
    requires ListenerStaysUp(steps, v, first, last)
    ensures v < |states[last].workers|
    ensures Queued(states[last], v, id) || ConsumedWithin(states, steps, v, id, first, last)
    decreases last
  {
    if first < last {
      QueuedUntilConsumed(states, steps, v, id, first, last - 1);
      WorkersStay(states[last - 1], steps[last - 1]);
      assert states[last - 1 + 1] == Next(states[last - 1], steps[last - 1]);
      if Queued(states[last - 1], v, id) {
        QueuedStep(states[last - 1], steps[last - 1], v, id);
        if !Queued(states[last], v, id) {
          assert Consumes(states, steps, v, id, last - 1);
        }
      }
    }
  }

  lemma {:induction false} DeliveredStays(states: seq<System>, steps: seq<Step>, id: nat, socket: Socket, first: nat,
                                          last: nat)
    requires IsRun(states, steps) && first <= last < |states|
    ensures states[first].delivered[(id, socket)] <= states[last].delivered[(id, socket)]
    decreases last
  {
    if first < last {
      DeliveredStays(states, steps, id, socket, first, last - 1);
      assert states[last - 1 + 1] == Next(states[last - 1], steps[last - 1]);
    }
  }

  /**
   * Nobody is missed: a message published without a local socket while Redis answers is, at every later moment,
   * either still queued at a worker whose listener was subscribed and stays up, or has reached exactly once each
   * of the user's sockets that stayed connected there.
   */
  lemma BroadcastDelivery(states: seq<System>, steps: seq<Step>, i: nat, v: nat, socket: Socket, k: nat)
    requires IsRun(states, steps) && i < |steps| && i < k < |states|
    requires steps[i].Publish? && steps[i].redisReachable
    requires SocketsOf(states[i].workers[steps[i].worker].connections, steps[i].user) == {}
    requires v < |states[i].workers| && states[i].workers[v].subscribed
    requires ListenerStaysUp(steps, v, i + 1, k)
    requires StaysConnected(states, v, steps[i].user, socket, i, k)
    ensures v < |states[k].workers|
    ensures Queued(states[k], v, |states[i].addressees|)
            || states[k].delivered[(|states[i].addressees|, socket)] == 1
  {
    var id, user := |states[i].addressees|, steps[i].user;
    assert states[i + 1] == Next(states[i], steps[i]);
    var inbox := states[i].workers[v].inbox;
    assert states[i + 1].workers[v].inbox[|inbox|] == Envelope(id, user);
    QueuedUntilConsumed(states, steps, v, id, i + 1, k);
    if !Queued(states[k], v, id) {
      var j: nat :| i + 1 <= j < k && Consumes(states, steps, v, id, j);
      ConsumedIsDelivered(states, steps, i, v, socket, j);
      DeliveredStays(states, steps, id, socket, j + 1, k);
      AtMostOnce(states, steps, k, id, socket);
    }
  }

  lemma ConsumedIsDelivered(states: seq<System>, steps: seq<Step>, i: nat, v: nat, socket: Socket, j: nat)
    requires IsRun(states, steps) && i < j < |steps| && steps[i].Publish?
    requires Consumes(states, steps, v, |states[i].addressees|, j)
    requires socket in SocketsOf(states[j].workers[v].connections, steps[i].user)
    ensures states[j + 1].delivered[(|states[i].addressees|, socket)] >= 1
  {
    var id := |states[i].addressees|;
    RunInvariant(states, steps, j);
    assert states[i + 1] == Next(states[i], steps[i]);
    AddresseesStay(states, steps, i + 1, j);
    assert states[j].addressees[id] == steps[i].user;
    assert InboxOk(states[j].workers[v].inbox, states[j].addressees);
    assert states[j + 1] == Next(states[j], steps[j]);
    CopiesCount(id, SocketsOf(states[j].workers[v].connections, steps[i].user), id, socket);
  }

  lemma {:induction false} AddresseesStay(states: seq<System>, steps: seq<Step>, first: nat, last: nat)
    requires IsRun(states, steps) && first <= last < |states|
    ensures states[first].addressees <= states[last].addressees
    decreases last
  {
    if first < last {
      AddresseesStay(states, steps, first, last - 1);
      assert states[last - 1 + 1] == Next(states[last - 1], steps[last - 1]);
    }
  }

  // ---------- who misses a message ----------

  /** Message `id` is not in worker `v`'s queue, and no socket that lives there has it. */
  ghost predicate Passed(s: System, v: nat, id: nat)
    requires v < |s.workers|
  {
    && id < |s.addressees| && !Queued(s, v, id)
    && forall socket :: socket in s.homes && s.homes[socket].worker == v ==> s.delivered[(id, socket)] == 0
  }

  lemma PassedStep(s: System, step: Step, v: nat, id: nat)
    requires Inv(s) && Enabled(s, step) && v < |s.workers| && Passed(s, v, id)
    ensures v < |Next(s, step).workers| && Passed(Next(s, step), v, id)
  {
    var s' := Next(s, step);
    forall i | 0 <= i < |s'.workers[v].inbox| ensures s'.workers[v].inbox[i].id != id {
      if step == Consume(v) {
        assert s'.workers[v].inbox[i] == s.workers[v].inbox[i + 1];
      }
    }
    forall socket | socket in s'.homes && s'.homes[socket].worker == v ensures s'.delivered[(id, socket)] == 0 {
      assert PairOk(s, id, socket);
      match step
      case Publish(w, user, _) => CopiesCount(|s.addressees|, SocketsOf(s.workers[w].connections, user), id, socket);
      case Consume(w) => PassedConsume(s, w, v, id, socket);
      case _ =>
    }
  }

  /** A worker writes to its own sockets only, and only what its queue holds. */
  lemma PassedConsume(s: System, w: nat, v: nat, id: nat, socket: Socket)
    requires HomesInv(s) && Enabled(s, Consume(w)) && v < |s.workers| && Passed(s, v, id)
    requires socket in s.homes && s.homes[socket].worker == v
    ensures Next(s, Consume(w)).delivered[(id, socket)] == 0
  {
    var envelope := s.workers[w].inbox[0];
    CopiesCount(envelope.id, SocketsOf(s.workers[w].connections, envelope.user), id, socket);
    assert AtHome(s.workers[w].connections, w, s.homes);
    assert w == v ==> envelope.id != id;
  }

  lemma PassedAt(states: seq<System>, steps: seq<Step>, v: nat, id: nat, k: nat)
    requires IsRun(states, steps) && k < |steps| && Inv(states[k])
    requires v < |states[k].workers| && Passed(states[k], v, id)
    ensures v < |states[k + 1].workers| && Passed(states[k + 1], v, id)
  {
    PassedStep(states[k], steps[k], v, id);
  }

  lemma {:induction false} PassedStays(states: seq<System>, steps: seq<Step>, v: nat, id: nat, first: nat, last: nat)
    requires IsRun(states, steps) && first <= last < |states|
    requires v < |states[first].workers| && Passed(states[first], v, id)
    ensures v < |states[last].workers| && Passed(states[last], v, id)
    decreases last
  {
    if first < last {
      PassedStays(states, steps, v, id, first, last - 1);
      RunInvariant(states, steps, last - 1);
      PassedAt(states, steps, v, id, last - 1);
    }
  }

  /** The publisher itself writes to worker `v`'s sockets, or puts the message into its queue. */
  ghost predicate Reaches(s: System, step: Step, v: nat)
    requires step.Publish? && step.worker < |s.workers| && v < |s.workers|
  {
    var isLocal := SocketsOf(s.workers[step.worker].connections, step.user) != {};
    if isLocal then v == step.worker else step.redisReachable && s.workers[v].subscribed
  }

  /** A worker the publication does not reach is passed over at once. */
  lemma UnreachedIsPassed(s: System, step: Step, v: nat)
    requires Inv(s) && Enabled(s, step) && step.Publish? && v < |s.workers| && !Reaches(s, step, v)
    ensures v < |Next(s, step).workers| && Passed(Next(s, step), v, |s.addressees|)
  {
    var id, s' := |s.addressees|, Next(s, step);
    var sockets := SocketsOf(s.workers[step.worker].connections, step.user);
    assert s'.workers[v] == s.workers[v] && InboxOk(s.workers[v].inbox, s.addressees);
    forall socket | socket in s'.homes && s'.homes[socket].worker == v ensures s'.delivered[(id, socket)] == 0 {
      assert PairOk(s, id, socket);
      assert AtHome(s.workers[step.worker].connections, step.worker, s.homes);
      CopiesCount(id, sockets, id, socket);
    }
  }

  /** A worker that a publication does not reach never gets the message into its queue, nor to its sockets. */
  lemma UnreachedMissForever(states: seq<System>, steps: seq<Step>, i: nat, v: nat, k: nat)
    requires IsRun(states, steps) && i < |steps| && i < k < |states| && steps[i].Publish?
    requires steps[i].worker < |states[i].workers| && v < |states[i].workers| && !Reaches(states[i], steps[i], v)
    ensures v < |states[k].workers| && Passed(states[k], v, |states[i].addressees|)
  {
    RunInvariant(states, steps, i);
    UnreachedIsPassed(states[i], steps[i], v);
    assert states[i + 1] == Next(states[i], steps[i]);
    PassedStays(states, steps, v, |states[i].addressees|, i + 1, k);
  }

  /** Without Redis and without a local socket a message is lost: no socket ever gets it and no queue ever holds it. */
  lemma UnreachableRedisDrops(states: seq<System>, steps: seq<Step>, i: nat, k: nat, v: nat, socket: Socket)
    requires IsRun(states, steps) && i < |steps| && i < k < |states| && v < |states[i].workers|
    requires steps[i].Publish? && !steps[i].redisReachable && steps[i].worker < |states[i].workers|
    requires SocketsOf(states[i].workers[steps[i].worker].connections, steps[i].user) == {}
    ensures states[k].delivered[(|states[i].addressees|, socket)] == 0
    ensures v < |states[k].workers| && !Queued(states[k], v, |states[i].addressees|)
  {
    RunInvariant(states, steps, k);
    if socket in states[k].homes {
      WorkersStayInRun(states, steps, i, k);
      UnreachedMissForever(states, steps, i, states[k].homes[socket].worker, k);
    } else {
      assert PairOk(states[k], |states[i].addressees|, socket);
    }
    UnreachedMissForever(states, steps, i, v, k);
  }

  lemma {:induction false} WorkersStayInRun(states: seq<System>, steps: seq<Step>, first: nat, last: nat)
    requires IsRun(states, steps) && first <= last < |states|
    ensures |states[first].workers| == |states[last].workers|
    decreases last
  {
    if first < last {
      WorkersStayInRun(states, steps, first, last - 1);
      assert states[last - 1 + 1] == Next(states[last - 1], steps[last - 1]);
      WorkersStay(states[last - 1], steps[last - 1]);
    }
  }

  /** The socket is connected for `user` at worker `v` from state `first` to before state `last`. */
  ghost predicate StaysConnected(states: seq<System>, v: nat, user: int, socket: Socket, first: nat, last: nat)
    requires last <= |states|
  {
    forall j :: first <= j < last ==>
      v < |states[j].workers| && socket in SocketsOf(states[j].workers[v].connections, user)
  }

  /**
   * Who gets a message, exactly. Of the user's sockets that stay connected at a worker whose listener stays up and
   * has taken what was queued, those at the publisher's own worker get it if there are any, and then nobody else;
   * otherwise those at every worker subscribed at the publication get it if Redis answered.
   */
  lemma DeliveredIff(states: seq<System>, steps: seq<Step>, i: nat, v: nat, socket: Socket, k: nat)
    requires IsRun(states, steps) && i < |steps| && i < k < |states| && steps[i].Publish?
    requires steps[i].worker < |states[i].workers| && v < |states[i].workers| && v < |states[k].workers|
    requires StaysConnected(states, v, steps[i].user, socket, i, k) && ListenerStaysUp(steps, v, i + 1, k)
    requires !Queued(states[k], v, |states[i].addressees|)
    ensures states[k].delivered[(|states[i].addressees|, socket)]
              == if Reaches(states[i], steps[i], v) then 1 else 0
  {
    var id := |states[i].addressees|;
    assert socket in SocketsOf(states[i].workers[v].connections, steps[i].user);
    if !Reaches(states[i], steps[i], v) {
      HomeStays(states, steps, i, v, steps[i].user, socket, k);
      UnreachedMissForever(states, steps, i, v, k);
    } else if SocketsOf(states[i].workers[steps[i].worker].connections, steps[i].user) != {} {
      LocalDelivery(states, steps, i, socket);
      DeliveredStays(states, steps, id, socket, i + 1, k);
      AtMostOnce(states, steps, k, id, socket);
    } else {
      BroadcastDelivery(states, steps, i, v, socket, k);
    }
  }

  lemma {:induction false} HomeStays(states: seq<System>, steps: seq<Step>, i: nat, v: nat, user: int, socket: Socket,
                                     k: nat)
    requires IsRun(states, steps) && i <= k < |states|
    requires v < |states[i].workers| && socket in SocketsOf(states[i].workers[v].connections, user)
    ensures socket in states[k].homes && states[k].homes[socket] == Home(v, user)
    decreases k
  {
    if i < k {
      HomeStays(states, steps, i, v, user, socket, k - 1);
      assert states[k - 1 + 1] == Next(states[k - 1], steps[k - 1]);
    } else {
      RunInvariant(states, steps, i);
      assert AtHome(states[i].workers[v].connections, v, states[i].homes);
    }
  }

  /** A socket of the addressee that is connected elsewhere and misses the first message. */
  ghost predicate Missed(s: System, v: nat, user: int, socket: Socket) {
    && v < |s.workers| && socket in SocketsOf(s.workers[v].connections, user)
    && s.addressees == [user] && s.delivered[(0, socket)] == 0
  }

  /** A run of two workers in which Redis is down and the only socket of the addressee is at the other worker. */
  lemma LostMessage(user: int, socket: Socket)
    ensures
      exists states: seq<System>, steps: seq<Step> ::
        IsRun(states, steps) && |states| == 3 && steps[1] == Publish(0, user, false)
          && Missed(states[2], 1, user, socket)
  {
    var idle := Worker(map[], true, []);
    var s0 := System([idle, idle], map[], [], multiset{});
    var steps := [Connect(1, user, socket), Publish(0, user, false)];
    var s1 := Next(s0, steps[0]);
    var s2 := Next(s1, steps[1]);
    assert IsRun([s0, s1, s2], steps);
    CopiesCount(0, {}, 0, socket);
    assert Missed(s2, 1, user, socket);
    assert [s0, s1, s2][2] == s2;
  }

  /** With a local socket the message stays at the publisher's worker: the addressee's other sockets miss it. */
  lemma LocalDeliveryMissesOthers(user: int, here: Socket, there: Socket)
    requires here != there
    ensures
      exists states: seq<System>, steps: seq<Step> ::
        IsRun(states, steps) && |states| == 4 && steps[2] == Publish(0, user, true) && Missed(states[3], 1, user, there)
  {
    var idle := Worker(map[], true, []);
    var s0 := System([idle, idle], map[], [], multiset{});
    var steps := [Connect(0, user, here), Connect(1, user, there), Publish(0, user, true)];
    var s1 := Next(s0, steps[0]);
    var s2 := Next(s1, steps[1]);
    var s3 := Next(s2, steps[2]);
    assert IsRun([s0, s1, s2, s3], steps);
    CopiesCount(0, {here}, 0, there);
    assert SocketsOf(s2.workers[0].connections, user) == {here};
    assert Missed(s3, 1, user, there);
    assert [s0, s1, s2, s3][3] == s3;
  }

  // ---------- the steps and the code they stand for ----------

  /**
   * A `Publish` step writes the copies that `PublishToUser` writes, and puts the message into the queue of every
   * subscribed worker if that publishes to Redis, and into none if it does not.
   */
  lemma PublishStepIsPublishToUser(s: System, w: nat, user: int, reachable: bool, message: Message, socket: Socket,
                                   v: nat)
    requires w < |s.workers| && v < |s.workers|
    ensures
      var s', id, connections := Next(s, Publish(w, user, reachable)), |s.addressees|, s.workers[w].connections;
      var published := Broadcasts(connections, reachable, Number(user), message);
      && s'.delivered[(id, socket)]
           == s.delivered[(id, socket)] + Copies(SocketsOf(connections, user), message)[(socket, message)]
      && s'.workers[v].inbox
           == s.workers[v].inbox + (if published != [] && s.workers[v].subscribed then [Envelope(id, user)] else [])
      && s'.workers[v].connections == s.workers[v].connections
      && s'.addressees == s.addressees + [user]
  {
    CopiesCount(|s.addressees|, SocketsOf(s.workers[w].connections, user), |s.addressees|, socket);
  }

  /** A `Consume` step writes the copies that the listener writes for that broadcast. */
  lemma ConsumeStepIsListener(s: System, w: nat, message: Message, socket: Socket)
    requires Enabled(s, Consume(w))
    ensures
      var envelope := s.workers[w].inbox[0];
      var item := PatternMessage(Channel(Number(envelope.user)), Some(message));
      Next(s, Consume(w)).delivered[(envelope.id, socket)]
        == s.delivered[(envelope.id, socket)] + Forwarded(s.workers[w].connections, item)[(socket, message)]
  {
    var envelope := s.workers[w].inbox[0];
    BroadcastForwarded(s.workers[w].connections, Number(envelope.user), message);
    CopiesCount(envelope.id, SocketsOf(s.workers[w].connections, envelope.user), envelope.id, socket);
  }
}
