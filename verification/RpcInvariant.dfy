/** The invariant that ties the client's slots to the messages under way, and its
    preservation by every step. */
module RpcInvariant {
  import opened Wire
  import opened Counting
  import opened RpcClient
  import opened RpcSystem
  import RpcServer

  /** The client holds `id` for call `tx`: in its slot, or about to be put there. */
  ghost predicate HeldFor(c: Client, id: RpcId, tx: Sender)
    requires |c.slots| == CAPACITY
  {
    c.slots[id] == Some(tx) || c.phase == Sent(id, tx)
  }

  /** The number of ids the client holds for call `tx`. */
  ghost function Holdings(c: Client, tx: Sender): nat {
    InSlots(c.slots, tx) + if c.phase.Sent? && c.phase.tx == tx then 1 else 0
  }

  ghost function RequestOf(tx: Sender): Request<Sender> -> bool {
    (r: Request<Sender>) => r.origin == tx
  }

  ghost function ResponseOf(tx: Sender): Response<Sender> -> bool {
    (r: Response<Sender>) => r.origin == tx
  }

  ghost function KeyOf(tx: Sender): Key -> bool {
    (k: Key) => k.origin == tx
  }

  ghost function Responding(s: System): seq<Response<Sender>> {
    if s.server.responding.Some? then [s.server.responding.value] else []
  }

  /** The messages and tasks of call `tx` that are under way. */
  ghost function InTransit(s: System, tx: Sender): nat {
    Count(s.toServer, RequestOf(tx)) + Count(s.server.running, RequestOf(tx)) + Count(s.server.queue, ResponseOf(tx))
    + Count(Responding(s), ResponseOf(tx)) + Count(s.toClient, ResponseOf(tx))
  }

  /** The messages and tasks of call `tx` that were lost. */
  ghost function Lost(s: System, tx: Sender): nat {
    Count(s.server.panicked, RequestOf(tx)) + Count(s.dropped, KeyOf(tx))
  }

  ghost function TransitSize(s: System): nat {
    |s.toServer| + |s.server.running| + |s.server.queue| + |Responding(s)| + |s.toClient|
  }

  ghost function LostSize(s: System): nat {
    |s.server.panicked| + |s.dropped|
  }

  /** A request carries its call's own bytes, under an id held for that call. */
  ghost predicate Genuine(c: Client, r: Request<Sender>)
    requires |c.slots| == CAPACITY
  {
    HeldFor(c, r.id, r.origin) && r.origin < |c.requests| && r.internal == c.requests[r.origin]
  }

  /** A response carries what the handler computed from its call's own bytes. */
  ghost predicate Faithful(c: Client, executed: map<Sender, Execution>, r: Response<Sender>)
    requires |c.slots| == CAPACITY
  {
    && HeldFor(c, r.id, r.origin) && r.origin < |c.requests|
    && r.origin in executed && executed[r.origin] == Execution(c.requests[r.origin], r.output)
  }

  ghost predicate AllGenuine(c: Client, rs: seq<Request<Sender>>)
    requires |c.slots| == CAPACITY
  {
    forall r | r in rs :: Genuine(c, r)
  }

  ghost predicate AllFaithful(c: Client, executed: map<Sender, Execution>, rs: seq<Response<Sender>>)
    requires |c.slots| == CAPACITY
  {
    forall r | r in rs :: Faithful(c, executed, r)
  }

  ghost predicate AllHeld(c: Client, ks: seq<Key>)
    requires |c.slots| == CAPACITY
  {
    forall k | k in ks :: HeldFor(c, k.id, k.origin)
  }

  ghost predicate NoneExecuted(executed: map<Sender, Execution>, rs: seq<Request<Sender>>) {
    forall r | r in rs :: r.origin !in executed
  }

  ghost predicate Requests(s: System)
    requires Sized(s)
  {
    && AllGenuine(s.client, s.toServer)
    && AllGenuine(s.client, s.server.running)
    && AllGenuine(s.client, s.server.panicked)
    && AllHeld(s.client, s.dropped)
    && NoneExecuted(s.executed, s.toServer)
    && NoneExecuted(s.executed, s.server.running)
  }

  ghost predicate Responses(s: System)
    requires Sized(s)
  {
    && AllFaithful(s.client, s.executed, s.server.queue)
    && AllFaithful(s.client, s.executed, Responding(s))
    && AllFaithful(s.client, s.executed, s.toClient)
  }

  ghost predicate History(s: System) {
    && (forall tx | tx in s.executed :: tx < |s.client.requests|)
    && (s.client.phase.Sending? ==>
          && s.client.phase.tx < |s.client.requests|
          && s.client.phase.internal == s.client.requests[s.client.phase.tx]
          && s.client.phase.tx !in s.executed)
  }

  ghost predicate Balanced(s: System) {
    && (forall tx: Sender :: InTransit(s, tx) + Lost(s, tx) == Holdings(s.client, tx))
    && TransitSize(s) + LostSize(s) == |Occupied(s.client.slots)| + if s.client.phase.Sent? then 1 else 0
  }

  ghost predicate Inv(s: System) {
    && Accounted(s.client)
    && RpcServer.Consistent(s.server)
    && Balanced(s)
    && Requests(s)
    && Responses(s)
    && History(s)
  }

  // ---------- What the invariant says about one call ----------

  /** No call has two messages, tasks or losses. */
  lemma AtMostOne(s: System, tx: Sender)
    requires Inv(s)
    ensures InTransit(s, tx) + Lost(s, tx) <= 1
  {
    assert Places(s.client, tx) <= 1;
    assert InTransit(s, tx) + Lost(s, tx) == Holdings(s.client, tx);
  }

  /** A call that has nothing under way or lost owns none of the messages and tasks. */
  lemma NoneLeft(s: System, tx: Sender)
    requires InTransit(s, tx) + Lost(s, tx) == 0
    ensures forall r | r in s.toServer :: r.origin != tx
    ensures forall r | r in s.server.running :: r.origin != tx
    ensures forall r | r in s.server.panicked :: r.origin != tx
    ensures forall r | r in s.server.queue :: r.origin != tx
    ensures forall r | r in Responding(s) :: r.origin != tx
    ensures forall r | r in s.toClient :: r.origin != tx
    ensures forall k | k in s.dropped :: k.origin != tx
  {
    NoRequest(s.toServer, tx);
    NoRequest(s.server.running, tx);
    NoRequest(s.server.panicked, tx);
    NoResponse(s.server.queue, tx);
    NoResponse(Responding(s), tx);
    NoResponse(s.toClient, tx);
    if k: nat :| k < |s.dropped| && s.dropped[k].origin == tx {
      CountAt(s.dropped, k, KeyOf(tx));
    }
  }

  lemma NoRequest(rs: seq<Request<Sender>>, tx: Sender)
    requires Count(rs, RequestOf(tx)) == 0
    ensures forall r | r in rs :: r.origin != tx
  {
    if k: nat :| k < |rs| && rs[k].origin == tx {
      CountAt(rs, k, RequestOf(tx));
    }
  }

  lemma NoResponse(rs: seq<Response<Sender>>, tx: Sender)
    requires Count(rs, ResponseOf(tx)) == 0
    ensures forall r | r in rs :: r.origin != tx
  {
    if k: nat :| k < |rs| && rs[k].origin == tx {
      CountAt(rs, k, ResponseOf(tx));
    }
  }

  /** Two calls never hold the same id. */
  lemma HeldForOne(c: Client, id: RpcId, tx: Sender, tx': Sender)
    requires Accounted(c)
    requires HeldFor(c, id, tx) && HeldFor(c, id, tx')
    ensures tx == tx'
  {
  }

  /** A request on the wire never meets its own id in flight: the server's "already in
      flight" branch is dead between conforming peers. */
  lemma RequestNotInFlight(s: System, k: nat)
    requires Inv(s) && k < |s.toServer|
    ensures !s.server.inFlight[s.toServer[k].id]
  {
    var r := s.toServer[k];
    assert r in s.toServer;
    if s.server.inFlight[r.id] {
      AtMostOne(s, r.origin);
      CountAt(s.toServer, k, RequestOf(r.origin));
      InFlightHolder(s, r.id, r.origin);
    }
  }

  /** A flag that is set belongs to a task, a queued response or a panicked task of the call
      the client holds that id for. */
  lemma InFlightHolder(s: System, id: RpcId, tx: Sender)
    requires Inv(s) && s.server.inFlight[id] && HeldFor(s.client, id, tx)
    ensures Count(s.server.running, RequestOf(tx)) + Count(s.server.queue, ResponseOf(tx))
            + Count(s.server.panicked, RequestOf(tx)) >= 1
  {
    assert RpcServer.Owed(s.server, id) == 1;
    if Count(s.server.running, RpcServer.RequestHas(id)) >= 1 {
      var k := CountWitness(s.server.running, RpcServer.RequestHas(id));
      assert s.server.running[k] in s.server.running;
      HeldForOne(s.client, id, tx, s.server.running[k].origin);
      CountAt(s.server.running, k, RequestOf(tx));
    } else if Count(s.server.queue, RpcServer.ResponseHas(id)) >= 1 {
      var k := CountWitness(s.server.queue, RpcServer.ResponseHas(id));
      assert s.server.queue[k] in s.server.queue;
      HeldForOne(s.client, id, tx, s.server.queue[k].origin);
      CountAt(s.server.queue, k, ResponseOf(tx));
    } else {
      var k := CountWitness(s.server.panicked, RpcServer.RequestHas(id));
      assert s.server.panicked[k] in s.server.panicked;
      HeldForOne(s.client, id, tx, s.server.panicked[k].origin);
      CountAt(s.server.panicked, k, RequestOf(tx));
    }
  }

  /** The slot of a response on the wire is taken by the very call it answers whenever the
      client reads: the client's "unknown RPC call" branch is dead between conforming peers. */
  lemma ResponseFindsItsCall(s: System, k: nat)
    requires Inv(s) && k < |s.toClient| && s.client.phase.Idle?
    ensures s.client.slots[s.toClient[k].id] == Some(s.toClient[k].origin)
  {
    assert s.toClient[k] in s.toClient;
  }

  // ---------- Preservation ----------

  /** The client changes without forgetting a request, and releases ids only of the calls in
      `done`. */
  ghost predicate Keeps(c: Client, c': Client, done: set<Sender>)
    requires |c.slots| == CAPACITY && |c'.slots| == CAPACITY
  {
    && c.requests <= c'.requests
    && forall id: RpcId, tx | HeldFor(c, id, tx) && tx !in done :: HeldFor(c', id, tx)
  }

  lemma KeepsRequests(c: Client, c': Client, done: set<Sender>, rs: seq<Request<Sender>>, rs': seq<Request<Sender>>)
    requires |c.slots| == CAPACITY && |c'.slots| == CAPACITY && Keeps(c, c', done)
    requires AllGenuine(c, rs) && forall r | r in rs' :: r in rs && r.origin !in done
    ensures AllGenuine(c', rs')
  {
  }

  lemma KeepsResponses(
    c: Client, c': Client, done: set<Sender>, executed: map<Sender, Execution>,
    rs: seq<Response<Sender>>, rs': seq<Response<Sender>>)
    requires |c.slots| == CAPACITY && |c'.slots| == CAPACITY && Keeps(c, c', done)
    requires AllFaithful(c, executed, rs) && forall r | r in rs' :: r in rs && r.origin !in done
    ensures AllFaithful(c', executed, rs')
  {
  }

  /** A client step that releases no id leaves every message genuine. */
  lemma KeepsAll(s: System, s': System)
    requires Sized(s) && Requests(s) && Responses(s)
    requires Sized(s') && s' == s.(client := s'.client) && Keeps(s.client, s'.client, {})
    ensures Requests(s') && Responses(s')
  {
    KeepsRequests(s.client, s'.client, {}, s.toServer, s.toServer);
    KeepsRequests(s.client, s'.client, {}, s.server.running, s.server.running);
    KeepsRequests(s.client, s'.client, {}, s.server.panicked, s.server.panicked);
    KeepsResponses(s.client, s'.client, {}, s.executed, s.server.queue, s.server.queue);
    KeepsResponses(s.client, s'.client, {}, s.executed, Responding(s), Responding(s));
    KeepsResponses(s.client, s'.client, {}, s.executed, s.toClient, s.toClient);
  }

  /** Nothing about the balance changes when no place gains or loses a call. */
  lemma SameBalance(s: System, s': System)
    requires Balanced(s)
    requires forall tx: Sender :: InTransit(s', tx) + Lost(s', tx) == InTransit(s, tx) + Lost(s, tx)
    requires TransitSize(s') + LostSize(s') == TransitSize(s) + LostSize(s)
    requires s'.client.slots == s.client.slots
    requires s'.client.phase == s.client.phase || (!s.client.phase.Sent? && !s'.client.phase.Sent?)
    ensures Balanced(s')
  {
    forall tx: Sender ensures InTransit(s', tx) + Lost(s', tx) == Holdings(s'.client, tx) {
      assert InTransit(s, tx) + Lost(s, tx) == Holdings(s.client, tx);
    }
  }

  lemma InitInv()
    ensures Inv(Init())
  {
    InitialAccounted();
    RpcServer.InitialConsistent<Sender>();
    var s := Init();
    forall tx: Sender ensures InTransit(s, tx) + Lost(s, tx) == Holdings(s.client, tx) {
      CountNone(s.client.slots, SlotHolds(tx));
    }
    assert Occupied(s.client.slots) == {};
  }

  lemma AppCallsInv(s: System, internal: Bytes, encoding: Encoding)
    requires Inv(s) && Enabled(s, AppCalls(internal, encoding))
    ensures Inv(Next(s, AppCalls(internal, encoding)))
  {
    var s' := Next(s, AppCalls(internal, encoding));
    StepKeepsAccount(s.client, RpcClient.Take(internal, encoding));
    SameBalance(s, s') by {
      assert forall tx: Sender :: InTransit(s', tx) + Lost(s', tx) == InTransit(s, tx) + Lost(s, tx);
    }
    KeepsAll(s, s');
  }

  lemma RequestOnWireBalanced(s: System)
    requires Inv(s) && Enabled(s, RequestOnWire)
    ensures Balanced(Next(s, RequestOnWire))
  {
    var s' := Next(s, RequestOnWire);
    var p := s.client.phase;
    forall tx: Sender ensures InTransit(s', tx) + Lost(s', tx) == Holdings(s'.client, tx) {
      CountPush(s.toServer, Request(p.id, p.internal, p.tx), RequestOf(tx));
      assert InTransit(s, tx) + Lost(s, tx) == Holdings(s.client, tx);
    }
  }

  lemma RequestOnWireInv(s: System)
    requires Inv(s) && Enabled(s, RequestOnWire)
    ensures Inv(Next(s, RequestOnWire))
  {
    var s' := Next(s, RequestOnWire);
    StepKeepsAccount(s.client, RpcClient.WireAccepts);
    RequestOnWireBalanced(s);
    KeepsAll(s, s.(client := s'.client));
  }

  lemma RequestSendFailsInv(s: System)
    requires Inv(s) && Enabled(s, RequestSendFails)
    ensures Inv(Next(s, RequestSendFails))
  {
    var s' := Next(s, RequestSendFails);
    StepKeepsAccount(s.client, RpcClient.SendFails);
    SameBalance(s, s') by {
      assert forall tx: Sender :: InTransit(s', tx) + Lost(s', tx) == InTransit(s, tx) + Lost(s, tx);
    }
    KeepsAll(s, s');
  }

  lemma SlotFilledBalanced(s: System)
    requires Inv(s) && Enabled(s, SlotFilled)
    ensures Balanced(Next(s, SlotFilled))
  {
    var s' := Next(s, SlotFilled);
    var p := s.client.phase;
    OccupiedUpdate(s.client.slots, p.id, p.tx);
    forall tx: Sender ensures InTransit(s', tx) + Lost(s', tx) == Holdings(s'.client, tx) {
      CountUpdate(s.client.slots, p.id, Some(p.tx), SlotHolds(tx));
      assert InTransit(s', tx) + Lost(s', tx) == InTransit(s, tx) + Lost(s, tx);
    }
  }

  lemma SlotFilledInv(s: System)
    requires Inv(s) && Enabled(s, SlotFilled)
    ensures Inv(Next(s, SlotFilled))
  {
    StepKeepsAccount(s.client, RpcClient.FillSlot);
    SlotFilledBalanced(s);
    KeepsAll(s, Next(s, SlotFilled));
  }

  lemma ClientReceiveBalanced(s: System)
    requires Inv(s) && Enabled(s, ClientReceive)
    ensures Balanced(Next(s, ClientReceive))
    ensures var s', tx := Next(s, ClientReceive), s.toClient[0].origin;
            InTransit(s', tx) + Lost(s', tx) == 0
  {
    var s' := Next(s, ClientReceive);
    var msg := s.toClient[0];
    ResponseFindsItsCall(s, 0);
    OccupiedUpdate(s.client.slots, msg.id, msg.origin);
    forall tx: Sender ensures InTransit(s', tx) + Lost(s', tx) == Holdings(s'.client, tx) {
      CountUpdate(s.client.slots, msg.id, None, SlotHolds(tx));
      CountPop(s.toClient, ResponseOf(tx));
      assert InTransit(s, tx) + Lost(s, tx) == Holdings(s.client, tx);
    }
    AtMostOne(s, msg.origin);
    CountPop(s.toClient, ResponseOf(msg.origin));
  }

  /** Taking one call's slot leaves every other call's id held. */
  lemma DeliverKeeps(c: Client, msg: Response<Sender>)
    requires Accounted(c) && c.phase.Idle? && c.slots[msg.id] == Some(msg.origin)
    ensures Keeps(c, RpcClient.Step(c, Deliver(msg.id, msg.output)), {msg.origin})
  {
  }

  lemma ClientReceiveMessages(s: System)
    requires Inv(s) && Enabled(s, ClientReceive)
    ensures Requests(Next(s, ClientReceive)) && Responses(Next(s, ClientReceive))
  {
    var s' := Next(s, ClientReceive);
    var msg := s.toClient[0];
    var done := {msg.origin};
    ClientReceiveBalanced(s);
    ResponseFindsItsCall(s, 0);
    NoneLeft(s', msg.origin);
    DeliverKeeps(s.client, msg);
    KeepsRequests(s.client, s'.client, done, s.toServer, s'.toServer);
    KeepsRequests(s.client, s'.client, done, s.server.running, s'.server.running);
    KeepsRequests(s.client, s'.client, done, s.server.panicked, s'.server.panicked);
    KeepsResponses(s.client, s'.client, done, s.executed, s.server.queue, s'.server.queue);
    KeepsResponses(s.client, s'.client, done, s.executed, Responding(s), Responding(s'));
    KeepsResponses(s.client, s'.client, done, s.executed, s.toClient, s'.toClient);
  }

  lemma ClientReceiveInv(s: System)
    requires Inv(s) && Enabled(s, ClientReceive)
    ensures Inv(Next(s, ClientReceive))
  {
    ClientReceiveBalanced(s);
    ClientReceiveMessages(s);
    ResponseFindsItsCall(s, 0);
    StepKeepsAccount(s.client, Deliver(s.toClient[0].id, s.toClient[0].output));
  }

  lemma ClientCannotDecodeInv(s: System)
    requires Inv(s) && Enabled(s, ClientCannotDecode)
    ensures Inv(Next(s, ClientCannotDecode))
  {
    var s' := Next(s, ClientCannotDecode);
    var msg := s.toClient[0];
    assert msg in s.toClient;
    forall tx: Sender ensures InTransit(s', tx) + Lost(s', tx) == InTransit(s, tx) + Lost(s, tx) {
      CountPop(s.toClient, ResponseOf(tx));
      CountPush(s.dropped, Key(msg.id, msg.origin), KeyOf(tx));
    }
  }

  lemma ServerReceiveInv(s: System)
    requires Inv(s) && Enabled(s, ServerReceive)
    ensures Inv(Next(s, ServerReceive))
  {
    var s' := Next(s, ServerReceive);
    var msg := s.toServer[0];
    assert msg in s.toServer;
    RequestNotInFlight(s, 0);
    RpcServer.StepConsistent(s.server, RpcServer.Receive(msg));
    forall tx: Sender ensures InTransit(s', tx) + Lost(s', tx) == InTransit(s, tx) + Lost(s, tx) {
      CountPop(s.toServer, RequestOf(tx));
      CountPush(s.server.running, msg, RequestOf(tx));
    }
  }

  lemma ServerCannotDecodeInv(s: System)
    requires Inv(s) && Enabled(s, ServerCannotDecode)
    ensures Inv(Next(s, ServerCannotDecode))
  {
    var s' := Next(s, ServerCannotDecode);
    var msg := s.toServer[0];
    assert msg in s.toServer;
    forall tx: Sender ensures InTransit(s', tx) + Lost(s', tx) == InTransit(s, tx) + Lost(s, tx) {
      CountPop(s.toServer, RequestOf(tx));
      CountPush(s.dropped, Key(msg.id, msg.origin), KeyOf(tx));
    }
  }

  lemma FinishBalanced(s: System, k: nat, output: Output)
    requires Inv(s) && Enabled(s, Finish(k, output))
    ensures Balanced(Next(s, Finish(k, output)))
  {
    var s' := Next(s, Finish(k, output));
    var task := s.server.running[k];
    forall tx: Sender ensures InTransit(s', tx) + Lost(s', tx) == InTransit(s, tx) + Lost(s, tx) {
      CountWithout(s.server.running, k, RequestOf(tx));
      CountPush(s.server.queue, Response(task.id, output, task.origin), ResponseOf(tx));
    }
  }

  /** The call of a running task has no other message or task, and is not being sent. */
  lemma OnlyTask(s: System, k: nat)
    requires Inv(s) && k < |s.server.running|
    ensures var tx := s.server.running[k].origin;
            && (forall r | r in s.toServer :: r.origin != tx)
            && (forall r | r in Without(s.server.running, k) :: r.origin != tx)
            && (forall r | r in s.server.queue :: r.origin != tx)
            && (forall r | r in Responding(s) :: r.origin != tx)
            && (forall r | r in s.toClient :: r.origin != tx)
            && !(s.client.phase.Sending? && s.client.phase.tx == tx)
  {
    var tx := s.server.running[k].origin;
    AtMostOne(s, tx);
    CountWithout(s.server.running, k, RequestOf(tx));
    NoRequest(s.toServer, tx);
    NoRequest(Without(s.server.running, k), tx);
    NoResponse(s.server.queue, tx);
    NoResponse(Responding(s), tx);
    NoResponse(s.toClient, tx);
    assert Places(s.client, tx) <= 1;
    assert InTransit(s, tx) + Lost(s, tx) == Holdings(s.client, tx);
  }

  lemma FinishMessages(s: System, k: nat, output: Output)
    requires Inv(s) && Enabled(s, Finish(k, output))
    ensures Requests(Next(s, Finish(k, output))) && Responses(Next(s, Finish(k, output)))
  {
    var s' := Next(s, Finish(k, output));
    assert s.server.running[k] in s.server.running;
    OnlyTask(s, k);
    assert AllGenuine(s'.client, s'.server.running);
    assert NoneExecuted(s'.executed, s'.server.running);
    assert NoneExecuted(s'.executed, s'.toServer);
    assert AllFaithful(s'.client, s'.executed, s'.server.queue);
    assert AllFaithful(s'.client, s'.executed, Responding(s'));
    assert AllFaithful(s'.client, s'.executed, s'.toClient);
  }

  lemma FinishInv(s: System, k: nat, output: Output)
    requires Inv(s) && Enabled(s, Finish(k, output))
    ensures Inv(Next(s, Finish(k, output)))
  {
    assert s.server.running[k] in s.server.running;
    RpcServer.StepConsistent(s.server, RpcServer.Finish(k, output));
    FinishBalanced(s, k, output);
    FinishMessages(s, k, output);
    OnlyTask(s, k);
  }

  lemma PanicInv(s: System, k: nat)
    requires Inv(s) && Enabled(s, Panic(k))
    ensures Inv(Next(s, Panic(k)))
  {
    var s' := Next(s, Panic(k));
    var task := s.server.running[k];
    assert task in s.server.running;
    RpcServer.StepConsistent(s.server, RpcServer.Panic(k));
    forall tx: Sender ensures InTransit(s', tx) + Lost(s', tx) == InTransit(s, tx) + Lost(s, tx) {
      CountWithout(s.server.running, k, RequestOf(tx));
      CountPush(s.server.panicked, task, RequestOf(tx));
    }
  }

  lemma DequeueInv(s: System)
    requires Inv(s) && Enabled(s, Dequeue)
    ensures Inv(Next(s, Dequeue))
  {
    var s' := Next(s, Dequeue);
    var msg := s.server.queue[0];
    assert msg in s.server.queue;
    RpcServer.StepConsistent(s.server, RpcServer.Dequeue);
    forall tx: Sender ensures InTransit(s', tx) + Lost(s', tx) == InTransit(s, tx) + Lost(s, tx) {
      CountPop(s.server.queue, ResponseOf(tx));
      CountPush([], msg, ResponseOf(tx));
      assert Responding(s') == [] + [msg];
    }
  }

  lemma SendResponseInv(s: System)
    requires Inv(s) && Enabled(s, SendResponse)
    ensures Inv(Next(s, SendResponse))
  {
    var s' := Next(s, SendResponse);
    var msg := s.server.responding.value;
    assert msg in Responding(s);
    RpcServer.StepConsistent(s.server, RpcServer.SendDone);
    forall tx: Sender ensures InTransit(s', tx) + Lost(s', tx) == InTransit(s, tx) + Lost(s, tx) {
      CountPop(Responding(s), ResponseOf(tx));
      CountPush(s.toClient, msg, ResponseOf(tx));
    }
  }

  lemma ResponseSendFailsInv(s: System)
    requires Inv(s) && Enabled(s, ResponseSendFails)
    ensures Inv(Next(s, ResponseSendFails))
  {
    var s' := Next(s, ResponseSendFails);
    var msg := s.server.responding.value;
    assert msg in Responding(s);
    RpcServer.StepConsistent(s.server, RpcServer.SendDone);
    forall tx: Sender ensures InTransit(s', tx) + Lost(s', tx) == InTransit(s, tx) + Lost(s, tx) {
      CountPop(Responding(s), ResponseOf(tx));
      CountPush(s.dropped, Key(msg.id, msg.origin), KeyOf(tx));
    }
  }

  lemma StepInv(s: System, step: Step)
    requires Inv(s) && Enabled(s, step)
    ensures Inv(Next(s, step))
  {
    match step
    case AppCalls(internal, encoding) => AppCallsInv(s, internal, encoding);
    case RequestOnWire => RequestOnWireInv(s);
    case RequestSendFails => RequestSendFailsInv(s);
    case SlotFilled => SlotFilledInv(s);
    case ClientReceive => ClientReceiveInv(s);
    case ClientCannotDecode => ClientCannotDecodeInv(s);
    case ServerReceive => ServerReceiveInv(s);
    case ServerCannotDecode => ServerCannotDecodeInv(s);
    case Finish(k, output) => FinishInv(s, k, output);
    case Panic(k) => PanicInv(s, k);
    case Dequeue => DequeueInv(s);
    case SendResponse => SendResponseInv(s);
    case ResponseSendFails => ResponseSendFailsInv(s);
  }
}
