/** One connection: a client loop, a server loop, the two directions of the WebSocket
    between them, and the handler tasks, as one machine of atomic steps. */
module RpcSystem {
  import opened Wire
  import opened RpcClient
  import RpcServer

  /** A call whose message was lost, with the id it was sent under. */
  datatype Key = Key(id: RpcId, origin: Sender)

  /** What a handler task was given and what it computed. */
  datatype Execution = Execution(internal: Bytes, output: Output)

  /** `dropped` and `executed` are histories that no step reads: the messages lost on the
      way, and for each call what its handler task computed. */
  datatype System = System(
    client: Client,
    toServer: seq<Request<Sender>>,
    server: RpcServer.Server<Sender>,
    toClient: seq<Response<Sender>>,
    dropped: seq<Key>,
    executed: map<Sender, Execution>)

  datatype Step =
    // the application and the client loop
    | AppCalls(internal: Bytes, encoding: Encoding)
    | RequestOnWire
    | RequestSendFails
    | SlotFilled
    | ClientReceive
    | ClientCannotDecode
    // the server loop and its handler tasks
    | ServerReceive
    | ServerCannotDecode
    | Finish(task: nat, output: Output)
    | Panic(task: nat)
    | Dequeue
    | SendResponse
    | ResponseSendFails

  function Init(): System {
    System(RpcClient.Initial(), [], RpcServer.Initial(), [], [], map[])
  }

  predicate Enabled(s: System, step: Step) {
    match step
    case AppCalls(internal, encoding) => Ready(s.client, RpcClient.Take(internal, encoding))
    case RequestOnWire => Ready(s.client, RpcClient.WireAccepts)
    case RequestSendFails => Ready(s.client, RpcClient.SendFails)
    case SlotFilled => Ready(s.client, RpcClient.FillSlot)
    case ClientReceive => s.client.phase.Idle? && s.toClient != []
    case ClientCannotDecode => s.client.phase.Idle? && s.toClient != []
    case ServerReceive => s.server.responding.None? && s.toServer != []
    case ServerCannotDecode => s.server.responding.None? && s.toServer != []
    case Finish(k, _) => k < |s.server.running|
    case Panic(k) => k < |s.server.running|
    case Dequeue => RpcServer.Ready(s.server, RpcServer.Dequeue)
    case SendResponse => s.server.responding.Some?
    case ResponseSendFails => s.server.responding.Some?
  }

  predicate Sized(s: System) {
    |s.client.slots| == CAPACITY && |s.server.inFlight| == CAPACITY
  }

  function Next(s: System, step: Step): System
    requires Sized(s) && Enabled(s, step)
  {
    match step
    case AppCalls(internal, encoding) =>
      s.(client := RpcClient.Step(s.client, RpcClient.Take(internal, encoding)))
    case RequestOnWire =>
      var p := s.client.phase;
      s.(client := RpcClient.Step(s.client, RpcClient.WireAccepts),
         toServer := s.toServer + [Request(p.id, p.internal, p.tx)])
    case RequestSendFails =>
      s.(client := RpcClient.Step(s.client, RpcClient.SendFails))
    case SlotFilled =>
      s.(client := RpcClient.Step(s.client, RpcClient.FillSlot))
    case ClientReceive =>
      var msg := s.toClient[0];
      s.(client := RpcClient.Step(s.client, Deliver(msg.id, msg.output)), toClient := s.toClient[1..])
    case ClientCannotDecode =>
      s.(toClient := s.toClient[1..], dropped := s.dropped + [Key(s.toClient[0].id, s.toClient[0].origin)])
    case ServerReceive =>
      s.(server := RpcServer.Step(s.server, RpcServer.Receive(s.toServer[0])), toServer := s.toServer[1..])
    case ServerCannotDecode =>
      s.(toServer := s.toServer[1..], dropped := s.dropped + [Key(s.toServer[0].id, s.toServer[0].origin)])
    case Finish(k, output) =>
      var task := s.server.running[k];
      s.(server := RpcServer.Step(s.server, RpcServer.Finish(k, output)),
         executed := s.executed[task.origin := Execution(task.internal, output)])
    case Panic(k) =>
      s.(server := RpcServer.Step(s.server, RpcServer.Panic(k)))
    case Dequeue =>
      s.(server := RpcServer.Step(s.server, RpcServer.Dequeue))
    case SendResponse =>
      s.(toClient := s.toClient + [s.server.responding.value],
         server := RpcServer.Step(s.server, RpcServer.SendDone))
    case ResponseSendFails =>
      var msg := s.server.responding.value;
      s.(dropped := s.dropped + [Key(msg.id, msg.origin)],
         server := RpcServer.Step(s.server, RpcServer.SendDone))
  }

  /** A whole run: any number of calls, in any interleaving, with any losses and panics. */
  datatype Run = Run(states: seq<System>, steps: seq<Step>)

  ghost predicate StepAt(r: Run, i: nat)
    requires i < |r.steps| && |r.states| == |r.steps| + 1
  {
    Sized(r.states[i]) && Enabled(r.states[i], r.steps[i]) && r.states[i + 1] == Next(r.states[i], r.steps[i])
  }

  ghost predicate IsRun(r: Run) {
    && |r.states| == |r.steps| + 1
    && r.states[0] == Init()
    && (forall i | 0 <= i < |r.states| :: Sized(r.states[i]))
    && (forall i: nat | i < |r.steps| :: StepAt(r, i))
  }
}
