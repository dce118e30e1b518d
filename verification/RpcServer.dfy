/** The server's half of the RPC multiplexer: the in-flight table, the handler tasks and the
    response queue of one connection (`src/server.rs`), against a client that may send
    anything. Nothing here looks at a request's origin. */
module RpcServer {
  import opened Wire
  import opened Counting

  /** `inFlight` is the connection loop's table, `running` the spawned handler tasks, `queue`
      the unbounded channel they answer into, `responding` the response the loop has taken
      out and is sending. `panicked` are the tasks that died without answering. */
  datatype Server<+T> = Server(
    inFlight: seq<bool>,
    running: seq<Request<T>>,
    queue: seq<Response<T>>,
    responding: Option<Response<T>>,
    panicked: seq<Request<T>>)

  datatype Input<+T> =
    | Receive(request: Request<T>)
    | Finish(task: nat, output: Output)
    | Panic(task: nat)
    | Dequeue
    | SendDone

  function Initial<T>(): Server<T> {
    Server(seq(CAPACITY, _ => false), [], [], None, [])
  }

  /** The loop takes its next message only once the previous send is over; handler tasks run
      beside it. */
  predicate Ready<T>(s: Server<T>, input: Input<T>) {
    match input
    case Receive(_) => s.responding.None?
    case Finish(k, _) => k < |s.running|
    case Panic(k) => k < |s.running|
    case Dequeue => s.responding.None? && s.queue != []
    case SendDone => s.responding.Some?
  }

  function Step<T>(s: Server<T>, input: Input<T>): Server<T>
    requires |s.inFlight| == CAPACITY
    requires Ready(s, input)
  {
    match input
    case Receive(r) =>
      if s.inFlight[r.id] then s
      else s.(inFlight := s.inFlight[r.id := true], running := s.running + [r])
    case Finish(k, output) =>
      var task := s.running[k];
      s.(running := Without(s.running, k), queue := s.queue + [Response(task.id, output, task.origin)])
    case Panic(k) =>
      s.(running := Without(s.running, k), panicked := s.panicked + [s.running[k]])
    case Dequeue =>
      var msg := s.queue[0];
      s.(inFlight := s.inFlight[msg.id := false], queue := s.queue[1..], responding := Some(msg))
    case SendDone =>
      s.(responding := None)
  }

  // ---------- The bound ----------

  ghost function RequestHas<T>(id: RpcId): Request<T> -> bool {
    (r: Request<T>) => r.id == id
  }

  ghost function ResponseHas<T>(id: RpcId): Response<T> -> bool {
    (r: Response<T>) => r.id == id
  }

  /** How many calls with this id the server works on, has queued, or lost to a panic. */
  ghost function Owed<T>(s: Server<T>, id: RpcId): nat {
    Count(s.running, RequestHas(id)) + Count(s.queue, ResponseHas(id)) + Count(s.panicked, RequestHas(id))
  }

  ghost function Flagged(inFlight: seq<bool>): set<int> {
    set i | 0 <= i < |inFlight| && inFlight[i]
  }

  ghost predicate Consistent<T>(s: Server<T>) {
    && |s.inFlight| == CAPACITY
    && (forall id: RpcId :: Owed(s, id) == if s.inFlight[id] then 1 else 0)
    && |s.running| + |s.queue| + |s.panicked| == |Flagged(s.inFlight)|
  }

  lemma FlaggedUpdate(inFlight: seq<bool>, i: nat)
    requires i < |inFlight|
    ensures |Flagged(inFlight[i := true])| == |Flagged(inFlight)| + if inFlight[i] then 0 else 1
    ensures |Flagged(inFlight[i := false])| == |Flagged(inFlight)| - if inFlight[i] then 1 else 0
  {
    var flagged: set<int> := Flagged(inFlight);
    assert Flagged(inFlight[i := true]) == flagged + {i};
    assert Flagged(inFlight[i := false]) == flagged - {i};
    if inFlight[i] {
      assert i in flagged;
      assert flagged + {i} == flagged && |flagged - {i}| == |flagged| - 1;
    } else {
      assert i !in flagged;
      assert flagged - {i} == flagged && |flagged + {i}| == |flagged| + 1;
    }
  }

  lemma {:induction false} FlaggedSize(inFlight: seq<bool>)
    ensures |Flagged(inFlight)| <= |inFlight|
  {
    if inFlight != [] {
      var n := |inFlight| - 1;
      FlaggedSize(inFlight[..n]);
      assert Flagged(inFlight) == Flagged(inFlight[..n]) + if inFlight[n] then {n} else {};
    }
  }

  lemma ReceiveOwed<T>(s: Server<T>, r: Request<T>, id: RpcId)
    requires |s.inFlight| == CAPACITY && Ready(s, Receive(r)) && !s.inFlight[r.id]
    ensures Owed(Step(s, Receive(r)), id) == Owed(s, id) + if id == r.id then 1 else 0
  {
    CountPush(s.running, r, RequestHas(id));
  }

  lemma ReceiveConsistent<T>(s: Server<T>, r: Request<T>)
    requires Consistent(s) && Ready(s, Receive(r))
    ensures Consistent(Step(s, Receive(r)))
  {
    var s' := Step(s, Receive(r));
    if !s.inFlight[r.id] {
      FlaggedUpdate(s.inFlight, r.id);
      forall id: RpcId ensures Owed(s', id) == if s'.inFlight[id] then 1 else 0 {
        ReceiveOwed(s, r, id);
        assert Owed(s, id) == if s.inFlight[id] then 1 else 0;
      }
    }
  }

  lemma FinishConsistent<T>(s: Server<T>, k: nat, output: Output)
    requires Consistent(s) && Ready(s, Finish(k, output))
    ensures Consistent(Step(s, Finish(k, output)))
  {
    var s' := Step(s, Finish(k, output));
    var task := s.running[k];
    forall id: RpcId ensures Owed(s', id) == Owed(s, id) {
      CountWithout(s.running, k, RequestHas(id));
      CountPush(s.queue, Response(task.id, output, task.origin), ResponseHas(id));
    }
  }

  lemma PanicConsistent<T>(s: Server<T>, k: nat)
    requires Consistent(s) && Ready(s, Panic(k))
    ensures Consistent(Step(s, Panic(k)))
  {
    var s' := Step(s, Panic(k));
    forall id: RpcId ensures Owed(s', id) == Owed(s, id) {
      CountWithout(s.running, k, RequestHas(id));
      CountPush(s.panicked, s.running[k], RequestHas(id));
    }
  }

  lemma DequeueConsistent<T>(s: Server<T>)
    requires Consistent(s) && Ready(s, Dequeue)
    ensures s.inFlight[s.queue[0].id]
    ensures Consistent(Step(s, Dequeue))
  {
    var s' := Step(s, Dequeue);
    var done := s.queue[0].id;
    CountAt(s.queue, 0, ResponseHas(done));
    assert Owed(s, done) >= 1;
    FlaggedUpdate(s.inFlight, done);
    forall id: RpcId ensures Owed(s', id) == Owed(s, id) - if id == done then 1 else 0 {
      CountPop(s.queue, ResponseHas(id));
    }
  }

  lemma StepConsistent<T>(s: Server<T>, input: Input<T>)
    requires Consistent(s) && Ready(s, input)
    ensures Consistent(Step(s, input))
  {
    match input
    case Receive(r) => ReceiveConsistent(s, r);
    case Finish(k, output) => FinishConsistent(s, k, output);
    case Panic(k) => PanicConsistent(s, k);
    case Dequeue => DequeueConsistent(s);
    case SendDone => assert forall id: RpcId :: Owed(Step(s, input), id) == Owed(s, id);
  }

  lemma InitialConsistent<T>()
    ensures Consistent(Initial<T>())
  {
    assert forall id: RpcId :: Owed(Initial<T>(), id) == 0;
    assert Flagged(Initial<T>().inFlight) == {};
  }

  /** A run on any inputs, so against any client. */
  ghost predicate IsRun<T(!new)>(ss: seq<Server<T>>, inputs: seq<Input<T>>) {
    && |ss| == |inputs| + 1
    && ss[0] == Initial<T>()
    && forall i | 0 <= i < |inputs| ::
         |ss[i].inFlight| == CAPACITY && Ready(ss[i], inputs[i]) && ss[i + 1] == Step(ss[i], inputs[i])
  }

  /** Whatever the client sends: the running handlers and the queued responses have pairwise
      distinct ids, all flagged in flight; together with the panicked tasks they are exactly
      the flagged ids. So the unbounded response channel never holds more than 256. */
  lemma {:induction false} ServerBound<T(!new)>(ss: seq<Server<T>>, inputs: seq<Input<T>>, i: nat)
    requires IsRun(ss, inputs) && i < |ss|
    ensures Consistent(ss[i])
    ensures forall id: RpcId :: Count(ss[i].running, RequestHas(id)) + Count(ss[i].queue, ResponseHas(id))
                                <= if ss[i].inFlight[id] then 1 else 0
    ensures |ss[i].running| + |ss[i].queue| + |ss[i].panicked| == |Flagged(ss[i].inFlight)| <= CAPACITY
  {
    if i == 0 {
      InitialConsistent<T>();
    } else {
      ServerBound(ss, inputs, i - 1);
      StepConsistent(ss[i - 1], inputs[i - 1]);
    }
    var s := ss[i];
    FlaggedSize(s.inFlight);
    forall id: RpcId
      ensures Count(s.running, RequestHas(id)) + Count(s.queue, ResponseHas(id)) <= if s.inFlight[id] then 1 else 0
    {
      assert Owed(s, id) == if s.inFlight[id] then 1 else 0;
    }
  }

  /** The responses of the handler tasks that ended in the first `i` inputs. */
  ghost function Finished<T>(ss: seq<Server<T>>, inputs: seq<Input<T>>, i: nat): seq<Response<T>>
    requires i <= |inputs| < |ss|
  {
    if i == 0 then []
    else
      match inputs[i - 1]
      case Finish(k, output) =>
        if k < |ss[i - 1].running| then
          Finished(ss, inputs, i - 1) + [Response(ss[i - 1].running[k].id, output, ss[i - 1].running[k].origin)]
        else Finished(ss, inputs, i - 1)
      case _ => Finished(ss, inputs, i - 1)
  }

  /** The responses that the loop took out to send. */
  ghost function TakenOut<T>(ss: seq<Server<T>>, inputs: seq<Input<T>>, i: nat): seq<Response<T>>
    requires i <= |inputs| < |ss|
  {
    if i == 0 then []
    else if inputs[i - 1].Dequeue? && ss[i].responding.Some? then
      TakenOut(ss, inputs, i - 1) + [ss[i].responding.value]
    else TakenOut(ss, inputs, i - 1)
  }

  /** Against any client, responses are sent in the order in which the handler tasks ended,
      each once: those taken out and then those queued are exactly those finished. */
  lemma {:induction false} ResponsesInOrder<T(!new)>(ss: seq<Server<T>>, inputs: seq<Input<T>>, i: nat)
    requires IsRun(ss, inputs) && i < |ss|
    ensures TakenOut(ss, inputs, i) + ss[i].queue == Finished(ss, inputs, i)
  {
    if i > 0 {
      ResponsesInOrder(ss, inputs, i - 1);
      var s, s' := ss[i - 1], ss[i];
      match inputs[i - 1]
      case Finish(k, output) =>
        assert s'.queue == s.queue + [Response(s.running[k].id, output, s.running[k].origin)];
      case Dequeue =>
        assert s'.responding == Some(s.queue[0]) && s.queue == [s.queue[0]] + s'.queue;
        assert TakenOut(ss, inputs, i) == TakenOut(ss, inputs, i - 1) + [s.queue[0]];
      case _ =>
        assert s'.queue == s.queue;
        assert TakenOut(ss, inputs, i) == TakenOut(ss, inputs, i - 1);
    }
  }

  // ---------- Origins are inert ----------

  function EraseRequests<T>(rs: seq<Request<T>>): seq<Request<()>> {
    seq(|rs|, i requires 0 <= i < |rs| => Request(rs[i].id, rs[i].internal, ()))
  }

  function EraseResponses<T>(rs: seq<Response<T>>): seq<Response<()>> {
    seq(|rs|, i requires 0 <= i < |rs| => Response(rs[i].id, rs[i].output, ()))
  }

  function Erase<T>(s: Server<T>): Server<()> {
    Server(
      s.inFlight,
      EraseRequests(s.running),
      EraseResponses(s.queue),
      if s.responding.None? then None else Some(Response(s.responding.value.id, s.responding.value.output, ())),
      EraseRequests(s.panicked))
  }

  function EraseInput<T>(input: Input<T>): Input<()> {
    match input
    case Receive(r) => Receive(Request(r.id, r.internal, ()))
    case Finish(k, output) => Finish(k, output)
    case Panic(k) => Panic(k)
    case Dequeue => Dequeue
    case SendDone => SendDone
  }

  /** Tracking origins changes nothing: the server with origins does, step for step, what
      the program does without them. */
  lemma OriginsAreInert<T>(s: Server<T>, input: Input<T>)
    requires |s.inFlight| == CAPACITY
    ensures Ready(s, input) <==> Ready(Erase(s), EraseInput(input))
    ensures Ready(s, input) ==> Erase(Step(s, input)) == Step(Erase(s), EraseInput(input))
  {
    if Ready(s, input) {
      var a, b := Erase(Step(s, input)), Step(Erase(s), EraseInput(input));
      assert a.running == b.running;
      assert a.queue == b.queue;
      assert a.panicked == b.panicked;
    }
  }

  // ---------- The loop itself ----------

  /** The connection's state as the program keeps it, with `in_flight` a fixed array. */
  class ConnectionLoop<T> {
    const inFlight: array<bool>
    var running: seq<Request<T>>
    var queue: seq<Response<T>>
    var responding: Option<Response<T>>
    var panicked: seq<Request<T>>

    ghost predicate Valid()
      reads this
    {
      inFlight.Length == CAPACITY
    }

    ghost function View(): (s: Server<T>)
      reads this, inFlight
    {
      Server(inFlight[..], running, queue, responding, panicked)
    }

    constructor ()
      ensures Valid() && fresh(inFlight)
      ensures View() == Initial()
    {
      inFlight := new bool[CAPACITY](_ => false);
      running, queue, responding, panicked := [], [], None, [];
      new;
      assert inFlight[..] == Initial<T>().inFlight;
    }

    /** A decoded request arrives: ignored when its id is in flight, else a task is spawned. */
    method OnRequest(r: Request<T>)
      requires Valid() && responding.None?
      modifies this, inFlight
      ensures Valid()
      ensures View() == old(Step(View(), Receive(r)))
    {
      if inFlight[r.id] {
        return;
      }
      inFlight[r.id] := true;
      running := running + [r];
    }

    /** A handler task ends with an output and sends it into the channel. */
    method OnFinish(k: nat, output: Output)
      requires Valid() && k < |running|
      modifies this
      ensures Valid()
      ensures View() == old(Step(View(), Finish(k, output)))
    {
      queue := queue + [Response(running[k].id, output, running[k].origin)];
      running := Without(running, k);
    }

    /** A handler task panics: nothing is sent and the flag stays set. */
    method OnPanic(k: nat)
      requires Valid() && k < |running|
      modifies this
      ensures Valid()
      ensures View() == old(Step(View(), Panic(k)))
    {
      panicked := panicked + [running[k]];
      running := Without(running, k);
    }

    /** The arm that takes a response from the channel, up to the await of `send_msg`. */
    method OnResponse() returns (msg: Response<T>)
      requires Valid() && responding.None? && queue != []
      modifies this, inFlight
      ensures Valid()
      ensures msg == old(queue[0])
      ensures View() == old(Step(View(), Dequeue))
    {
      msg := queue[0];
      queue := queue[1..];
      inFlight[msg.id] := false;
      responding := Some(msg);
    }

    /** `send_msg` has returned, with or without success. */
    method OnSendDone()
      requires Valid() && responding.Some?
      modifies this
      ensures Valid()
      ensures View() == old(Step(View(), SendDone))
    {
      responding := None;
    }
  }
}
