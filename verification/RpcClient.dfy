/** The client's half of the RPC multiplexer: the loop of `Client::connect` in
    `src/client.rs`, against a server that may answer anything. */
module RpcClient {
  import opened Wire
  import opened Counting

  /** The identity of a one-shot completion sender: the k-th request taken from the
      application brings sender k. */
  type Sender = nat

  /** Where the loop stands. `Sending` is the await of `stream.send` before the message is
      on the wire; `Sent` is after it is, with the slot still empty. */
  datatype Phase =
    | Idle
    | Sending(id: RpcId, tx: Sender, internal: Bytes)
    | Sent(id: RpcId, tx: Sender)

  /** The outcome of serialising and compressing a request. */
  datatype Encoding = Encoded | SerializeFailed | CompressFailed

  datatype Completion = Completion(tx: Sender, output: Output)

  /** `slots` is `active_rpc_calls`; `requests` are the calls taken from the application so
      far and `completions` what their senders were given, in order. */
  datatype Client = Client(
    slots: seq<Option<Sender>>,
    phase: Phase,
    requests: seq<Bytes>,
    completions: seq<Completion>)

  datatype Input =
    | Take(internal: Bytes, encoding: Encoding)
    | WireAccepts
    | SendFails
    | FillSlot
    | Deliver(id: RpcId, output: Output)

  function Initial(): Client {
    Client(seq(CAPACITY, _ => None), Idle, [], [])
  }

  /** The lowest free index from `i` on. */
  function FirstFree(slots: seq<Option<Sender>>, i: nat): (r: Option<nat>)
    requires i <= |slots|
    ensures r.Some? ==> i <= r.value < |slots| && slots[r.value].None?
    ensures r.Some? ==> forall j | i <= j < r.value :: slots[j].Some?
    ensures r.None? ==> forall j | i <= j < |slots| :: slots[j].Some?
    decreases |slots| - i
  {
    if i == |slots| then None
    else if slots[i].None? then Some(i)
    else FirstFree(slots, i + 1)
  }

  function Complete(c: Client, tx: Sender, output: Output): Client {
    c.(completions := c.completions + [Completion(tx, output)])
  }

  predicate Ready(c: Client, input: Input) {
    match input
    case Take(_, _) => c.phase.Idle?
    case WireAccepts => c.phase.Sending?
    case SendFails => c.phase.Sending?
    case FillSlot => c.phase.Sent?
    case Deliver(_, _) => c.phase.Idle?
  }

  function TakeRequest(c: Client, internal: Bytes, encoding: Encoding): Client
    requires |c.slots| == CAPACITY
  {
    var tx := |c.requests|;
    var taken := c.(requests := c.requests + [internal]);
    match FirstFree(c.slots, 0)
    case None => Complete(taken, tx, Err(TooManyCallsInFlight))
    case Some(id) =>
      match encoding
      case SerializeFailed => Complete(taken, tx, Err(ClientEncodeError))
      case CompressFailed => Complete(taken, tx, Err(ClientCompressError))
      case Encoded => taken.(phase := Sending(id, tx, internal))
  }

  function DeliverResponse(c: Client, id: RpcId, output: Output): Client
    requires |c.slots| == CAPACITY
  {
    if c.slots[id].Some? then Complete(c.(slots := c.slots[id := None]), c.slots[id].value, output) else c
  }

  function Step(c: Client, input: Input): Client
    requires |c.slots| == CAPACITY
    requires Ready(c, input)
  {
    match input
    case Take(internal, encoding) => TakeRequest(c, internal, encoding)
    case WireAccepts => c.(phase := Sent(c.phase.id, c.phase.tx))
    case SendFails => Complete(c.(phase := Idle), c.phase.tx, Err(ClientNotConnected))
    case FillSlot => c.(slots := c.slots[c.phase.id := Some(c.phase.tx)], phase := Idle)
    case Deliver(id, output) => DeliverResponse(c, id, output)
  }

  // ---------- Conservation ----------

  ghost function SlotHolds(tx: Sender): Option<Sender> -> bool {
    (o: Option<Sender>) => o == Some(tx)
  }

  ghost function Completes(tx: Sender): Completion -> bool {
    (c: Completion) => c.tx == tx
  }

  /** How many slots hold sender `tx`. */
  ghost function InSlots(slots: seq<Option<Sender>>, tx: Sender): nat {
    Count(slots, SlotHolds(tx))
  }

  /** How often sender `tx` was completed. */
  ghost function TimesCompleted(completions: seq<Completion>, tx: Sender): nat {
    Count(completions, Completes(tx))
  }

  ghost function InPhase(p: Phase, tx: Sender): nat {
    if !p.Idle? && p.tx == tx then 1 else 0
  }

  /** In how many places sender `tx` is. */
  ghost function Places(c: Client, tx: Sender): nat {
    TimesCompleted(c.completions, tx) + InSlots(c.slots, tx) + InPhase(c.phase, tx)
  }

  ghost function Occupied(slots: seq<Option<Sender>>): set<int> {
    set i | 0 <= i < |slots| && slots[i].Some?
  }

  ghost predicate Accounted(c: Client) {
    && |c.slots| == CAPACITY
    && (!c.phase.Idle? ==> c.slots[c.phase.id].None?)
    && (forall tx: Sender :: Places(c, tx) == if tx < |c.requests| then 1 else 0)
    && |c.requests| == |c.completions| + |Occupied(c.slots)| + if c.phase.Idle? then 0 else 1
  }

  lemma {:induction false} OccupiedSize(slots: seq<Option<Sender>>)
    ensures |Occupied(slots)| <= |slots|
    ensures |Occupied(slots)| == |slots| <==> forall i | 0 <= i < |slots| :: slots[i].Some?
  {
    if slots != [] {
      var n := |slots| - 1;
      OccupiedSize(slots[..n]);
      assert Occupied(slots) == Occupied(slots[..n]) + if slots[n].Some? then {n} else {};
    }
  }

  lemma OccupiedUpdate(slots: seq<Option<Sender>>, i: nat, tx: Sender)
    requires i < |slots|
    ensures Occupied(slots[i := Some(tx)]) == Occupied(slots) + {i}
    ensures Occupied(slots[i := None]) == Occupied(slots) - {i}
  {
  }

  lemma CompletePlaces(c: Client, tx: Sender, output: Output)
    ensures forall x :: Places(Complete(c, tx, output), x) == Places(c, x) + if x == tx then 1 else 0
  {
    forall x ensures Places(Complete(c, tx, output), x) == Places(c, x) + if x == tx then 1 else 0 {
      CountPush(c.completions, Completion(tx, output), Completes(x));
    }
  }

  lemma InitialAccounted()
    ensures Accounted(Initial())
  {
    forall tx: Sender ensures Places(Initial(), tx) == 0 {
      CountNone(Initial().slots, SlotHolds(tx));
    }
    assert Occupied(Initial().slots) == {};
  }

  lemma TakeKeepsAccount(c: Client, internal: Bytes, encoding: Encoding)
    requires Accounted(c) && c.phase.Idle?
    ensures Accounted(TakeRequest(c, internal, encoding))
  {
    var taken := c.(requests := c.requests + [internal]);
    var c' := TakeRequest(c, internal, encoding);
    assert forall x :: Places(taken, x) == Places(c, x);
    if c'.phase.Idle? {
      CompletePlaces(taken, |c.requests|, c'.completions[|c.completions|].output);
    } else {
      assert forall x :: Places(c', x) == Places(c, x) + if x == |c.requests| then 1 else 0;
    }
  }

  lemma FillKeepsAccount(c: Client)
    requires Accounted(c) && c.phase.Sent?
    ensures Accounted(Step(c, FillSlot))
  {
    var c' := Step(c, FillSlot);
    OccupiedUpdate(c.slots, c.phase.id, c.phase.tx);
    forall x: Sender ensures Places(c', x) == Places(c, x) {
      CountUpdate(c.slots, c.phase.id, Some(c.phase.tx), SlotHolds(x));
    }
  }

  lemma DeliverKeepsAccount(c: Client, id: RpcId, output: Output)
    requires Accounted(c) && c.phase.Idle?
    ensures Accounted(DeliverResponse(c, id, output))
  {
    if c.slots[id].Some? {
      var tx := c.slots[id].value;
      var freed := c.(slots := c.slots[id := None]);
      OccupiedUpdate(c.slots, id, tx);
      forall x: Sender ensures Places(freed, x) == Places(c, x) - if x == tx then 1 else 0 {
        CountUpdate(c.slots, id, None, SlotHolds(x));
      }
      CompletePlaces(freed, tx, output);
    }
  }

  lemma SendFailsKeepsAccount(c: Client)
    requires Accounted(c) && c.phase.Sending?
    ensures Accounted(Step(c, SendFails))
  {
    var idle := c.(phase := Idle);
    assert forall x :: Places(idle, x) == Places(c, x) - if x == c.phase.tx then 1 else 0;
    CompletePlaces(idle, c.phase.tx, Err(ClientNotConnected));
  }

  lemma StepKeepsAccount(c: Client, input: Input)
    requires Accounted(c) && Ready(c, input)
    ensures Accounted(Step(c, input))
  {
    match input
    case Take(internal, encoding) => TakeKeepsAccount(c, internal, encoding);
    case WireAccepts => assert forall x :: Places(Step(c, input), x) == Places(c, x);
    case SendFails => SendFailsKeepsAccount(c);
    case FillSlot => FillKeepsAccount(c);
    case Deliver(id, output) => DeliverKeepsAccount(c, id, output);
  }

  /** A run of the loop on any inputs, so against any server. */
  ghost predicate IsRun(cs: seq<Client>, inputs: seq<Input>) {
    && |cs| == |inputs| + 1
    && cs[0] == Initial()
    && forall i | 0 <= i < |inputs| ::
         |cs[i].slots| == CAPACITY && Ready(cs[i], inputs[i]) && cs[i + 1] == Step(cs[i], inputs[i])
  }

  /** Whatever the server sends, every call taken from the application is in exactly one
      place: completed (once), in one slot, or being sent. Between two inputs of the loop
      the calls received are the calls completed plus the occupied slots. */
  lemma {:induction false} ClientConservation(cs: seq<Client>, inputs: seq<Input>, i: nat)
    requires IsRun(cs, inputs) && i < |cs|
    ensures Accounted(cs[i])
    ensures forall tx: Sender | tx < |cs[i].requests| ::
              TimesCompleted(cs[i].completions, tx) + InSlots(cs[i].slots, tx) + InPhase(cs[i].phase, tx) == 1
    ensures cs[i].phase.Idle? ==> |cs[i].requests| == |cs[i].completions| + |Occupied(cs[i].slots)|
  {
    if i == 0 {
      InitialAccounted();
    } else {
      ClientConservation(cs, inputs, i - 1);
      StepKeepsAccount(cs[i - 1], inputs[i - 1]);
    }
    var c := cs[i];
    forall tx: Sender | tx < |c.requests|
      ensures TimesCompleted(c.completions, tx) + InSlots(c.slots, tx) + InPhase(c.phase, tx) == 1
    {
      assert Places(c, tx) == 1;
    }
  }

  /** A request is refused with `TooManyCallsInFlight` exactly when all 256 slots are taken;
      otherwise its id is the lowest free one, or it is completed with the error of the stage
      that failed. No slot changes before the request is sent. */
  lemma RefusedIffFull(c: Client, internal: Bytes, encoding: Encoding)
    requires |c.slots| == CAPACITY && c.phase.Idle?
    ensures var c' := Step(c, Take(internal, encoding));
            && c'.slots == c.slots && c'.requests == c.requests + [internal]
            && (c'.completions == c.completions + [Completion(|c.requests|, Err(TooManyCallsInFlight))]
                <==> |Occupied(c.slots)| == CAPACITY)
            && (|Occupied(c.slots)| < CAPACITY ==>
                  match encoding
                  case Encoded =>
                    && c'.phase == Sending(c'.phase.id, |c.requests|, internal) && c'.completions == c.completions
                    && c.slots[c'.phase.id].None? && forall j | 0 <= j < c'.phase.id :: c.slots[j].Some?
                  case SerializeFailed =>
                    c' == Complete(c.(requests := c'.requests), |c.requests|, Err(ClientEncodeError))
                  case CompressFailed =>
                    c' == Complete(c.(requests := c'.requests), |c.requests|, Err(ClientCompressError)))
  {
    OccupiedSize(c.slots);
    var c' := Step(c, Take(internal, encoding));
    if FirstFree(c.slots, 0).Some? && !encoding.Encoded? {
      assert c'.completions[|c.completions|].output != Err(TooManyCallsInFlight);
    }
  }

  /** The step gives some call the error `e`. */
  ghost predicate Fails(c: Client, c': Client, e: RpcHandlerError) {
    |c'.completions| == |c.completions| + 1 && c'.completions[|c.completions|].output == Err(e)
  }

  /** All slots are taken, so the request that comes cannot be given an id. */
  ghost predicate TakenWhenFull(c: Client, input: Input) {
    input.Take? && |Occupied(c.slots)| == CAPACITY
  }

  /** Encoding the request fails as `encoding` says, with a free slot for it. */
  ghost predicate EncodingFails(c: Client, input: Input, encoding: Encoding) {
    input.Take? && |Occupied(c.slots)| < CAPACITY && input.encoding == encoding
  }

  /** Over every run, against any server: which step makes which completion. An error that no
      response brought is `TooManyCallsInFlight` if and only if a request came with all 256
      slots taken, `ClientEncodeError` or `ClientCompressError` if and only if a slot was free
      and that stage failed, `ClientNotConnected` if and only if a send failed. A response
      completes the call in its slot, and without one it changes nothing. */
  lemma WhyCompleted(cs: seq<Client>, inputs: seq<Input>, j: nat)
    requires IsRun(cs, inputs) && j < |inputs|
    ensures cs[j].completions <= cs[j + 1].completions && |cs[j + 1].completions| <= |cs[j].completions| + 1
    ensures !inputs[j].Deliver? ==>
              && (Fails(cs[j], cs[j + 1], TooManyCallsInFlight) <==> TakenWhenFull(cs[j], inputs[j]))
              && (Fails(cs[j], cs[j + 1], ClientEncodeError) <==> EncodingFails(cs[j], inputs[j], SerializeFailed))
              && (Fails(cs[j], cs[j + 1], ClientCompressError) <==> EncodingFails(cs[j], inputs[j], CompressFailed))
              && (Fails(cs[j], cs[j + 1], ClientNotConnected) <==> inputs[j].SendFails?)
              && (cs[j + 1].completions != cs[j].completions ==>
                    || TakenWhenFull(cs[j], inputs[j]) || inputs[j].SendFails?
                    || EncodingFails(cs[j], inputs[j], SerializeFailed)
                    || EncodingFails(cs[j], inputs[j], CompressFailed))
    ensures inputs[j].Deliver? ==>
              match cs[j].slots[inputs[j].id]
              case None => cs[j + 1] == cs[j]
              case Some(tx) =>
                && cs[j + 1].completions == cs[j].completions + [Completion(tx, inputs[j].output)]
                && cs[j + 1].slots[inputs[j].id].None?
                && forall id: RpcId | id != inputs[j].id :: cs[j + 1].slots[id] == cs[j].slots[id]
  {
    OccupiedSize(cs[j].slots);
  }

  // ---------- The loop itself ----------

  /** The loop's state as the program keeps it: a fixed array of 256 optional senders that
      is scanned, filled and taken from in place. */
  class ClientLoop {
    const slots: array<Option<Sender>>
    var phase: Phase
    var requests: seq<Bytes>
    var completions: seq<Completion>

    ghost predicate Valid()
      reads this
    {
      slots.Length == CAPACITY
    }

    ghost function View(): (c: Client)
      reads this, slots
    {
      Client(slots[..], phase, requests, completions)
    }

    constructor ()
      ensures Valid() && fresh(slots)
      ensures View() == Initial()
    {
      slots := new Option<Sender>[CAPACITY](_ => None);
      phase, requests, completions := Idle, [], [];
      new;
      assert slots[..] == Initial().slots;
    }

    /** The first free id, scanning from 0 (`iter().position`). */
    method FindFree() returns (id: Option<nat>)
      requires Valid()
      ensures id == FirstFree(slots[..], 0)
    {
      var i := 0;
      while i < slots.Length
        invariant i <= slots.Length
        invariant FirstFree(slots[..], 0) == FirstFree(slots[..], i)
      {
        if slots[i].None? {
          return Some(i);
        }
        i := i + 1;
      }
      id := None;
    }

    /** The arm that takes a request from the application, up to the await of the send. */
    method OnRequest(internal: Bytes, encoding: Encoding)
      requires Valid() && phase.Idle?
      modifies this
      ensures Valid()
      ensures View() == old(Step(View(), Take(internal, encoding)))
    {
      var tx := |requests|;
      requests := requests + [internal];
      var free := FindFree();
      if free.Some? {
        match encoding {
          case SerializeFailed => completions := completions + [Completion(tx, Err(ClientEncodeError))];
          case CompressFailed => completions := completions + [Completion(tx, Err(ClientCompressError))];
          case Encoded => phase := Sending(free.value, tx, internal);
        }
      } else {
        completions := completions + [Completion(tx, Err(TooManyCallsInFlight))];
      }
    }

    /** The send puts the message on the wire. */
    method OnWireAccepts() returns (msg: Request<Sender>)
      requires Valid() && phase.Sending?
      modifies this
      ensures Valid()
      ensures msg == old(Request(phase.id, phase.internal, phase.tx))
      ensures View() == old(Step(View(), WireAccepts))
    {
      msg := Request(phase.id, phase.internal, phase.tx);
      phase := Sent(phase.id, phase.tx);
    }

    /** The send reports an error. */
    method OnSendFails()
      requires Valid() && phase.Sending?
      modifies this
      ensures Valid()
      ensures View() == old(Step(View(), SendFails))
      ensures completions == old(completions) + [Completion(old(phase.tx), Err(ClientNotConnected))]
    {
      completions := completions + [Completion(phase.tx, Err(ClientNotConnected))];
      phase := Idle;
    }

    /** The send has returned: the slot is filled. */
    method OnSent()
      requires Valid() && phase.Sent?
      modifies this, slots
      ensures Valid()
      ensures View() == old(Step(View(), FillSlot))
    {
      slots[phase.id] := Some(phase.tx);
      phase := Idle;
    }

    /** The arm that receives a response: `take` the slot and complete its sender. */
    method OnResponse(id: RpcId, output: Output)
      requires Valid() && phase.Idle?
      modifies this, slots
      ensures Valid()
      ensures View() == old(Step(View(), Deliver(id, output)))
    {
      var taken := slots[id];
      slots[id] := None;
      if taken.Some? {
        completions := completions + [Completion(taken.value, output)];
      } else {
        assert slots[..] == old(slots[..]);
      }
    }
  }
}
