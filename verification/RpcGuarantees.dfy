/** What the RPC multiplexer guarantees over whole runs. */
module RpcGuarantees {
  import opened Wire
  import opened Counting
  import opened RpcClient
  import opened RpcSystem
  import opened RpcInvariant
  import RpcServer

  lemma {:induction false} RunInv(r: Run, i: nat)
    requires RpcSystem.IsRun(r) && i < |r.states|
    ensures Inv(r.states[i])
  {
    if i == 0 {
      InitInv();
    } else {
      RunInv(r, i - 1);
      assert StepAt(r, i - 1);
      StepInv(r.states[i - 1], r.steps[i - 1]);
    }
  }

  // ---------- Matching ----------

  /** At step `j` the handler task of call `tx` ends: it was given `internal` and computed
      `output`. */
  ghost predicate Executes(r: Run, j: nat, tx: Sender, internal: Bytes, output: Output)
    requires RpcSystem.IsRun(r) && j < |r.steps|
  {
    && r.steps[j].Finish?
    && r.steps[j].output == output
    && r.steps[j].task < |r.states[j].server.running|
    && r.states[j].server.running[r.steps[j].task] == Request(
         r.states[j].server.running[r.steps[j].task].id, internal, tx)
  }

  lemma StepExtends(s: System, step: Step)
    requires Sized(s) && Enabled(s, step)
    ensures s.client.requests <= Next(s, step).client.requests
    ensures s.server.panicked <= Next(s, step).server.panicked
    ensures s.dropped <= Next(s, step).dropped
  {
  }

  lemma {:induction false} ExecutedEarlier(r: Run, i: nat, tx: Sender)
    requires RpcSystem.IsRun(r) && i < |r.states| && tx in r.states[i].executed
    ensures exists j: nat | j < i ::
              Executes(r, j, tx, r.states[i].executed[tx].internal, r.states[i].executed[tx].output)
  {
    var step := r.steps[i - 1];
    assert StepAt(r, i - 1);
    if step.Finish? && r.states[i - 1].server.running[step.task].origin == tx {
      assert Executes(r, i - 1, tx, r.states[i].executed[tx].internal, r.states[i].executed[tx].output);
    } else {
      ExecutedEarlier(r, i - 1, tx);
    }
  }

  /** In every run, with any completion order, id reuse, losses and panics: a response the
      client reads completes one call, the call whose own request bytes an earlier handler
      task was given, with exactly the output that task computed. */
  lemma ResponseCompletesItsOwnCall(r: Run, i: nat)
    requires RpcSystem.IsRun(r) && i < |r.steps| && r.steps[i].ClientReceive?
    ensures exists tx: Sender, output: Output, j: nat | j < i && tx < |r.states[i].client.requests| ::
              && r.states[i + 1].client.completions == r.states[i].client.completions + [Completion(tx, output)]
              && Executes(r, j, tx, r.states[i].client.requests[tx], output)
  {
    var s := r.states[i];
    assert StepAt(r, i);
    var msg := s.toClient[0];
    RunInv(r, i);
    ResponseFindsItsCall(s, 0);
    assert msg in s.toClient;
    ExecutedEarlier(r, i, msg.origin);
    var j: nat :| j < i && Executes(r, j, msg.origin, s.executed[msg.origin].internal, s.executed[msg.origin].output);
    assert Executes(r, j, msg.origin, s.client.requests[msg.origin], msg.output);
    assert r.states[i + 1].client.completions == s.client.completions + [Completion(msg.origin, msg.output)];
  }

  lemma TaskNotExecuted(s: System, k: nat)
    requires Inv(s) && k < |s.server.running|
    ensures s.server.running[k].origin !in s.executed
  {
    assert s.server.running[k] in s.server.running;
  }

  lemma StepKeepsExecutions(s: System, step: Step, tx: Sender)
    requires Inv(s) && Enabled(s, step) && tx in s.executed
    ensures tx in Next(s, step).executed && Next(s, step).executed[tx] == s.executed[tx]
  {
    if step.Finish? {
      TaskNotExecuted(s, step.task);
    }
  }

  lemma {:induction false} ExecutedStays(r: Run, i: nat, j: nat, tx: Sender)
    requires RpcSystem.IsRun(r) && i <= j < |r.states| && tx in r.states[i].executed
    ensures tx in r.states[j].executed && r.states[j].executed[tx] == r.states[i].executed[tx]
    decreases j
  {
    if i < j {
      ExecutedStays(r, i, j - 1, tx);
      RunInv(r, j - 1);
      assert StepAt(r, j - 1);
      StepKeepsExecutions(r.states[j - 1], r.steps[j - 1], tx);
    }
  }

  /** No call's handler runs to completion twice. */
  lemma HandlerRunsAtMostOnce(
    r: Run, i: nat, j: nat, tx: Sender, internal: Bytes, internal': Bytes, output: Output, output': Output)
    requires RpcSystem.IsRun(r) && i < |r.steps| && j < |r.steps|
    requires Executes(r, i, tx, internal, output) && Executes(r, j, tx, internal', output')
    ensures i == j
  {
    RunInv(r, i);
    RunInv(r, j);
    assert StepAt(r, i) && StepAt(r, j);
    TaskNotExecuted(r.states[i], r.steps[i].task);
    TaskNotExecuted(r.states[j], r.steps[j].task);
    if i < j {
      ExecutedStays(r, i + 1, j, tx);
    } else if j < i {
      ExecutedStays(r, j + 1, i, tx);
    }
  }

  predicate ClientSideError(output: Output) {
    output in {Err(TooManyCallsInFlight), Err(ClientEncodeError), Err(ClientCompressError), Err(ClientNotConnected)}
  }

  /** A completion is what the call's handler computed from the call's own bytes, or, if the
      handler never ran, an error of the client itself. */
  ghost predicate Answered(s: System, c: Completion) {
    if c.tx in s.executed then
      c.tx < |s.client.requests| && s.executed[c.tx] == Execution(s.client.requests[c.tx], c.output)
    else
      ClientSideError(c.output)
  }

  /** A completed call has no handler task any more. */
  lemma CompletedHasNoTask(s: System, k: nat, task: nat)
    requires Inv(s) && k < |s.client.completions| && task < |s.server.running|
    ensures s.server.running[task].origin != s.client.completions[k].tx
  {
    var tx := s.client.completions[k].tx;
    CountAt(s.client.completions, k, Completes(tx));
    assert Places(s.client, tx) <= 1;
    assert InTransit(s, tx) + Lost(s, tx) == Holdings(s.client, tx);
    NoneLeft(s, tx);
    assert s.server.running[task] in s.server.running;
  }

  lemma StepKeepsAnswer(s: System, step: Step, k: nat)
    requires Inv(s) && Enabled(s, step) && k < |s.client.completions| && Answered(s, s.client.completions[k])
    ensures Answered(Next(s, step), s.client.completions[k])
  {
    var c := s.client.completions[k];
    StepExtends(s, step);
    if c.tx in s.executed {
      StepKeepsExecutions(s, step, c.tx);
    } else if step.Finish? {
      CompletedHasNoTask(s, k, step.task);
    }
  }

  lemma NewCompletion(s: System, step: Step)
    requires Inv(s) && Enabled(s, step)
    ensures var cs, cs' := s.client.completions, Next(s, step).client.completions;
            || cs' == cs
            || (|cs'| == |cs| + 1 && cs <= cs' && Answered(Next(s, step), cs'[|cs|]))
  {
    if step.ClientReceive? {
      ResponseFindsItsCall(s, 0);
      assert s.toClient[0] in s.toClient;
    }
  }

  /** Every completion the application ever sees is what the call's handler task computed from
      the call's own bytes; or else an error raised by its own client, and then the call's
      handler has not run. */
  lemma {:induction false} EveryCompletionIsEarned(r: Run, i: nat, k: nat)
    requires RpcSystem.IsRun(r) && i < |r.states| && k < |r.states[i].client.completions|
    ensures Answered(r.states[i], r.states[i].client.completions[k])
  {
    if i > 0 {
      var s, step := r.states[i - 1], r.steps[i - 1];
      RunInv(r, i - 1);
      assert StepAt(r, i - 1);
      NewCompletion(s, step);
      if k < |s.client.completions| {
        EveryCompletionIsEarned(r, i - 1, k);
        StepKeepsAnswer(s, step, k);
      }
    }
  }

  /** At step `j` the client itself fails call `tx`, for the reason that `output` names. */
  ghost predicate ClientFails(r: Run, j: nat, tx: Sender, output: Output)
    requires RpcSystem.IsRun(r) && j < |r.steps|
  {
    var c := r.states[j].client;
    match r.steps[j]
    case AppCalls(_, encoding) =>
      && tx == |c.requests|
      && (if |Occupied(c.slots)| == CAPACITY then output == Err(TooManyCallsInFlight)
          else || (encoding.SerializeFailed? && output == Err(ClientEncodeError))
               || (encoding.CompressFailed? && output == Err(ClientCompressError)))
    case RequestSendFails => !c.phase.Idle? && tx == c.phase.tx && output == Err(ClientNotConnected)
    case _ => false
  }

  lemma FailsIff(r: Run, j: nat, tx: Sender, output: Output)
    requires RpcSystem.IsRun(r) && j < |r.steps| && !r.steps[j].ClientReceive?
    ensures r.states[j + 1].client.completions == r.states[j].client.completions + [Completion(tx, output)]
            <==> ClientFails(r, j, tx, output)
    ensures r.states[j + 1].client.completions != r.states[j].client.completions ==>
              exists tx, output :: ClientFails(r, j, tx, output)
  {
    assert StepAt(r, j);
    var c, c' := r.states[j].client, r.states[j + 1].client;
    OccupiedSize(c.slots);
    assert c.completions + [Completion(tx, output)] != c.completions by {
      assert |c.completions + [Completion(tx, output)]| != |c.completions|;
    }
    if c'.completions != c.completions {
      var last := c'.completions[|c.completions|];
      assert ClientFails(r, j, last.tx, last.output);
      assert (c.completions + [Completion(tx, output)])[|c.completions|] == Completion(tx, output);
    }
  }

  /** A response completes a call whose handler has run. */
  lemma ReceivedWasExecuted(s: System)
    requires Inv(s) && Enabled(s, ClientReceive)
    ensures s.client.completions < Next(s, ClientReceive).client.completions
    ensures Next(s, ClientReceive).client.completions[|s.client.completions|].tx in s.executed
  {
    ResponseFindsItsCall(s, 0);
    assert s.toClient[0] in s.toClient;
  }

  /** In every run, a completion that no handler computed has its cause: an earlier step at
      which the client failed this very call for the reason the error names. */
  lemma {:induction false} ErrorHasItsCause(r: Run, i: nat, k: nat)
    requires RpcSystem.IsRun(r) && i < |r.states| && k < |r.states[i].client.completions|
    requires r.states[i].client.completions[k].tx !in r.states[i].executed
    ensures var c := r.states[i].client.completions[k];
            exists j: nat | j < i :: ClientFails(r, j, c.tx, c.output)
  {
    var s, s', step := r.states[i - 1], r.states[i], r.steps[i - 1];
    var c := s'.client.completions[k];
    RunInv(r, i - 1);
    assert StepAt(r, i - 1);
    NewCompletion(s, step);
    if k < |s.client.completions| {
      if c.tx in s.executed {
        StepKeepsExecutions(s, step, c.tx);
      }
      ErrorHasItsCause(r, i - 1, k);
    } else {
      assert !step.ClientReceive? by {
        if step.ClientReceive? {
          ReceivedWasExecuted(s);
        }
      }
      FailsIff(r, i - 1, c.tx, c.output);
    }
  }

  lemma {:induction false} RequestsGrow(r: Run, i: nat, j: nat)
    requires RpcSystem.IsRun(r) && i <= j < |r.states|
    ensures r.states[i].client.requests <= r.states[j].client.requests
    decreases j
  {
    if i < j {
      RequestsGrow(r, i, j - 1);
      assert StepAt(r, j - 1);
      StepExtends(r.states[j - 1], r.steps[j - 1]);
    }
  }

  /** A call that the client took at step `a` keeps its bytes and is ever after in exactly one
      place: completed, in a slot, or being sent. */
  lemma SubmittedStays(r: Run, a: nat, i: nat)
    requires RpcSystem.IsRun(r) && a < i < |r.states| && r.steps[a].AppCalls?
    ensures var tx, client := |r.states[a].client.requests|, r.states[i].client;
            && tx < |client.requests| && client.requests[tx] == r.steps[a].internal
            && TimesCompleted(client.completions, tx) + InSlots(client.slots, tx) + InPhase(client.phase, tx) == 1
  {
    var tx := |r.states[a].client.requests|;
    assert StepAt(r, a);
    assert r.states[a + 1].client.requests == r.states[a].client.requests + [r.steps[a].internal];
    RequestsGrow(r, a + 1, i);
    RunInv(r, i);
    assert Places(r.states[i].client, tx) == 1;
  }

  // ---------- Single token ----------

  ghost function KeyHas(id: RpcId): Key -> bool {
    (k: Key) => k.id == id
  }

  /** All messages and tasks, under way or lost, that carry the id. */
  ghost function TokensWithId(s: System, id: RpcId): nat {
    Count(s.toServer, RpcServer.RequestHas(id)) + Count(s.server.running, RpcServer.RequestHas(id))
    + Count(s.server.queue, RpcServer.ResponseHas(id)) + Count(Responding(s), RpcServer.ResponseHas(id))
    + Count(s.toClient, RpcServer.ResponseHas(id)) + Count(s.server.panicked, RpcServer.RequestHas(id))
    + Count(s.dropped, KeyHas(id))
  }

  lemma TokensOfHolder(s: System, id: RpcId, tx: Sender)
    requires Inv(s) && forall t | HeldFor(s.client, id, t) :: t == tx
    ensures TokensWithId(s, id) <= InTransit(s, tx) + Lost(s, tx)
  {
    CountImplies(s.toServer, RpcServer.RequestHas(id), RequestOf(tx));
    CountImplies(s.server.running, RpcServer.RequestHas(id), RequestOf(tx));
    CountImplies(s.server.panicked, RpcServer.RequestHas(id), RequestOf(tx));
    CountImplies(s.server.queue, RpcServer.ResponseHas(id), ResponseOf(tx));
    CountImplies(Responding(s), RpcServer.ResponseHas(id), ResponseOf(tx));
    CountImplies(s.toClient, RpcServer.ResponseHas(id), ResponseOf(tx));
    CountImplies(s.dropped, KeyHas(id), KeyOf(tx));
  }

  lemma TokensStemFromHolder(s: System, id: RpcId, tx: Sender)
    requires Inv(s) && forall t | HeldFor(s.client, id, t) :: t == tx
    ensures AllStemFrom(s, id, tx)
  {
  }

  lemma TokensOfNobody(s: System, id: RpcId)
    requires Inv(s) && forall t :: !HeldFor(s.client, id, t)
    ensures TokensWithId(s, id) == 0
  {
    CountNone(s.toServer, RpcServer.RequestHas(id));
    CountNone(s.server.running, RpcServer.RequestHas(id));
    CountNone(s.server.panicked, RpcServer.RequestHas(id));
    CountNone(s.server.queue, RpcServer.ResponseHas(id));
    CountNone(Responding(s), RpcServer.ResponseHas(id));
    CountNone(s.toClient, RpcServer.ResponseHas(id));
    CountNone(s.dropped, KeyHas(id));
  }

  /** Whatever carries the id, in whatever place, stems from call `tx`. */
  ghost predicate AllStemFrom(s: System, id: RpcId, tx: Sender) {
    && (forall r | r in s.toServer && r.id == id :: r.origin == tx)
    && (forall r | r in s.server.running && r.id == id :: r.origin == tx)
    && (forall r | r in s.server.panicked && r.id == id :: r.origin == tx)
    && (forall r | r in s.server.queue && r.id == id :: r.origin == tx)
    && (forall r | r in Responding(s) && r.id == id :: r.origin == tx)
    && (forall r | r in s.toClient && r.id == id :: r.origin == tx)
    && (forall k | k in s.dropped && k.id == id :: k.origin == tx)
  }

  /** In every reachable state each id has at most one token, and a token or a set flag means
      that the client holds the id for one call: the call that the token stems from, and whose
      only token it is. Hence the server never meets a request whose id is in flight, and the
      client never reads a response for an unknown call. */
  lemma SingleToken(r: Run, i: nat, id: RpcId)
    requires RpcSystem.IsRun(r) && i < |r.states|
    ensures Inv(r.states[i])
    ensures TokensWithId(r.states[i], id) <= 1
    ensures TokensWithId(r.states[i], id) == 1 || r.states[i].server.inFlight[id] ==>
              exists tx ::
                && HeldFor(r.states[i].client, id, tx)
                && InTransit(r.states[i], tx) + Lost(r.states[i], tx) == 1
                && AllStemFrom(r.states[i], id, tx)
    ensures r.states[i].toServer != [] ==>
              !r.states[i].server.inFlight[r.states[i].toServer[0].id]
    ensures r.states[i].toClient != [] && r.states[i].client.phase.Idle? ==>
              r.states[i].client.slots[r.states[i].toClient[0].id] == Some(r.states[i].toClient[0].origin)
  {
    var s := r.states[i];
    RunInv(r, i);
    if tx :| HeldFor(s.client, id, tx) {
      TokensOfHolder(s, id, tx);
      TokensStemFromHolder(s, id, tx);
      AtMostOne(s, tx);
      if s.server.inFlight[id] {
        InFlightHolder(s, id, tx);
      }
    } else {
      TokensOfNobody(s, id);
      assert RpcServer.Owed(s.server, id) == 0;
    }
    if s.toServer != [] {
      RequestNotInFlight(s, 0);
    }
    if s.toClient != [] && s.client.phase.Idle? {
      ResponseFindsItsCall(s, 0);
    }
  }

  // ---------- Losses ----------

  /** Between two steps of the client, the occupied slots are the calls in transit plus the
      calls lost for good. */
  lemma LossAccounting(r: Run, i: nat)
    requires RpcSystem.IsRun(r) && i < |r.states| && !r.states[i].client.phase.Sent?
    ensures |Occupied(r.states[i].client.slots)| == TransitSize(r.states[i]) + LostSize(r.states[i])
  {
    RunInv(r, i);
  }

  ghost predicate IsLost(s: System, id: RpcId, tx: Sender) {
    || (exists k: nat | k < |s.server.panicked| :: s.server.panicked[k].id == id && s.server.panicked[k].origin == tx)
    || (exists k: nat | k < |s.dropped| :: s.dropped[k] == Key(id, tx))
  }

  lemma {:induction false} LossIsPermanent(r: Run, i: nat, j: nat, id: RpcId, tx: Sender)
    requires RpcSystem.IsRun(r) && i <= j < |r.states| && IsLost(r.states[i], id, tx)
    ensures IsLost(r.states[j], id, tx)
    decreases j
  {
    if i < j {
      LossIsPermanent(r, i, j - 1, id, tx);
      var s, s' := r.states[j - 1], r.states[j];
      assert StepAt(r, j - 1);
      StepExtends(s, r.steps[j - 1]);
      if k: nat :| k < |s.server.panicked| && s.server.panicked[k].id == id && s.server.panicked[k].origin == tx {
        assert s'.server.panicked[k] == s.server.panicked[k];
      } else {
        var k: nat :| k < |s.dropped| && s.dropped[k] == Key(id, tx);
        assert s'.dropped[k] == s.dropped[k];
      }
    }
  }

  /** Run `r'` continues `r` by one step, with which the call is lost. */
  ghost predicate LosesNext(r: Run, r': Run, id: RpcId, tx: Sender)
    requires RpcSystem.IsRun(r)
  {
    && RpcSystem.IsRun(r') && |r'.steps| == |r.steps| + 1 && r.states <= r'.states
    && IsLost(r'.states[|r'.steps|], id, tx)
  }

  ghost predicate CanBeLostNext(r: Run, id: RpcId, tx: Sender)
    requires RpcSystem.IsRun(r)
  {
    exists r' :: LosesNext(r, r', id, tx)
  }

  lemma Continue(r: Run, step: Step) returns (r': Run)
    requires RpcSystem.IsRun(r) && Enabled(r.states[|r.steps|], step)
    ensures RpcSystem.IsRun(r') && r'.steps == r.steps + [step] && r.states <= r'.states
    ensures r'.states[|r'.steps|] == Next(r.states[|r.steps|], step)
  {
    var s := r.states[|r.steps|];
    RunInv(r, |r.steps|);
    StepInv(s, step);
    r' := Run(r.states + [Next(s, step)], r.steps + [step]);
    forall i: nat | i < |r'.steps| ensures StepAt(r', i) {
      if i < |r.steps| {
        assert StepAt(r, i);
      }
    }
  }

  /** No stage is safe: in every reachable state each running task may panic, the response being
      sent may fail, and the next message of either direction may turn out undecodable; the
      call is then lost. */
  lemma LossAtEveryStage(r: Run)
    requires RpcSystem.IsRun(r)
    ensures var s := r.states[|r.steps|];
            && (forall k: nat | k < |s.server.running| ::
                  CanBeLostNext(r, s.server.running[k].id, s.server.running[k].origin))
            && (s.server.responding.Some? ==>
                  CanBeLostNext(r, s.server.responding.value.id, s.server.responding.value.origin))
            && (s.server.responding.None? && s.toServer != [] ==>
                  CanBeLostNext(r, s.toServer[0].id, s.toServer[0].origin))
            && (s.client.phase.Idle? && s.toClient != [] ==>
                  CanBeLostNext(r, s.toClient[0].id, s.toClient[0].origin))
  {
    var s := r.states[|r.steps|];
    forall k: nat | k < |s.server.running|
      ensures CanBeLostNext(r, s.server.running[k].id, s.server.running[k].origin)
    {
      var r' := Continue(r, Panic(k));
      assert r'.states[|r'.steps|].server.panicked[|s.server.panicked|] == s.server.running[k];
      assert LosesNext(r, r', s.server.running[k].id, s.server.running[k].origin);
    }
    if s.server.responding.Some? {
      var r' := Continue(r, ResponseSendFails);
      DroppedLast(r, r', s.server.responding.value.id, s.server.responding.value.origin);
    }
    if s.server.responding.None? && s.toServer != [] {
      var r' := Continue(r, ServerCannotDecode);
      DroppedLast(r, r', s.toServer[0].id, s.toServer[0].origin);
    }
    if s.client.phase.Idle? && s.toClient != [] {
      var r' := Continue(r, ClientCannotDecode);
      DroppedLast(r, r', s.toClient[0].id, s.toClient[0].origin);
    }
  }

  lemma DroppedLast(r: Run, r': Run, id: RpcId, tx: Sender)
    requires RpcSystem.IsRun(r) && RpcSystem.IsRun(r') && |r'.steps| == |r.steps| + 1 && r.states <= r'.states
    requires r'.states[|r'.steps|].dropped == r.states[|r.steps|].dropped + [Key(id, tx)]
    ensures LosesNext(r, r', id, tx)
  {
    assert r'.states[|r'.steps|].dropped[|r.states[|r.steps|].dropped|] == Key(id, tx);
  }

  lemma LostIsHeld(s: System, id: RpcId, tx: Sender)
    requires Inv(s) && IsLost(s, id, tx)
    ensures HeldFor(s.client, id, tx) && Lost(s, tx) == 1 && InTransit(s, tx) == 0
  {
    if k: nat :| k < |s.server.panicked| && s.server.panicked[k].id == id && s.server.panicked[k].origin == tx {
      assert s.server.panicked[k] in s.server.panicked;
      CountAt(s.server.panicked, k, RequestOf(tx));
    } else {
      var k: nat :| k < |s.dropped| && s.dropped[k] == Key(id, tx);
      assert s.dropped[k] in s.dropped;
      CountAt(s.dropped, k, KeyOf(tx));
    }
    AtMostOne(s, tx);
  }

  /** A lost call keeps its id for the rest of the connection: it is never completed, no
      message of it is under way any more, and no later request is given its id. */
  lemma LostCallRetiresItsId(r: Run, i: nat, j: nat, id: RpcId, tx: Sender)
    requires RpcSystem.IsRun(r) && i <= j < |r.states| && IsLost(r.states[i], id, tx)
    ensures HeldFor(r.states[j].client, id, tx)
    ensures TimesCompleted(r.states[j].client.completions, tx) == 0
    ensures InTransit(r.states[j], tx) == 0
    ensures j < |r.steps| && r.steps[j].AppCalls? && r.states[j + 1].client.phase.Sending? ==>
              r.states[j + 1].client.phase.id != id
  {
    RunInv(r, j);
    LossIsPermanent(r, i, j, id, tx);
    var s := r.states[j];
    LostIsHeld(s, id, tx);
    if j < |r.steps| {
      assert StepAt(r, j);
    }
    assert InTransit(s, tx) + Lost(s, tx) == Holdings(s.client, tx);
    assert Places(s.client, tx) <= 1;
  }

  // ---------- Draining ----------

  /** The steps that neither start a call nor lose one. */
  predicate IsProgress(step: Step) {
    !(step.AppCalls? || step.Panic? || step.ClientCannotDecode? || step.ServerCannotDecode? || step.ResponseSendFails?)
  }

  ghost function Remaining(s: System): nat {
    (match s.client.phase
     case Idle => 0
     case Sending(_, _, _) => 7
     case Sent(_, _) => 1)
    + 5 * |s.toServer| + 4 * |s.server.running| + 3 * |s.server.queue| + 2 * |Responding(s)| + |s.toClient|
  }

  lemma ProgressDecreases(s: System, step: Step)
    requires Sized(s) && Enabled(s, step) && IsProgress(step)
    ensures Remaining(Next(s, step)) < Remaining(s)
    ensures LostSize(Next(s, step)) == LostSize(s)
    ensures Next(s, step).server.panicked == s.server.panicked
  {
  }

  /** Nothing more can happen without a new call or a loss. */
  ghost predicate Quiescent(s: System) {
    forall step | IsProgress(step) :: !Enabled(s, step)
  }

  lemma QuiescentIsEmpty(s: System)
    requires Inv(s) && Quiescent(s)
    ensures s.client.phase.Idle? && TransitSize(s) == 0
    ensures |Occupied(s.client.slots)| == LostSize(s)
    ensures |RpcServer.Flagged(s.server.inFlight)| == |s.server.panicked|
  {
    assert !Enabled(s, RequestOnWire) && !Enabled(s, SlotFilled);
    assert !Enabled(s, SendResponse) && !Enabled(s, Dequeue);
    assert !Enabled(s, ServerReceive) && !Enabled(s, ClientReceive);
    assert !Enabled(s, Finish(0, Ok([])));
  }

  lemma RunDecreases(r: Run, i: nat)
    requires RpcSystem.IsRun(r) && i < |r.steps| && IsProgress(r.steps[i])
    ensures Remaining(r.states[i + 1]) < Remaining(r.states[i])
    ensures LostSize(r.states[i + 1]) == LostSize(r.states[i])
    ensures r.states[i + 1].server.panicked == r.states[i].server.panicked
  {
    assert StepAt(r, i);
    ProgressDecreases(r.states[i], r.steps[i]);
  }

  lemma {:induction false} RunDrains(r: Run, i: nat, j: nat)
    requires RpcSystem.IsRun(r) && i <= j < |r.states|
    requires forall k | i <= k < j :: IsProgress(r.steps[k])
    ensures j - i + Remaining(r.states[j]) <= Remaining(r.states[i])
    ensures LostSize(r.states[j]) == LostSize(r.states[i])
    ensures r.states[j].server.panicked == r.states[i].server.panicked
    decreases j
  {
    if i < j {
      RunDrains(r, i, j - 1);
      RunDecreases(r, j - 1);
    }
  }

  /** From any reachable state, once no call starts and none is lost, only boundedly many
      steps remain. When they are over, the occupied slots are exactly as many as the losses
      and the set flags as many as the panics: every slot is free if and only if nothing was
      lost before, and every flag false if and only if no handler panicked. */
  lemma ConnectionDrains(r: Run, i: nat)
    requires RpcSystem.IsRun(r) && i < |r.states|
    requires forall k | i <= k < |r.steps| :: IsProgress(r.steps[k])
    ensures |r.steps| - i <= Remaining(r.states[i])
    ensures Quiescent(r.states[|r.steps|]) ==>
              var lost, panics, last := LostSize(r.states[i]), |r.states[i].server.panicked|, r.states[|r.steps|];
              && |Occupied(last.client.slots)| == lost
              && |RpcServer.Flagged(last.server.inFlight)| == panics
              && (lost == 0 <==> forall id: RpcId :: last.client.slots[id].None?)
              && (panics == 0 <==> forall id: RpcId :: !last.server.inFlight[id])
  {
    RunInv(r, |r.steps|);
    RunDrains(r, i, |r.steps|);
    var s := r.states[|r.steps|];
    if Quiescent(s) {
      QuiescentIsEmpty(s);
      assert (forall id: RpcId :: s.client.slots[id].None?) <==> Occupied(s.client.slots) == {} by {
        assert forall id: RpcId :: s.client.slots[id].Some? <==> id in Occupied(s.client.slots);
      }
      assert (forall id: RpcId :: !s.server.inFlight[id]) <==> RpcServer.Flagged(s.server.inFlight) == {} by {
        assert forall id: RpcId :: s.server.inFlight[id] <==> id in RpcServer.Flagged(s.server.inFlight);
      }
    }
  }
}
