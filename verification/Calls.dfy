/** What the `rpc` macro generates in `macros/src/lib.rs`: the enum of calls, the server's
    dispatch on it, and the client's methods; and the whole way of a call through them and the
    multiplexer. */
module Calls {
  import opened Wire
  import opened Naming
  import RpcClient
  import RpcSystem
  import RpcGuarantees

  /** A value of the generated `RpcCall` enum: the variant and the arguments in order. */
  datatype RpcCall<A> = RpcCall(variant: string, args: seq<A>)

  type Outcome<R> = Result<R, RpcHandlerError>

  /** The behaviour of the handler's methods at one moment: their result by method name and
      arguments. */
  type Behaviour<!A, R> = (string, seq<A>) -> Outcome<R>

  /** An RPC trait with its codecs. Encoding a call can fail, decoding can fail, and results
      are encoded by the type of the method that returns them. */
  datatype Service<!A, !R> = Service(
    methods: seq<string>,
    upper: char -> string,
    encodeCall: RpcCall<A> -> Option<Bytes>,
    decodeCall: Bytes -> Option<RpcCall<A>>,
    encodeResult: (string, R) -> Bytes,
    decodeResult: (string, Bytes) -> Option<R>)

  ghost predicate Lawful<A(!new), R(!new)>(sv: Service<A, R>) {
    && (forall c: RpcCall<A> :: sv.encodeCall(c).Some? ==> sv.decodeCall(sv.encodeCall(c).value) == Some(c))
    && (forall m: string, v: R :: sv.decodeResult(m, sv.encodeResult(m, v)) == Some(v))
  }

  /** Every method of the trait has its own variant. */
  ghost predicate DistinctVariants<A, R>(sv: Service<A, R>) {
    forall i, j | 0 <= i < |sv.methods| && 0 <= j < |sv.methods|
                  && VariantName(sv.upper, sv.methods[i]) == VariantName(sv.upper, sv.methods[j]) ::
      sv.methods[i] == sv.methods[j]
  }

  lemma CanonicalIsDistinct<A, R>(sv: Service<A, R>)
    requires UppercasesAscii(sv.upper)
    requires forall i | 0 <= i < |sv.methods| :: Canonical(sv.methods[i])
    ensures DistinctVariants(sv)
  {
    forall i, j | 0 <= i < |sv.methods| && 0 <= j < |sv.methods|
                  && VariantName(sv.upper, sv.methods[i]) == VariantName(sv.upper, sv.methods[j])
      ensures sv.methods[i] == sv.methods[j]
    {
      VariantNamesDistinct(sv.upper, sv.methods[i], sv.methods[j]);
    }
  }

  /** The arm of the generated match from index `i` on that takes the variant. */
  function MatchingMethod<A, R>(sv: Service<A, R>, variant: string, i: nat): (m: Option<string>)
    requires i <= |sv.methods|
    ensures m.Some? ==> m.value in sv.methods && VariantName(sv.upper, m.value) == variant
    ensures m.None? ==> forall j | i <= j < |sv.methods| :: VariantName(sv.upper, sv.methods[j]) != variant
    decreases |sv.methods| - i
  {
    if i == |sv.methods| then None
    else if VariantName(sv.upper, sv.methods[i]) == variant then Some(sv.methods[i])
    else MatchingMethod(sv, variant, i + 1)
  }

  /** The generated `handle_rpc_call`. Decoding yields only variants of the enum, so bytes that
      name no method do not decode. */
  function HandleRpcCall<A, R>(sv: Service<A, R>, input: Bytes, behaviour: Behaviour<A, R>): Output {
    match sv.decodeCall(input)
    case None => Err(ServerDecodeError)
    case Some(call) =>
      match MatchingMethod(sv, call.variant, 0)
      case None => Err(ServerDecodeError)
      case Some(m) =>
        match behaviour(m, call.args)
        case Ok(v) => Ok(sv.encodeResult(m, v))
        case Err(e) => Err(e)
  }

  /** The bytes a generated client method hands to its connection. */
  function CallBytes<A, R>(sv: Service<A, R>, m: string, args: seq<A>): Option<Bytes> {
    sv.encodeCall(RpcCall(VariantName(sv.upper, m), args))
  }

  /** What a generated client method returns once its call is completed. */
  function MethodResult<A, R>(sv: Service<A, R>, m: string, completion: Output): Outcome<R> {
    match completion
    case Ok(bytes) =>
      (match sv.decodeResult(m, bytes)
       case None => Err(ClientDecodeError)
       case Some(v) => Ok(v))
    case Err(e) => Err(e)
  }

  /** `make_rpc_call` and the method around it, up to the wait: without a connection, or when
      the call cannot be encoded, the error is returned at once. */
  datatype Attempt<R> = Returned(outcome: Outcome<R>) | Submitted(request: Bytes)

  function CallMethod<A, R>(sv: Service<A, R>, connected: bool, m: string, args: seq<A>): Attempt<R> {
    if !connected then Returned(Err(ClientNotConnected))
    else match CallBytes(sv, m, args)
      case None => Returned(Err(ClientEncodeError))
      case Some(bytes) => Submitted(bytes)
  }

  /** Dispatch undoes the client's encoding: the handler's method of the same name is called
      with the same arguments in the same order, and the client decodes what it returned, or
      passes its error on unchanged. */
  lemma DispatchIsTransparent<A(!new), R(!new)>(
    sv: Service<A, R>, m: string, args: seq<A>, bytes: Bytes, behaviour: Behaviour<A, R>)
    requires Lawful(sv) && DistinctVariants(sv) && m in sv.methods && CallBytes(sv, m, args) == Some(bytes)
    ensures MethodResult(sv, m, HandleRpcCall(sv, bytes, behaviour)) == behaviour(m, args)
  {
    var call := RpcCall(VariantName(sv.upper, m), args);
    assert sv.decodeCall(sv.encodeCall(call).value) == Some(call);
    var found := MatchingMethod(sv, call.variant, 0);
    assert found == Some(m);
    var result := behaviour(m, args);
    if result.Ok? {
      assert sv.decodeResult(m, sv.encodeResult(m, result.value)) == Some(result.value);
    }
  }

  /** A client method submits its call if and only if the client is connected and the call can
      be encoded; the bytes then decode to the method's own variant with its own arguments.
      Without a connection it returns `ClientNotConnected` at once, and with one
      `ClientEncodeError` if and only if the call cannot be encoded. */
  lemma SubmittedIff<A(!new), R(!new)>(sv: Service<A, R>, connected: bool, m: string, args: seq<A>)
    requires Lawful(sv)
    ensures var call, attempt := RpcCall(VariantName(sv.upper, m), args), CallMethod(sv, connected, m, args);
            && (attempt.Submitted? <==> connected && sv.encodeCall(call).Some?)
            && (attempt.Submitted? ==> sv.decodeCall(attempt.request) == Some(call))
            && (attempt == Returned(Err(ClientNotConnected)) <==> !connected)
            && (attempt == Returned(Err(ClientEncodeError)) <==> connected && sv.encodeCall(call).None?)
  {
    var call := RpcCall(VariantName(sv.upper, m), args);
    assert sv.encodeCall(call).Some? ==> sv.decodeCall(sv.encodeCall(call).value) == Some(call);
  }

  /** The bytes are a call of method `m` with these arguments. */
  ghost predicate Names<A, R>(sv: Service<A, R>, input: Bytes, m: string, args: seq<A>) {
    m in sv.methods && sv.decodeCall(input) == Some(RpcCall(VariantName(sv.upper, m), args))
  }

  /** Dispatch of any bytes: those that name a method run it, and what it returns is encoded
      by that method's type or its error passed on; all others give `ServerDecodeError`. */
  lemma DispatchOfAnyBytes<A(!new), R>(sv: Service<A, R>, input: Bytes, behaviour: Behaviour<A, R>)
    requires DistinctVariants(sv)
    ensures (forall m, args :: !Names(sv, input, m, args)) ==>
              HandleRpcCall(sv, input, behaviour) == Err(ServerDecodeError)
    ensures forall m, args | Names(sv, input, m, args) ::
              HandleRpcCall(sv, input, behaviour)
              == match behaviour(m, args) case Ok(v) => Ok(sv.encodeResult(m, v)) case Err(e) => Err(e)
  {
    var decoded := sv.decodeCall(input);
    if decoded.Some? {
      var found := MatchingMethod(sv, decoded.value.variant, 0);
      if found.Some? {
        assert Names(sv, input, found.value, decoded.value.args);
      }
    }
  }

  /** What a client method makes of any completion: a value if and only if the output decodes
      to it, `ClientDecodeError` if the output does not decode, any error unchanged. */
  lemma ResultOfAnyCompletion<A, R>(sv: Service<A, R>, m: string, completion: Output, v: R, e: RpcHandlerError)
    ensures MethodResult(sv, m, completion) == Ok(v) <==>
              completion.Ok? && sv.decodeResult(m, completion.value) == Some(v)
    ensures MethodResult(sv, m, completion) == Err(e) <==>
              || completion == Err(e)
              || (completion.Ok? && sv.decodeResult(m, completion.value) == None && e == ClientDecodeError)
  {
  }

  // ---------- The whole way ----------

  /** Step `j` ends a handler task, with the methods behaving as in `behaviour`. */
  ghost predicate TaskBehaves<A, R>(sv: Service<A, R>, r: RpcSystem.Run, j: nat, behaviour: Behaviour<A, R>)
    requires RpcSystem.IsRun(r) && j < |r.steps|
  {
    && r.steps[j].Finish?
    && r.steps[j].task < |r.states[j].server.running|
    && r.steps[j].output == HandleRpcCall(sv, r.states[j].server.running[r.steps[j].task].internal, behaviour)
  }

  /** A run whose handler tasks all run the generated dispatch, `behaviours` giving what the
      methods did in the handler task that ends at each step. */
  ghost predicate Serves<A, R>(sv: Service<A, R>, r: RpcSystem.Run, behaviours: seq<Behaviour<A, R>>)
    requires RpcSystem.IsRun(r)
  {
    && |behaviours| == |r.steps|
    && forall j | 0 <= j < |r.steps| && r.steps[j].Finish? :: TaskBehaves(sv, r, j, behaviours[j])
  }

  /** The completion makes method `m` return what the handler's method of the same name returned
      for the same arguments in that call's own task; or the error for which its own client
      failed the call, and then the handler has not run. */
  ghost predicate Transparent<A, R>(
    sv: Service<A, R>, r: RpcSystem.Run, behaviours: seq<Behaviour<A, R>>, i: nat, c: RpcClient.Completion,
    m: string, args: seq<A>)
    requires RpcSystem.IsRun(r) && i < |r.states| && |behaviours| == |r.steps|
  {
    if c.tx in r.states[i].executed && c.tx < |r.states[i].client.requests| then
      exists j: nat | j < i ::
        && RpcGuarantees.Executes(r, j, c.tx, r.states[i].client.requests[c.tx], c.output)
        && MethodResult(sv, m, c.output) == behaviours[j](m, args)
    else
      c.tx !in r.states[i].executed &&
      exists j: nat | j < i ::
        && RpcGuarantees.ClientFails(r, j, c.tx, c.output)
        && c.output.Err? && MethodResult(sv, m, c.output) == Err(c.output.error)
  }

  lemma CompletedTransparently<A(!new), R(!new)>(
    sv: Service<A, R>, r: RpcSystem.Run, behaviours: seq<Behaviour<A, R>>, i: nat, k: nat, m: string, args: seq<A>)
    requires Lawful(sv) && DistinctVariants(sv) && m in sv.methods
    requires RpcSystem.IsRun(r) && Serves(sv, r, behaviours)
    requires i < |r.states| && k < |r.states[i].client.completions|
    requires var tx := r.states[i].client.completions[k].tx;
             && tx < |r.states[i].client.requests|
             && CallBytes(sv, m, args) == Some(r.states[i].client.requests[tx])
    ensures Transparent(sv, r, behaviours, i, r.states[i].client.completions[k], m, args)
  {
    var s := r.states[i];
    var c := s.client.completions[k];
    RpcGuarantees.EveryCompletionIsEarned(r, i, k);
    if c.tx in s.executed {
      RpcGuarantees.ExecutedEarlier(r, i, c.tx);
      var j: nat :| j < i && RpcGuarantees.Executes(r, j, c.tx, s.client.requests[c.tx], c.output);
      assert TaskBehaves(sv, r, j, behaviours[j]);
      DispatchIsTransparent(sv, m, args, s.client.requests[c.tx], behaviours[j]);
    } else {
      RpcGuarantees.ErrorHasItsCause(r, i, k);
      var j: nat :| j < i && RpcGuarantees.ClientFails(r, j, c.tx, c.output);
      assert c.output.Err?;
    }
  }

  /** In every run of the whole system, for every call of a method that can be encoded, made on
      a connected client: the client submits it, at step `a`, and from then on it is in
      exactly one place: completed once, in one slot, or being sent. When it is completed,
      the method returns what the handler's method of the same name returned for the same
      arguments in that call's own task; or the error for which its own client failed the
      call, and then the handler has not run. */
  lemma CallTransparency<A(!new), R(!new)>(
    sv: Service<A, R>, r: RpcSystem.Run, behaviours: seq<Behaviour<A, R>>, a: nat, i: nat, m: string, args: seq<A>)
    requires Lawful(sv) && DistinctVariants(sv) && m in sv.methods
    requires RpcSystem.IsRun(r) && Serves(sv, r, behaviours)
    requires a < i < |r.states| && r.steps[a].AppCalls?
    requires sv.encodeCall(RpcCall(VariantName(sv.upper, m), args)) == Some(r.steps[a].internal)
    ensures CallMethod(sv, true, m, args) == Submitted(r.steps[a].internal)
    ensures var tx, client := |r.states[a].client.requests|, r.states[i].client;
            && RpcClient.TimesCompleted(client.completions, tx) + RpcClient.InSlots(client.slots, tx)
               + RpcClient.InPhase(client.phase, tx) == 1
            && forall k | 0 <= k < |client.completions| && client.completions[k].tx == tx ::
                 Transparent(sv, r, behaviours, i, client.completions[k], m, args)
  {
    var tx, client := |r.states[a].client.requests|, r.states[i].client;
    RpcGuarantees.SubmittedStays(r, a, i);
    forall k | 0 <= k < |client.completions| && client.completions[k].tx == tx
      ensures Transparent(sv, r, behaviours, i, client.completions[k], m, args)
    {
      CompletedTransparently(sv, r, behaviours, i, k, m, args);
    }
  }
}
