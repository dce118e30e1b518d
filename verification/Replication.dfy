/** Connection-state replication: what the `connection_state` macro generates in
    `macros/src/lib.rs`. The server diffs its state when a write guard is dropped, the client
    applies the updates field by field. A state is the sequence of its fields. */
module Replication {
  import opened Wire

  datatype StateUpdate = StateUpdate(index: nat, data: Bytes)

  type Batch = seq<StateUpdate>

  /** How the field at each index is written to bytes and read back. */
  datatype Codec<!V> = Codec(enc: (nat, V) -> Bytes, dec: (nat, Bytes) -> Option<V>)

  ghost predicate Lawful<V(!new)>(codec: Codec<V>) {
    forall i: nat, v: V :: codec.dec(i, codec.enc(i, v)) == Some(v)
  }

  // ---------- The server's diff ----------

  /** The update that carries field `i`. */
  function UpdateOf<V>(codec: Codec<V>, state: seq<V>, i: nat): StateUpdate
    requires i < |state|
  {
    StateUpdate(i, codec.enc(i, state[i]))
  }

  /** The updates for the first `n` fields. */
  function Diff<V(==)>(codec: Codec<V>, before: seq<V>, after: seq<V>, n: nat): Batch
    requires n <= |before| == |after|
  {
    if n == 0 then []
    else if after[n - 1] != before[n - 1] then Diff(codec, before, after, n - 1) + [UpdateOf(codec, after, n - 1)]
    else Diff(codec, before, after, n - 1)
  }

  function FullDiff<V(==)>(codec: Codec<V>, before: seq<V>, after: seq<V>): Batch
    requires |before| == |after|
  {
    Diff(codec, before, after, |before|)
  }

  // ---------- The client's application ----------

  /** A client state, and whether every update so far could be decoded. */
  datatype Applied<V> = Applied(state: seq<V>, ok: bool)

  /** Updates are applied in order; an index out of range is skipped, and the first value that
      cannot be decoded ends the batch, leaving what was applied before it. */
  function ApplyChanges<V>(codec: Codec<V>, state: seq<V>, changes: Batch): Applied<V>
    decreases |changes|
  {
    if changes == [] then Applied(state, true)
    else
      var u := changes[0];
      if u.index >= |state| then ApplyChanges(codec, state, changes[1..])
      else match codec.dec(u.index, u.data)
        case None => Applied(state, false)
        case Some(v) => ApplyChanges(codec, state[u.index := v], changes[1..])
  }

  lemma {:induction false} ApplyKeepsLength<V>(codec: Codec<V>, state: seq<V>, changes: Batch)
    ensures |ApplyChanges(codec, state, changes).state| == |state|
    decreases |changes|
  {
    if changes != [] {
      var u := changes[0];
      if u.index >= |state| {
        ApplyKeepsLength(codec, state, changes[1..]);
      } else if codec.dec(u.index, u.data).Some? {
        ApplyKeepsLength(codec, state[u.index := codec.dec(u.index, u.data).value], changes[1..]);
      }
    }
  }

  /** A batch whose values can all be decoded and whose indices are in range. */
  ghost predicate Clean<V>(codec: Codec<V>, width: nat, changes: Batch) {
    forall k | 0 <= k < |changes| ::
      changes[k].index < width && codec.dec(changes[k].index, changes[k].data).Some?
  }

  /** The value a batch leaves in field `f`, if it touches it: the last one written there. */
  function Written<V>(codec: Codec<V>, changes: Batch, f: nat): Option<V> {
    if changes == [] then None
    else
      var u := changes[|changes| - 1];
      if u.index == f then codec.dec(f, u.data) else Written(codec, changes[..|changes| - 1], f)
  }

  /** The update names a field but its value cannot be decoded. */
  predicate Undecodable<V>(codec: Codec<V>, width: nat, u: StateUpdate) {
    u.index < width && codec.dec(u.index, u.data).None?
  }

  /** The position of the first undecodable update, or the length of the batch. */
  function FirstUndecodable<V>(codec: Codec<V>, width: nat, changes: Batch): (b: nat)
    ensures b <= |changes|
    ensures b < |changes| ==> Undecodable(codec, width, changes[b])
    ensures forall k | 0 <= k < b :: !Undecodable(codec, width, changes[k])
  {
    if changes == [] || Undecodable(codec, width, changes[0]) then 0
    else 1 + FirstUndecodable(codec, width, changes[1..])
  }

  /** An update is written to its field, or skipped if it names none. */
  ghost function ApplyOne<V>(codec: Codec<V>, state: seq<V>, u: StateUpdate): seq<V>
    requires !Undecodable(codec, |state|, u)
  {
    if u.index < |state| then state[u.index := codec.dec(u.index, u.data).value] else state
  }

  /** The updates before the first undecodable one take effect, the others do not. */
  lemma {:induction false} ApplyStops<V>(codec: Codec<V>, state: seq<V>, changes: Batch)
    ensures var b := FirstUndecodable(codec, |state|, changes);
            && (ApplyChanges(codec, state, changes).ok <==> b == |changes|)
            && ApplyChanges(codec, state, changes).state == ApplyChanges(codec, state, changes[..b]).state
    decreases |changes|
  {
    var b := FirstUndecodable(codec, |state|, changes);
    if b > 0 {
      var u := changes[0];
      assert changes[..b][1..] == changes[1..][..b - 1];
      ApplyStops(codec, ApplyOne(codec, state, u), changes[1..]);
    }
  }

  lemma {:induction false} ApplySkips<V>(codec: Codec<V>, state: seq<V>, changes: Batch, u: StateUpdate)
    requires forall k | 0 <= k < |changes| :: !Undecodable(codec, |state|, changes[k])
    requires !Undecodable(codec, |state|, u)
    ensures |ApplyChanges(codec, state, changes).state| == |state|
    ensures ApplyChanges(codec, state, changes + [u]).state
            == ApplyOne(codec, ApplyChanges(codec, state, changes).state, u)
    decreases |changes|
  {
    if changes == [] {
      assert (changes + [u])[1..] == [];
    } else {
      var w := changes[0];
      assert (changes + [u])[1..] == changes[1..] + [u];
      ApplySkips(codec, ApplyOne(codec, state, w), changes[1..], u);
    }
  }

  lemma {:induction false} ApplyDecodable<V>(codec: Codec<V>, state: seq<V>, changes: Batch, f: nat)
    requires forall k | 0 <= k < |changes| :: !Undecodable(codec, |state|, changes[k])
    requires f < |state|
    ensures |ApplyChanges(codec, state, changes).state| == |state|
    ensures ApplyChanges(codec, state, changes).state[f]
            == match Written(codec, changes, f) case None => state[f] case Some(v) => v
  {
    if changes != [] {
      var n := |changes| - 1;
      assert changes == changes[..n] + [changes[n]];
      ApplyDecodable(codec, state, changes[..n], f);
      ApplySkips(codec, state, changes[..n], changes[n]);
    }
  }

  /** Applying any batch, however malformed: it fails if and only if some update names a field
      and cannot be decoded, and then every field has the last value written to it before
      the first such update. Updates that name no field are skipped. */
  lemma ApplyAny<V>(codec: Codec<V>, state: seq<V>, changes: Batch, f: nat)
    requires f < |state|
    ensures !ApplyChanges(codec, state, changes).ok <==>
              exists k | 0 <= k < |changes| :: Undecodable(codec, |state|, changes[k])
    ensures |ApplyChanges(codec, state, changes).state| == |state|
    ensures ApplyChanges(codec, state, changes).state[f]
            == match Written(codec, changes[..FirstUndecodable(codec, |state|, changes)], f)
               case None => state[f]
               case Some(v) => v
  {
    ApplyStops(codec, state, changes);
    ApplyDecodable(codec, state, changes[..FirstUndecodable(codec, |state|, changes)], f);
  }

  /** Applying a clean batch succeeds and sets each field to the last value written to it. */
  lemma ApplyClean<V>(codec: Codec<V>, state: seq<V>, changes: Batch, f: nat)
    requires Clean(codec, |state|, changes) && f < |state|
    ensures ApplyChanges(codec, state, changes).ok
    ensures |ApplyChanges(codec, state, changes).state| == |state|
    ensures ApplyChanges(codec, state, changes).state[f]
            == match Written(codec, changes, f) case None => state[f] case Some(v) => v
  {
    ApplyAny(codec, state, changes, f);
    assert changes[..|changes|] == changes;
  }

  // ---------- The diff is exact and minimal ----------

  /** Strictly increasing indices of changed fields below `n`, each with the field's new value. */
  ghost predicate ListsChanges<V>(codec: Codec<V>, before: seq<V>, after: seq<V>, n: nat, d: Batch)
    requires n <= |before| == |after|
  {
    && (forall k | 0 <= k < |d| ::
          && d[k].index < n && after[d[k].index] != before[d[k].index]
          && d[k].data == codec.enc(d[k].index, after[d[k].index]))
    && (forall j, k | 0 <= j < k < |d| :: d[j].index < d[k].index)
  }

  lemma {:induction false} DiffListsChanges<V>(codec: Codec<V>, before: seq<V>, after: seq<V>, n: nat)
    requires n <= |before| == |after|
    ensures ListsChanges(codec, before, after, n, Diff(codec, before, after, n))
  {
    if n > 0 {
      DiffListsChanges(codec, before, after, n - 1);
    }
  }

  lemma WrittenOneMore<V>(codec: Codec<V>, changes: Batch, u: StateUpdate, f: nat)
    ensures Written(codec, changes + [u], f)
            == if u.index == f then codec.dec(f, u.data) else Written(codec, changes, f)
  {
    assert (changes + [u])[..|changes|] == changes;
  }

  lemma {:induction false} DiffWritten<V>(codec: Codec<V>, before: seq<V>, after: seq<V>, n: nat, f: nat)
    requires n <= |before| == |after| && f < |before|
    ensures Written(codec, Diff(codec, before, after, n), f)
            == if f < n && after[f] != before[f] then codec.dec(f, codec.enc(f, after[f])) else None
  {
    if n > 0 {
      DiffWritten(codec, before, after, n - 1, f);
      if after[n - 1] != before[n - 1] {
        WrittenOneMore(codec, Diff(codec, before, after, n - 1), UpdateOf(codec, after, n - 1), f);
      }
    }
  }

  lemma DiffClean<V(!new)>(codec: Codec<V>, before: seq<V>, after: seq<V>)
    requires Lawful(codec) && |before| == |after|
    ensures Clean(codec, |before|, FullDiff(codec, before, after))
  {
    DiffListsChanges(codec, before, after, |before|);
    var d := FullDiff(codec, before, after);
    forall k | 0 <= k < |d| ensures codec.dec(d[k].index, d[k].data).Some? {
      assert codec.dec(d[k].index, codec.enc(d[k].index, after[d[k].index])) == Some(after[d[k].index]);
    }
  }

  /** Applying the diff to the state it was taken from gives the state it was taken to. */
  lemma DiffIsExact<V(!new)>(codec: Codec<V>, before: seq<V>, after: seq<V>)
    requires Lawful(codec) && |before| == |after|
    ensures ApplyChanges(codec, before, FullDiff(codec, before, after)) == Applied(after, true)
  {
    var d := FullDiff(codec, before, after);
    DiffClean(codec, before, after);
    if before == [] {
      assert d == [];
    } else {
      ApplyClean(codec, before, d, 0);
    }
    forall f | 0 <= f < |before| ensures ApplyChanges(codec, before, d).state[f] == after[f] {
      ApplyClean(codec, before, d, f);
      DiffWritten(codec, before, after, |before|, f);
    }
  }

  lemma DiffEmptyIff<V(!new)>(codec: Codec<V>, before: seq<V>, after: seq<V>)
    requires Lawful(codec) && |before| == |after|
    ensures FullDiff(codec, before, after) == [] <==> before == after
  {
    var d := FullDiff(codec, before, after);
    DiffIsExact(codec, before, after);
    DiffListsChanges(codec, before, after, |before|);
    assert d != [] ==> before[d[0].index] != after[d[0].index];
  }

  ghost function Indices(changes: Batch): set<int> {
    set k | 0 <= k < |changes| :: changes[k].index
  }

  ghost function Changed<V>(before: seq<V>, after: seq<V>, n: nat): set<int>
    requires n <= |before| == |after|
  {
    set f | 0 <= f < n && after[f] != before[f]
  }

  lemma {:induction false} Untouched<V>(codec: Codec<V>, state: seq<V>, changes: Batch, f: nat)
    requires f < |state| && f !in Indices(changes)
    ensures |ApplyChanges(codec, state, changes).state| == |state|
    ensures ApplyChanges(codec, state, changes).state[f] == state[f]
    decreases |changes|
  {
    ApplyKeepsLength(codec, state, changes);
    if changes != [] {
      var u := changes[0];
      assert u.index in Indices(changes);
      assert forall k | 0 <= k < |changes[1..]| :: changes[1..][k] == changes[k + 1];
      assert Indices(changes[1..]) <= Indices(changes);
      if u.index >= |state| {
        Untouched(codec, state, changes[1..], f);
      } else if codec.dec(u.index, u.data).Some? {
        Untouched(codec, state[u.index := codec.dec(u.index, u.data).value], changes[1..], f);
      }
    }
  }

  lemma {:induction false} IndicesSize(changes: Batch)
    ensures |Indices(changes)| <= |changes|
  {
    if changes != [] {
      var n := |changes| - 1;
      IndicesSize(changes[..n]);
      assert Indices(changes) == Indices(changes[..n]) + {changes[n].index};
    }
  }

  lemma {:induction false} ChangedSize<V>(codec: Codec<V>, before: seq<V>, after: seq<V>, n: nat)
    requires n <= |before| == |after|
    ensures |Diff(codec, before, after, n)| == |Changed(before, after, n)|
  {
    if n > 0 {
      ChangedSize(codec, before, after, n - 1);
      assert Changed(before, after, n)
          == Changed(before, after, n - 1) + if after[n - 1] != before[n - 1] then {n - 1} else {};
    }
  }

  /** No list of updates shorter than the diff, well formed or not, takes the first state to
      the second. */
  lemma DiffIsMinimal<V>(codec: Codec<V>, before: seq<V>, after: seq<V>, changes: Batch)
    requires |before| == |after| && ApplyChanges(codec, before, changes).state == after
    ensures |FullDiff(codec, before, after)| <= |changes|
  {
    var all := Changed(before, after, |before|);
    forall f | f in all ensures f in Indices(changes) {
      if f !in Indices(changes) {
        Untouched(codec, before, changes, f);
      }
    }
    assert Indices(changes) == all + (Indices(changes) - all);
    IndicesSize(changes);
    ChangedSize(codec, before, after, |before|);
  }

  // ---------- The generated code ----------

  /** The generated `StateController`: at most one write guard exists, and it remembers the
      state it started from. */
  class StateController<V(==)> {
    const codec: Codec<V>
    var state: seq<V>
    var guard: Option<seq<V>>

    constructor (codec: Codec<V>, default: seq<V>)
      ensures this.codec == codec && state == default && guard == None
    {
      this.codec, state, guard := codec, default, None;
    }

    /** `write`: with the lock free, snapshot the state. */
    method Write()
      requires guard.None?
      modifies this`guard
      ensures guard == Some(state)
    {
      guard := Some(state);
    }

    /** Assignment to a field through the guard. */
    method Assign(f: nat, v: V)
      requires guard.Some? && f < |state|
      modifies this`state
      ensures state == old(state)[f := v]
    {
      state := state[f := v];
    }

    /** `drop`: compare field by field, and hand over the changes unless there are none. */
    method Drop() returns (changes: Batch)
      requires guard.Some? && |guard.value| == |state|
      modifies this`guard
      ensures guard.None?
      ensures changes == FullDiff(codec, old(guard.value), state)
    {
      changes := [];
      for i := 0 to |state|
        invariant changes == Diff(codec, guard.value, state, i)
        invariant guard == old(guard)
      {
        if state[i] != guard.value[i] {
          changes := changes + [StateUpdate(i, codec.enc(i, state[i]))];
        }
      }
      guard := None;
    }
  }

  /** The generated client state, updated in place. */
  class ClientState<V> {
    const codec: Codec<V>
    const fields: array<V>

    constructor (codec: Codec<V>, fields: array<V>)
      ensures this.codec == codec && this.fields == fields
    {
      this.codec, this.fields := codec, fields;
    }

    /** `apply_changes`, with its early return. */
    method Apply(changes: Batch) returns (result: Result<(), RpcHandlerError>)
      modifies fields
      ensures fields[..] == ApplyChanges(codec, old(fields[..]), changes).state
      ensures result == if ApplyChanges(codec, old(fields[..]), changes).ok then Ok(()) else Err(ClientDecodeError)
    {
      var k := 0;
      while k < |changes|
        invariant k <= |changes|
        invariant ApplyChanges(codec, fields[..], changes[k..]) == ApplyChanges(codec, old(fields[..]), changes)
      {
        var u := changes[k];
        assert changes[k..][1..] == changes[k + 1..];
        if u.index < fields.Length {
          var v := codec.dec(u.index, u.data);
          if v.None? {
            return Err(ClientDecodeError);
          }
          fields[u.index] := v.value;
        }
        k := k + 1;
      }
      result := Ok(());
    }
  }
}
