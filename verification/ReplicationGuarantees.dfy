/** Replication over whole runs: guards serialised by the write lock, one spawned task per
    dropped guard, so batches that may reach the client in any order. */
module ReplicationGuarantees {
  import opened Wire
  import opened Replication

  // ---------- Many batches ----------

  function ApplyAll<V>(codec: Codec<V>, state: seq<V>, batches: seq<Batch>): seq<V> {
    if batches == [] then state
    else ApplyChanges(codec, ApplyAll(codec, state, batches[..|batches| - 1]), batches[|batches| - 1]).state
  }

  /** The value that a sequence of batches leaves in field `f`: that of the last batch to touch
      it. */
  function LastWritten<V>(codec: Codec<V>, batches: seq<Batch>, f: nat): Option<V> {
    if batches == [] then None
    else
      var last := Written(codec, batches[|batches| - 1], f);
      if last.Some? then last else LastWritten(codec, batches[..|batches| - 1], f)
  }

  ghost predicate AllClean<V>(codec: Codec<V>, width: nat, batches: seq<Batch>) {
    forall k | 0 <= k < |batches| :: Clean(codec, width, batches[k])
  }

  lemma {:induction false} ApplyAllLength<V>(codec: Codec<V>, state: seq<V>, batches: seq<Batch>)
    ensures |ApplyAll(codec, state, batches)| == |state|
  {
    if batches != [] {
      var n := |batches| - 1;
      ApplyAllLength(codec, state, batches[..n]);
      ApplyKeepsLength(codec, ApplyAll(codec, state, batches[..n]), batches[n]);
    }
  }

  lemma {:induction false} ApplyAllField<V>(codec: Codec<V>, state: seq<V>, batches: seq<Batch>, f: nat)
    requires AllClean(codec, |state|, batches) && f < |state|
    ensures |ApplyAll(codec, state, batches)| == |state|
    ensures ApplyAll(codec, state, batches)[f]
            == match LastWritten(codec, batches, f) case None => state[f] case Some(v) => v
  {
    if batches != [] {
      var n := |batches| - 1;
      ApplyAllField(codec, state, batches[..n], f);
      ApplyClean(codec, ApplyAll(codec, state, batches[..n]), batches[n], f);
    }
  }

  lemma {:induction false} ApplyAllSplit<V>(codec: Codec<V>, state: seq<V>, batches: seq<Batch>, m: nat)
    requires m <= |batches|
    ensures ApplyAll(codec, ApplyAll(codec, state, batches[..m]), batches[m..]) == ApplyAll(codec, state, batches)
    decreases |batches|
  {
    if m == |batches| {
      assert batches[..m] == batches && batches[m..] == [];
    } else {
      var n := |batches| - 1;
      ApplyAllSplit(codec, state, batches[..n], m);
      assert batches[..n][..m] == batches[..m];
      assert batches[..n][m..] == batches[m..][..n - m];
    }
  }

  ghost predicate Touches<V>(codec: Codec<V>, b: Batch, f: nat) {
    Written(codec, b, f).Some?
  }

  /** The position of the last batch that touches field `f`, or -1: that batch decides the
      field's value. */
  ghost function LastToucher<V>(codec: Codec<V>, batches: seq<Batch>, f: nat): (k: int)
    ensures -1 <= k < |batches|
    ensures k == -1 ==> LastWritten(codec, batches, f) == None
    ensures k != -1 ==> Touches(codec, batches[k], f) && LastWritten(codec, batches, f) == Written(codec, batches[k], f)
    ensures forall j | k < j < |batches| :: !Touches(codec, batches[j], f)
  {
    if batches == [] then -1
    else
      var n := |batches| - 1;
      if Touches(codec, batches[n], f) then n
      else
        assert forall j | 0 <= j < n :: batches[..n][j] == batches[j];
        LastToucher(codec, batches[..n], f)
  }

  // ---------- Reordering ----------

  predicate InRange(order: seq<nat>, n: nat) {
    forall p | 0 <= p < |order| :: order[p] < n
  }

  /** The batches in the order of their numbers in `order`. */
  function Select(batches: seq<Batch>, order: seq<nat>): (r: seq<Batch>)
    requires InRange(order, |batches|)
    ensures |r| == |order|
    ensures forall p | 0 <= p < |order| :: r[p] == batches[order[p]]
  {
    seq(|order|, p requires 0 <= p < |order| => batches[order[p]])
  }

  ghost predicate IsPermutation(order: seq<nat>, n: nat) {
    |order| == n && InRange(order, n) && (forall k: nat | k < n :: k in order)
  }

  ghost predicate Conflict<V>(codec: Codec<V>, a: Batch, b: Batch) {
    exists f: nat :: Touches(codec, a, f) && Touches(codec, b, f)
  }

  /** Batches that touch a common field arrive in the order they were emitted in. */
  ghost predicate KeepsConflictOrder<V>(codec: Codec<V>, batches: seq<Batch>, order: seq<nat>) {
    && InRange(order, |batches|)
    && forall p, q | 0 <= p < q < |order| && Conflict(codec, batches[order[p]], batches[order[q]]) ::
         order[p] < order[q]
  }

  /** The last batch emitted for field `f`, if there is one, is among those that arrived. */
  ghost predicate LastArrived<V>(codec: Codec<V>, batches: seq<Batch>, order: seq<nat>, f: nat) {
    LastToucher(codec, batches, f) == -1 || exists x | 0 <= x < |order| :: order[x] == LastToucher(codec, batches, f)
  }

  /** On field `f`, the last batch to arrive is the last one emitted. */
  ghost predicate LastComesLast<V>(codec: Codec<V>, batches: seq<Batch>, order: seq<nat>, f: nat)
    requires InRange(order, |batches|)
  {
    var p, q := LastToucher(codec, Select(batches, order), f), LastToucher(codec, batches, f);
    if p == -1 then q == -1 else order[p] == q
  }

  /** In an order that keeps conflicting batches in order, some batches missing, the last batch
      to arrive for a field is the last one emitted, if that one arrives at all. */
  lemma SameLastWritten<V>(codec: Codec<V>, batches: seq<Batch>, order: seq<nat>, f: nat)
    requires KeepsConflictOrder(codec, batches, order)
    ensures LastComesLast(codec, batches, order, f) <==> LastArrived(codec, batches, order, f)
    ensures LastArrived(codec, batches, order, f) ==>
              LastWritten(codec, Select(batches, order), f) == LastWritten(codec, batches, f)
  {
    var arrived := Select(batches, order);
    var q, p := LastToucher(codec, batches, f), LastToucher(codec, arrived, f);
    assert p != -1 ==> Touches(codec, batches[order[p]], f) && order[p] <= q;
    if q != -1 && LastArrived(codec, batches, order, f) {
      var x :| 0 <= x < |order| && order[x] == q;
      assert Touches(codec, arrived[x], f);
      assert x < p ==> Conflict(codec, batches[order[x]], batches[order[p]]);
    }
  }

  // ---------- What a series of guards emits ----------

  /** The default state and the states that the dropped guards left. */
  ghost predicate Snapshots<V>(snapshots: seq<seq<V>>) {
    snapshots != [] && forall k | 0 <= k < |snapshots| :: |snapshots[k]| == |snapshots[0]|
  }

  function LastOf<V>(s: seq<V>): V
    requires s != []
  {
    s[|s| - 1]
  }

  /** The batches emitted by the guards that led to snapshot `n`: one for each that changed
      something. */
  function Emitted<V(==)>(codec: Codec<V>, snapshots: seq<seq<V>>, n: nat): seq<Batch>
    requires Snapshots(snapshots) && n < |snapshots|
  {
    if n == 0 then []
    else
      var d := FullDiff(codec, snapshots[n - 1], snapshots[n]);
      if d == [] then Emitted(codec, snapshots, n - 1) else Emitted(codec, snapshots, n - 1) + [d]
  }

  lemma {:induction false} EmittedKept<V>(codec: Codec<V>, snapshots: seq<seq<V>>, next: seq<V>, n: nat)
    requires Snapshots(snapshots) && Snapshots(snapshots + [next]) && n < |snapshots|
    ensures Emitted(codec, snapshots + [next], n) == Emitted(codec, snapshots, n)
  {
    if n > 0 {
      EmittedKept(codec, snapshots, next, n - 1);
    }
  }

  /** The batches of the earlier guards come first. */
  lemma {:induction false} EmittedPrefix<V>(codec: Codec<V>, snapshots: seq<seq<V>>, n: nat, m: nat)
    requires Snapshots(snapshots) && n <= m < |snapshots|
    ensures Emitted(codec, snapshots, n) <= Emitted(codec, snapshots, m)
  {
    if n < m {
      EmittedPrefix(codec, snapshots, n, m - 1);
    }
  }

  /** Every batch carries, for each field it touches, the value that some guard left there. */
  lemma {:induction false} EmittedWrites<V(!new)>(codec: Codec<V>, snapshots: seq<seq<V>>, n: nat, k: nat, f: nat)
    returns (m: nat)
    requires Lawful(codec) && Snapshots(snapshots) && n < |snapshots| && k < |Emitted(codec, snapshots, n)|
    requires f < |snapshots[0]| && Touches(codec, Emitted(codec, snapshots, n)[k], f)
    ensures m <= n && Written(codec, Emitted(codec, snapshots, n)[k], f) == Some(snapshots[m][f])
  {
    if k < |Emitted(codec, snapshots, n - 1)| {
      m := EmittedWrites(codec, snapshots, n - 1, k, f);
    } else {
      m := n;
      DiffWritten(codec, snapshots[n - 1], snapshots[n], |snapshots[n]|, f);
    }
  }

  lemma {:induction false} EmittedClean<V(!new)>(codec: Codec<V>, snapshots: seq<seq<V>>, n: nat)
    requires Lawful(codec) && Snapshots(snapshots) && n < |snapshots|
    ensures AllClean(codec, |snapshots[0]|, Emitted(codec, snapshots, n))
  {
    if n > 0 {
      EmittedClean(codec, snapshots, n - 1);
      DiffClean(codec, snapshots[n - 1], snapshots[n]);
    }
  }

  /** Applied in order, the batches lead to the last snapshot. */
  lemma {:induction false} EmittedReplays<V(!new)>(codec: Codec<V>, snapshots: seq<seq<V>>, n: nat)
    requires Lawful(codec) && Snapshots(snapshots) && n < |snapshots|
    ensures ApplyAll(codec, snapshots[0], Emitted(codec, snapshots, n)) == snapshots[n]
  {
    if n > 0 {
      EmittedReplays(codec, snapshots, n - 1);
      var before, d := Emitted(codec, snapshots, n - 1), FullDiff(codec, snapshots[n - 1], snapshots[n]);
      DiffIsExact(codec, snapshots[n - 1], snapshots[n]);
      ApplyAllOneMore(codec, snapshots[0], before, d);
    }
  }

  lemma ApplyAllOneMore<V>(codec: Codec<V>, state: seq<V>, batches: seq<Batch>, d: Batch)
    ensures ApplyAll(codec, state, batches + [d]) == ApplyChanges(codec, ApplyAll(codec, state, batches), d).state
  {
    assert (batches + [d])[..|batches|] == batches;
  }

  /** On the way they lead through earlier snapshots. */
  lemma {:induction false} PrefixIsSnapshot<V(!new)>(codec: Codec<V>, snapshots: seq<seq<V>>, n: nat, m: nat)
    requires Lawful(codec) && Snapshots(snapshots) && n < |snapshots| && m <= |Emitted(codec, snapshots, n)|
    ensures ApplyAll(codec, snapshots[0], Emitted(codec, snapshots, n)[..m]) in snapshots
  {
    var all := Emitted(codec, snapshots, n);
    if m == |all| {
      assert all[..m] == all;
      EmittedReplays(codec, snapshots, n);
    } else {
      assert n > 0;
      PrefixIsSnapshot(codec, snapshots, n - 1, m);
      assert all[..m] == Emitted(codec, snapshots, n - 1)[..m];
    }
  }

  // ---------- The machine ----------

  /** `guard` is the starting state of the write guard that exists, if one does. `emitted` are
      the batches of all dropped guards, `pool` the numbers of those whose task has not got
      its batch to the client yet, `order` the numbers of those that arrived, in that order,
      and `lost` those that never will: the message could not be sent, or not be decoded.
      `snapshots` is the default state and the state each dropped guard left. */
  datatype System<V> = System(
    server: seq<V>,
    guard: Option<seq<V>>,
    emitted: seq<Batch>,
    pool: seq<nat>,
    client: seq<V>,
    order: seq<nat>,
    lost: seq<nat>,
    snapshots: seq<seq<V>>)

  datatype Step<V> =
    | Write
    | Assign(field: nat, value: V)
    | DropGuard
    | Arrive(task: nat)
    | Lose(task: nat)

  function Init<V>(default: seq<V>): System<V> {
    System(default, None, [], [], default, [], [], [default])
  }

  predicate Enabled<V>(s: System<V>, step: Step<V>) {
    match step
    case Write => s.guard.None?
    case Assign(f, _) => s.guard.Some? && f < |s.server|
    case DropGuard => s.guard.Some? && |s.guard.value| == |s.server|
    case Arrive(k) => k < |s.pool| && s.pool[k] < |s.emitted|
    case Lose(k) => k < |s.pool|
  }

  function Next<V(==)>(codec: Codec<V>, s: System<V>, step: Step<V>): System<V>
    requires Enabled(s, step)
  {
    match step
    case Write => s.(guard := Some(s.server))
    case Assign(f, v) => s.(server := s.server[f := v])
    case DropGuard =>
      var d := FullDiff(codec, s.guard.value, s.server);
      var dropped := s.(guard := None, snapshots := s.snapshots + [s.server]);
      if d == [] then dropped
      else dropped.(emitted := s.emitted + [d], pool := s.pool + [|s.emitted|])
    case Arrive(k) =>
      s.(client := ApplyChanges(codec, s.client, s.emitted[s.pool[k]]).state,
         pool := Without(s.pool, k),
         order := s.order + [s.pool[k]])
    case Lose(k) => s.(pool := Without(s.pool, k), lost := s.lost + [s.pool[k]])
  }

  datatype Run<!V> = Run(codec: Codec<V>, default: seq<V>, states: seq<System<V>>, steps: seq<Step<V>>)

  ghost predicate StepAt<V>(r: Run<V>, i: nat)
    requires i < |r.steps| && |r.states| == |r.steps| + 1
  {
    Enabled(r.states[i], r.steps[i]) && r.states[i + 1] == Next(r.codec, r.states[i], r.steps[i])
  }

  ghost predicate IsRun<V(!new)>(r: Run<V>) {
    && Lawful(r.codec)
    && |r.states| == |r.steps| + 1
    && r.states[0] == Init(r.default)
    && (forall i: nat | i < |r.steps| :: StepAt(r, i))
  }

  ghost predicate Guarded<V>(s: System<V>) {
    && Snapshots(s.snapshots)
    && |s.server| == |s.snapshots[0]|
    && (match s.guard
        case None => s.server == LastOf(s.snapshots)
        case Some(start) => start == LastOf(s.snapshots))
  }

  ghost predicate Numbered<V>(s: System<V>) {
    && |s.order| + |s.pool| + |s.lost| == |s.emitted|
    && InRange(s.order, |s.emitted|)
    && InRange(s.pool, |s.emitted|)
    && InRange(s.lost, |s.emitted|)
    && (forall n: nat | n < |s.emitted| :: n in s.order || n in s.pool || n in s.lost)
  }

  ghost predicate Inv<V(!new)>(codec: Codec<V>, s: System<V>) {
    && Guarded(s)
    && Numbered(s)
    && s.emitted == Emitted(codec, s.snapshots, |s.snapshots| - 1)
    && s.client == ApplyAll(codec, s.snapshots[0], Select(s.emitted, s.order))
  }

  lemma SelectGrows(batches: seq<Batch>, d: Batch, order: seq<nat>)
    requires InRange(order, |batches|)
    ensures InRange(order, |batches + [d]|)
    ensures Select(batches + [d], order) == Select(batches, order)
  {
  }

  lemma DropGuardEmits<V(!new)>(codec: Codec<V>, s: System<V>)
    requires Guarded(s) && s.emitted == Emitted(codec, s.snapshots, |s.snapshots| - 1) && Enabled(s, DropGuard)
    ensures var s' := Next(codec, s, DropGuard);
            Guarded(s') && s'.emitted == Emitted(codec, s'.snapshots, |s'.snapshots| - 1)
  {
    EmittedKept(codec, s.snapshots, s.server, |s.snapshots| - 1);
  }

  lemma DropGuardInv<V(!new)>(codec: Codec<V>, s: System<V>)
    requires Inv(codec, s) && Enabled(s, DropGuard)
    ensures Inv(codec, Next(codec, s, DropGuard))
    ensures Next(codec, s, DropGuard).snapshots[0] == s.snapshots[0]
  {
    DropGuardEmits(codec, s);
    SelectGrows(s.emitted, FullDiff(codec, s.guard.value, s.server), s.order);
  }

  lemma PoolWithout(pool: seq<nat>, k: nat, n: nat)
    requires k < |pool| && n in pool && n != pool[k]
    ensures n in Without(pool, k)
  {
    var j :| 0 <= j < |pool| && pool[j] == n;
    assert j != k;
    assert Without(pool, k)[if j < k then j else j - 1] == n;
  }

  lemma ArriveInv<V(!new)>(codec: Codec<V>, s: System<V>, k: nat)
    requires Lawful(codec) && Inv(codec, s) && Enabled(s, Arrive(k))
    ensures Inv(codec, Next(codec, s, Arrive(k)))
  {
    var s' := Next(codec, s, Arrive(k));
    forall n: nat | n < |s.emitted| ensures n in s'.order || n in s'.pool || n in s'.lost {
      if n in s.pool && n != s.pool[k] {
        PoolWithout(s.pool, k, n);
      }
    }
    var arrived, arrived' := Select(s.emitted, s.order), Select(s'.emitted, s'.order);
    assert arrived'[..|arrived|] == arrived && arrived'[|arrived|] == s.emitted[s.pool[k]];
  }

  lemma LoseInv<V(!new)>(codec: Codec<V>, s: System<V>, k: nat)
    requires Inv(codec, s) && Enabled(s, Lose(k))
    ensures Inv(codec, Next(codec, s, Lose(k)))
  {
    var s' := Next(codec, s, Lose(k));
    forall n: nat | n < |s.emitted| ensures n in s'.order || n in s'.pool || n in s'.lost {
      if n in s.pool && n != s.pool[k] {
        PoolWithout(s.pool, k, n);
      }
    }
  }

  lemma {:induction false} RunInv<V(!new)>(r: Run<V>, i: nat)
    requires IsRun(r) && i < |r.states|
    ensures Inv(r.codec, r.states[i]) && r.states[i].snapshots[0] == r.default
  {
    if i > 0 {
      RunInv(r, i - 1);
      assert StepAt(r, i - 1);
      match r.steps[i - 1]
      case DropGuard => DropGuardInv(r.codec, r.states[i - 1]);
      case Arrive(k) => ArriveInv(r.codec, r.states[i - 1], k);
      case Lose(k) => LoseInv(r.codec, r.states[i - 1], k);
      case _ =>
    }
  }

  /** Guards are serialised: each starts from the state the previous one left. */
  lemma GuardStartsWhereLastEnded<V(!new)>(r: Run<V>, i: nat)
    requires IsRun(r) && i < |r.states|
    ensures r.states[i].snapshots != []
    ensures r.states[i].guard.Some? ==> r.states[i].guard.value == LastOf(r.states[i].snapshots)
    ensures r.states[i].guard.None? ==> r.states[i].server == LastOf(r.states[i].snapshots)
  {
    RunInv(r, i);
  }

  /** What the last assignment to field `f` in the first `i` steps wrote, or its default. */
  ghost function Assigned<V>(r: Run<V>, i: nat, f: nat): V
    requires i <= |r.steps| && f < |r.default|
  {
    if i == 0 then r.default[f]
    else if r.steps[i - 1].Assign? && r.steps[i - 1].field == f then r.steps[i - 1].value
    else Assigned(r, i - 1, f)
  }

  /** The numbers of the batches that the first `i` steps brought to the client, or lost. */
  ghost function Moved<V>(r: Run<V>, i: nat, lost: bool): seq<nat>
    requires i <= |r.steps| && |r.states| == |r.steps| + 1
  {
    if i == 0 then []
    else
      match r.steps[i - 1]
      case Arrive(k) =>
        if !lost && k < |r.states[i - 1].pool| then Moved(r, i - 1, lost) + [r.states[i - 1].pool[k]]
        else Moved(r, i - 1, lost)
      case Lose(k) =>
        if lost && k < |r.states[i - 1].pool| then Moved(r, i - 1, lost) + [r.states[i - 1].pool[k]]
        else Moved(r, i - 1, lost)
      case _ => Moved(r, i - 1, lost)
  }

  /** In every run the server's state is what the guards assigned last, field by field, and the
      batches arrived and lost are exactly those of the Arrive and Lose steps. */
  lemma {:induction false} ServerFromSteps<V(!new)>(r: Run<V>, i: nat)
    requires IsRun(r) && i < |r.states|
    ensures |r.states[i].server| == |r.default|
    ensures forall f: nat | f < |r.default| :: r.states[i].server[f] == Assigned(r, i, f)
    ensures r.states[i].order == Moved(r, i, false) && r.states[i].lost == Moved(r, i, true)
  {
    if i > 0 {
      ServerFromSteps(r, i - 1);
      assert StepAt(r, i - 1);
    }
  }

  /** In every run a batch is emitted if and only if a guard is dropped that changed something:
      one batch, not empty, and one task to send it. */
  lemma EmitsIffChanged<V(!new)>(r: Run<V>, i: nat)
    requires IsRun(r) && i < |r.steps|
    ensures var s, s' := r.states[i], r.states[i + 1];
            if r.steps[i].DropGuard? && s.guard != Some(s.server) then
              && |s'.emitted| == |s.emitted| + 1 && s.emitted <= s'.emitted && s'.emitted[|s.emitted|] != []
              && s'.pool == s.pool + [|s.emitted|]
            else
              s'.emitted == s.emitted && |s'.pool| <= |s.pool|
  {
    var s := r.states[i];
    assert StepAt(r, i);
    if r.steps[i].DropGuard? {
      DiffEmptyIff(r.codec, s.guard.value, s.server);
    }
  }

  // ---------- In-order delivery ----------

  /** Every task so far got its batch through, and before the tasks of later guards. */
  ghost predicate InOrder<V>(s: System<V>) {
    && (forall p | 0 <= p < |s.order| :: s.order[p] == p)
    && (forall p | 0 <= p < |s.pool| :: s.pool[p] == |s.order| + p)
  }

  ghost predicate FirstTaskFirst<V>(r: Run<V>) {
    forall i | 0 <= i < |r.steps| && r.steps[i].Arrive? :: r.steps[i].task == 0
  }

  lemma StepInOrder<V>(codec: Codec<V>, s: System<V>, step: Step<V>)
    requires |s.order| + |s.pool| + |s.lost| == |s.emitted| && Enabled(s, step) && (step.Arrive? ==> step.task == 0)
    requires s.lost == [] ==> InOrder(s)
    ensures Next(codec, s, step).lost == [] ==> InOrder(Next(codec, s, step))
  {
    if step.Arrive? {
      assert Without(s.pool, 0) == s.pool[1..];
    }
  }

  lemma {:induction false} RunInOrder<V(!new)>(r: Run<V>, i: nat)
    requires IsRun(r) && FirstTaskFirst(r) && i < |r.states|
    ensures r.states[i].lost == [] ==> InOrder(r.states[i])
  {
    if i > 0 {
      RunInOrder(r, i - 1);
      RunInv(r, i - 1);
      assert StepAt(r, i - 1);
      StepInOrder(r.codec, r.states[i - 1], r.steps[i - 1]);
    }
  }

  /** When batches arrive in the order they were emitted and none has been lost: the client is always in some state
      that a server guard left, and applying what is still on the way gives the state left by
      the last dropped guard. */
  lemma InOrderReplication<V(!new)>(r: Run<V>, i: nat)
    requires IsRun(r) && FirstTaskFirst(r) && i < |r.states| && r.states[i].lost == []
    ensures |r.states[i].order| <= |r.states[i].emitted|
    ensures r.states[i].client in r.states[i].snapshots
    ensures ApplyAll(r.codec, r.states[i].client, r.states[i].emitted[|r.states[i].order|..])
            == LastOf(r.states[i].snapshots)
  {
    var s := r.states[i];
    RunInv(r, i);
    RunInOrder(r, i);
    PendingReplays(r.codec, s);
  }

  /** What has arrived in order is a prefix of what was emitted; the rest completes it. */
  lemma PrefixThenRest<V>(codec: Codec<V>, state: seq<V>, batches: seq<Batch>, order: seq<nat>)
    requires |order| <= |batches| && InRange(order, |batches|) && forall p | 0 <= p < |order| :: order[p] == p
    ensures Select(batches, order) == batches[..|order|]
    ensures ApplyAll(codec, ApplyAll(codec, state, Select(batches, order)), batches[|order|..])
            == ApplyAll(codec, state, batches)
  {
    assert Select(batches, order) == batches[..|order|];
    ApplyAllSplit(codec, state, batches, |order|);
  }

  lemma PendingReplays<V(!new)>(codec: Codec<V>, s: System<V>)
    requires Lawful(codec) && Inv(codec, s) && InOrder(s)
    ensures |s.order| <= |s.emitted| && s.client in s.snapshots
    ensures ApplyAll(codec, s.client, s.emitted[|s.order|..]) == LastOf(s.snapshots)
  {
    PrefixThenRest(codec, s.snapshots[0], s.emitted, s.order);
    PrefixIsSnapshot(codec, s.snapshots, |s.snapshots| - 1, |s.order|);
    EmittedReplays(codec, s.snapshots, |s.snapshots| - 1);
  }

  // ---------- Delivery in any order, with losses ----------

  lemma AllArrived<V>(codec: Codec<V>, s: System<V>, f: nat)
    requires Numbered(s) && s.pool == [] && s.lost == []
    ensures IsPermutation(s.order, |s.emitted|) && LastArrived(codec, s.emitted, s.order, f)
  {
    var q := LastToucher(codec, s.emitted, f);
    if q != -1 {
      assert (q as nat) in s.order;
    }
  }

  /** For field `f`, what has arrived ends where the first `m` batches do: the last batch to
      arrive for it is the last of those `m`, or writes the same value, or there is no such
      batch on one side and the other side's writes the default value. */
  ghost predicate Agrees<V>(
    codec: Codec<V>, default: seq<V>, batches: seq<Batch>, order: seq<nat>, m: nat, f: nat)
    requires InRange(order, |batches|) && m <= |batches| && f < |default|
  {
    var p, q := LastToucher(codec, Select(batches, order), f), LastToucher(codec, batches[..m], f);
    if p == -1 && q == -1 then true
    else if p == -1 then Written(codec, batches[q], f) == Some(default[f])
    else if q == -1 then Written(codec, batches[order[p]], f) == Some(default[f])
    else order[p] == q || Written(codec, batches[order[p]], f) == Written(codec, batches[q], f)
  }

  lemma FieldAgrees<V>(codec: Codec<V>, default: seq<V>, batches: seq<Batch>, order: seq<nat>, m: nat, f: nat)
    requires InRange(order, |batches|) && AllClean(codec, |default|, batches) && m <= |batches| && f < |default|
    ensures |ApplyAll(codec, default, Select(batches, order))| == |default| == |ApplyAll(codec, default, batches[..m])|
    ensures ApplyAll(codec, default, Select(batches, order))[f] == ApplyAll(codec, default, batches[..m])[f]
            <==> Agrees(codec, default, batches, order, m, f)
  {
    ApplyAllField(codec, default, Select(batches, order), f);
    ApplyAllField(codec, default, batches[..m], f);
  }

  /** A selection of the batches, in any order, leads where the first `m` of them lead if and
      only if the two agree on every field. */
  lemma SelectionAgrees<V>(codec: Codec<V>, default: seq<V>, batches: seq<Batch>, order: seq<nat>, m: nat)
    requires InRange(order, |batches|) && AllClean(codec, |default|, batches) && m <= |batches|
    ensures ApplyAll(codec, default, Select(batches, order)) == ApplyAll(codec, default, batches[..m])
            <==> forall f: nat | f < |default| :: Agrees(codec, default, batches, order, m, f)
  {
    var a, b := ApplyAll(codec, default, Select(batches, order)), ApplyAll(codec, default, batches[..m]);
    ApplyAllLength(codec, default, Select(batches, order));
    ApplyAllLength(codec, default, batches[..m]);
    forall f: nat | f < |default| ensures a[f] == b[f] <==> Agrees(codec, default, batches, order, m, f) {
      FieldAgrees(codec, default, batches, order, m, f);
    }
    if forall f: nat | f < |default| :: Agrees(codec, default, batches, order, m, f) {
      assert forall f: nat | f < |default| :: a[f] == b[f];
    }
  }

  /** What has arrived agrees on every field with the batches that led to snapshot `n`. */
  ghost predicate AgreesWith<V>(
    codec: Codec<V>, snapshots: seq<seq<V>>, n: nat, all: seq<Batch>, order: seq<nat>)
    requires Snapshots(snapshots) && n < |snapshots|
    requires Emitted(codec, snapshots, n) <= all && InRange(order, |all|)
  {
    forall f: nat | f < |snapshots[0]| ::
      Agrees(codec, snapshots[0], all, order, |Emitted(codec, snapshots, n)|, f)
  }

  lemma SnapshotPrefix<V(!new)>(codec: Codec<V>, snapshots: seq<seq<V>>, n: nat, all: seq<Batch>)
    requires Lawful(codec) && Snapshots(snapshots) && n < |snapshots|
    requires all == Emitted(codec, snapshots, |snapshots| - 1)
    ensures AllClean(codec, |snapshots[0]|, all)
    ensures Emitted(codec, snapshots, n) <= all
    ensures ApplyAll(codec, snapshots[0], all[..|Emitted(codec, snapshots, n)|]) == snapshots[n]
  {
    EmittedPrefix(codec, snapshots, n, |snapshots| - 1);
    EmittedClean(codec, snapshots, |snapshots| - 1);
    EmittedReplays(codec, snapshots, n);
    assert all[..|Emitted(codec, snapshots, n)|] == Emitted(codec, snapshots, n);
  }

  lemma SelectionAtSnapshot<V(!new)>(
    codec: Codec<V>, snapshots: seq<seq<V>>, n: nat, all: seq<Batch>, order: seq<nat>)
    requires Lawful(codec) && Snapshots(snapshots) && n < |snapshots|
    requires all == Emitted(codec, snapshots, |snapshots| - 1) && InRange(order, |all|)
    ensures Emitted(codec, snapshots, n) <= all
    ensures ApplyAll(codec, snapshots[0], Select(all, order)) == snapshots[n]
            <==> AgreesWith(codec, snapshots, n, all, order)
  {
    SnapshotPrefix(codec, snapshots, n, all);
    SelectionAgrees(codec, snapshots[0], all, order, |Emitted(codec, snapshots, n)|);
  }

  lemma AtSnapshot<V(!new)>(codec: Codec<V>, s: System<V>, n: nat)
    requires Lawful(codec) && Inv(codec, s) && n < |s.snapshots|
    ensures Emitted(codec, s.snapshots, n) <= s.emitted
    ensures s.client == s.snapshots[n] <==> AgreesWith(codec, s.snapshots, n, s.emitted, s.order)
  {
    SelectionAtSnapshot(codec, s.snapshots, n, s.emitted, s.order);
  }

  lemma AtLastSnapshot<V(!new)>(codec: Codec<V>, s: System<V>)
    requires Lawful(codec) && Inv(codec, s)
    ensures s.client == LastOf(s.snapshots) <==>
              forall f: nat | f < |s.snapshots[0]| ::
                Agrees(codec, s.snapshots[0], s.emitted, s.order, |s.emitted|, f)
  {
    SelectionAtSnapshot(codec, s.snapshots, |s.snapshots| - 1, s.emitted, s.order);
  }

  /** At any time, whatever has arrived in whatever order and whatever was lost, the client is
      at the state left by the `n`-th guard if and only if for every field the last batch to
      arrive is the last of those the first `n` guards emitted, or as good as that one. */
  lemma AtSnapshotIff<V(!new)>(r: Run<V>, i: nat, n: nat)
    requires IsRun(r) && i < |r.states| && n < |r.states[i].snapshots|
    ensures Snapshots(r.states[i].snapshots) && r.states[i].snapshots[0] == r.default
    ensures InRange(r.states[i].order, |r.states[i].emitted|)
    ensures Emitted(r.codec, r.states[i].snapshots, n) <= r.states[i].emitted
    ensures r.states[i].client == r.states[i].snapshots[n] <==>
              AgreesWith(r.codec, r.states[i].snapshots, n, r.states[i].emitted, r.states[i].order)
  {
    RunInv(r, i);
    AtSnapshot(r.codec, r.states[i], n);
  }

  /** At any time the client has converged to the state left by the last dropped guard if and
      only if it agrees on every field with all that was emitted. */
  lemma ConvergesIff<V(!new)>(r: Run<V>, i: nat)
    requires IsRun(r) && i < |r.states|
    ensures InRange(r.states[i].order, |r.states[i].emitted|) && r.states[i].snapshots != []
    ensures r.states[i].client == LastOf(r.states[i].snapshots) <==>
              forall f: nat | f < |r.default| ::
                Agrees(r.codec, r.default, r.states[i].emitted, r.states[i].order, |r.states[i].emitted|, f)
  {
    RunInv(r, i);
    AtLastSnapshot(r.codec, r.states[i]);
  }

  /** No batch writes to a field the default value or a value that another batch writes there. */
  ghost predicate NewValues<V>(codec: Codec<V>, default: seq<V>, batches: seq<Batch>) {
    && (forall k, f: nat | 0 <= k < |batches| && f < |default| :: Written(codec, batches[k], f) != Some(default[f]))
    && (forall j, k, f: nat | 0 <= j < k < |batches| && Touches(codec, batches[j], f) ::
          Written(codec, batches[j], f) != Written(codec, batches[k], f))
  }

  lemma AgreesIffLast<V>(codec: Codec<V>, default: seq<V>, batches: seq<Batch>, order: seq<nat>, f: nat)
    requires InRange(order, |batches|) && f < |default| && NewValues(codec, default, batches)
    ensures Agrees(codec, default, batches, order, |batches|, f) <==> LastComesLast(codec, batches, order, f)
  {
    assert batches[..|batches|] == batches;
    var p, q := LastToucher(codec, Select(batches, order), f), LastToucher(codec, batches, f);
    assert p != -1 ==> Touches(codec, batches[order[p]], f);
  }

  /** When fields never return to an earlier value, as with counters and versions: converged if
      and only if for every field the last batch to arrive is the very last one emitted. */
  lemma ConvergesIffLastComesLast<V(!new)>(r: Run<V>, i: nat)
    requires IsRun(r) && i < |r.states| && NewValues(r.codec, r.default, r.states[i].emitted)
    ensures InRange(r.states[i].order, |r.states[i].emitted|) && r.states[i].snapshots != []
    ensures r.states[i].client == LastOf(r.states[i].snapshots) <==>
              forall f: nat | f < |r.default| :: LastComesLast(r.codec, r.states[i].emitted, r.states[i].order, f)
  {
    var s := r.states[i];
    ConvergesIff(r, i);
    forall f: nat | f < |r.default|
      ensures Agrees(r.codec, r.default, s.emitted, s.order, |s.emitted|, f)
              <==> LastComesLast(r.codec, s.emitted, s.order, f)
    {
      AgreesIffLast(r.codec, r.default, s.emitted, s.order, f);
    }
  }

  /** Batches may still be under way or be lost: if those that arrived kept conflicting ones in
      order and include the last one emitted for each field, the client has converged. */
  lemma ConvergesDespiteLoss<V(!new)>(r: Run<V>, i: nat)
    requires IsRun(r) && i < |r.states| && KeepsConflictOrder(r.codec, r.states[i].emitted, r.states[i].order)
    requires forall f: nat | f < |r.default| :: LastArrived(r.codec, r.states[i].emitted, r.states[i].order, f)
    ensures r.states[i].snapshots != [] && r.states[i].client == LastOf(r.states[i].snapshots)
    ensures r.states[i].guard.None? ==> r.states[i].client == r.states[i].server
  {
    var s := r.states[i];
    RunInv(r, i);
    assert s.emitted[..|s.emitted|] == s.emitted;
    forall f: nat | f < |r.default| ensures Agrees(r.codec, r.default, s.emitted, s.order, |s.emitted|, f) {
      SameLastWritten(r.codec, s.emitted, s.order, f);
    }
    ConvergesIff(r, i);
  }

  /** So, with no guard left open, each field of the client is what the last assignment on the
      server wrote. */
  lemma ClientHoldsLastAssignments<V(!new)>(r: Run<V>, i: nat, f: nat)
    requires IsRun(r) && i < |r.states| && KeepsConflictOrder(r.codec, r.states[i].emitted, r.states[i].order)
    requires forall f: nat | f < |r.default| :: LastArrived(r.codec, r.states[i].emitted, r.states[i].order, f)
    requires r.states[i].guard.None? && f < |r.default|
    ensures |r.states[i].client| == |r.default| && r.states[i].client[f] == Assigned(r, i, f)
  {
    ConvergesDespiteLoss(r, i);
    ServerFromSteps(r, i);
  }

  /** When every batch has arrived, in an order that keeps batches touching a common field in
      the order they were emitted in, the client is in the state left by the last dropped
      guard: the server's own state when no guard exists. */
  lemma ConvergesUnderReordering<V(!new)>(r: Run<V>, i: nat)
    requires IsRun(r) && i < |r.states| && r.states[i].pool == [] && r.states[i].lost == []
    requires KeepsConflictOrder(r.codec, r.states[i].emitted, r.states[i].order)
    ensures r.states[i].snapshots != [] && r.states[i].client == LastOf(r.states[i].snapshots)
    ensures r.states[i].guard.None? ==> r.states[i].client == r.states[i].server
  {
    RunInv(r, i);
    forall f: nat | f < |r.default| ensures LastArrived(r.codec, r.states[i].emitted, r.states[i].order, f) {
      AllArrived(r.codec, r.states[i], f);
    }
    ConvergesDespiteLoss(r, i);
  }

  /** In every run, whatever the order and the losses, each field of the client holds a value
      that some guard left in that field, or the default. */
  lemma FieldsAreFromSnapshots<V(!new)>(r: Run<V>, i: nat, f: nat) returns (n: nat)
    requires IsRun(r) && i < |r.states| && f < |r.default|
    ensures n < |r.states[i].snapshots| && |r.states[i].snapshots[n]| == |r.states[i].client| == |r.default|
    ensures r.states[i].client[f] == r.states[i].snapshots[n][f]
  {
    var s := r.states[i];
    RunInv(r, i);
    EmittedClean(r.codec, s.snapshots, |s.snapshots| - 1);
    var arrived := Select(s.emitted, s.order);
    ApplyAllField(r.codec, r.default, arrived, f);
    var p := LastToucher(r.codec, arrived, f);
    if p == -1 {
      n := 0;
    } else {
      n := EmittedWrites(r.codec, s.snapshots, |s.snapshots| - 1, s.order[p], f);
    }
  }

  // ---------- Reordering and loss do lose updates ----------

  function ByteCodec(): Codec<Byte> {
    Codec((_, v: Byte) => [v], (_, data: Bytes) => if |data| == 1 then Some(data[0]) else None)
  }

  /** The batch of a guard that sets field `f` to `v`. */
  function Sets(f: nat, v: Byte): Batch {
    [StateUpdate(f, [v])]
  }

  lemma {:induction false} SetsIsDiff(state: seq<Byte>, f: nat, v: Byte, n: nat)
    requires f < |state| && n <= |state| && state[f] != v
    ensures Diff(ByteCodec(), state, state[f := v], n) == if f < n then Sets(f, v) else []
  {
    if n > 0 {
      SetsIsDiff(state, f, v, n - 1);
    }
  }

  lemma SetsApplied(state: seq<Byte>, f: nat, v: Byte)
    requires f < |state|
    ensures ApplyChanges(ByteCodec(), state, Sets(f, v)).state == state[f := v]
  {
    assert Sets(f, v)[1..] == [];
  }

  ghost function Last<V(!new)>(r: Run<V>): System<V>
    requires IsRun(r)
  {
    r.states[|r.steps|]
  }

  ghost function Extend<V(!new)>(r: Run<V>, step: Step<V>): (r': Run<V>)
    requires IsRun(r) && Enabled(Last(r), step)
    ensures IsRun(r') && r'.codec == r.codec && Last(r') == Next(r.codec, Last(r), step)
    ensures FirstTaskFirst(r) && (step.Arrive? ==> step.task == 0) ==> FirstTaskFirst(r')
  {
    var r' := Run(r.codec, r.default, r.states + [Next(r.codec, Last(r), step)], r.steps + [step]);
    assert forall i: nat | i < |r'.steps| :: StepAt(r', i) by {
      forall i: nat | i < |r'.steps| ensures StepAt(r', i) {
        if i < |r.steps| {
          assert StepAt(r, i);
        }
      }
    }
    r'
  }

  /** A guard that sets one field to a new value. */
  lemma GuardSets(r: Run<Byte>, f: nat, v: Byte) returns (r': Run<Byte>)
    requires IsRun(r) && r.codec == ByteCodec() && Last(r).guard.None?
    requires f < |Last(r).server| && Last(r).server[f] != v
    ensures IsRun(r') && r'.codec == ByteCodec() && (FirstTaskFirst(r) ==> FirstTaskFirst(r'))
    ensures var s, left := Last(r), Last(r).server[f := v];
            Last(r') == s.(server := left, emitted := s.emitted + [Sets(f, v)], pool := s.pool + [|s.emitted|],
                           snapshots := s.snapshots + [left])
  {
    SetsIsDiff(Last(r).server, f, v, |Last(r).server|);
    r' := Extend(Extend(Extend(r, Write), Assign(f, v)), DropGuard);
  }

  /** Two guards set the same field to 1 and then to 2. If the second one's task is faster, the
      client ends with 1, although every batch arrives and nothing is under way. */
  lemma ReorderingLosesAnUpdate()
    ensures exists r: Run<Byte> ::
              && IsRun(r) && Last(r).pool == [] && Last(r).lost == [] && Last(r).guard.None?
              && Last(r).server == [2] && Last(r).client == [1]
  {
    var r0 := Run(ByteCodec(), [0], [Init([0])], []);
    var r1 := GuardSets(r0, 0, 1);
    var r2 := GuardSets(r1, 0, 2);
    assert Last(r2).pool == [0, 1];
    SetsApplied([0], 0, 2);
    var r3 := Extend(r2, Arrive(1));
    assert Last(r3).client == [2] && Last(r3).pool == [0];
    SetsApplied([2], 0, 1);
    var r4 := Extend(r3, Arrive(0));
    assert Last(r4).client == [1] && Last(r4).pool == [];
  }

  /** Two guards set two fields. If the first one's batch is lost, the client is in a state the
      server never was in. */
  lemma LossLeavesNoSnapshot()
    ensures exists r: Run<Byte> ::
              && IsRun(r) && FirstTaskFirst(r) && Last(r).pool == [] && Last(r).guard.None?
              && Last(r).client == [0, 1] && Last(r).snapshots == [[0, 0], [1, 0], [1, 1]]
  {
    var r0 := Run(ByteCodec(), [0, 0], [Init([0, 0])], []);
    var r1 := GuardSets(r0, 0, 1);
    assert Last(r1).server == [1, 0];
    var r2 := GuardSets(r1, 1, 1);
    assert Last(r2).server == [1, 1];
    assert Last(r2).snapshots == [[0, 0], [1, 0], [1, 1]];
    assert Last(r2).pool == [0, 1];
    var r3 := Extend(r2, Lose(0));
    assert Last(r3).pool == [1] && Last(r3).emitted[1] == Sets(1, 1);
    SetsApplied([0, 0], 1, 1);
    var r4 := Extend(r3, Arrive(0));
    assert Last(r4).pool == [] && Last(r4).client == [0, 1];
  }
}
