/** Publish/subscribe told from the steps of a run alone: what handlers wished for, what the
    application emitted and which connections closed determine tables, routes and deliveries. */
module PubSubHistory {
  import opened Wire
  import opened PubSub
  import opened PubSubSystem
  import opened PubSubInvariant
  import opened PubSubGuarantees

  // ---------- Wishes ----------

  /** The wishes that connection `c` handled in the first `i` steps. */
  ghost function TurnsOf(r: Run, i: nat, c: ConnId): seq<Turn>
    requires i <= |r.steps|
  {
    if i == 0 then []
    else
      match r.steps[i - 1]
      case HandleWish(conn, wish, id, switchUp) =>
        if conn == c then TurnsOf(r, i - 1, c) + [Turn(wish, id, switchUp)] else TurnsOf(r, i - 1, c)
      case _ => TurnsOf(r, i - 1, c)
  }

  lemma TableOneMore(turns: seq<Turn>, next: Turn)
    ensures TableOver(turns + [next]) == TableAfter(TableOver(turns), next.wish, next.id, next.switchUp)
  {
    assert (turns + [next])[..|turns|] == turns;
  }

  lemma {:induction false} TablesFromTurns(r: Run, i: nat, c: ConnId)
    requires IsRun(r) && i < |r.states|
    ensures TableOf(r.states[i], c) == TableOver(TurnsOf(r, i, c))
  {
    if i > 0 {
      TablesFromTurns(r, i - 1, c);
      assert StepAt(r, i - 1);
      var step := r.steps[i - 1];
      if step.HandleWish? && step.conn == c {
        TableOneMore(TurnsOf(r, i - 1, c), Turn(step.wish, step.id, step.switchUp));
      }
    }
  }

  /** In every run a connection's table has a topic if and only if the connection's last
      accepted wish about it was an Add, under the id of the first such Add in a row. */
  lemma TablesFromWishes(r: Run, i: nat, c: ConnId, t: Topic)
    requires IsRun(r) && i < |r.states|
    ensures t in TableOf(r.states[i], c) <==> WantsTopic(TurnsOf(r, i, c), t)
    ensures forall a: nat | OpenedAt(TurnsOf(r, i, c), t, a) ::
              Lookup(TableOf(r.states[i], c), t) == Some(TurnsOf(r, i, c)[a].id)
  {
    TablesFromTurns(r, i, c);
    TableFromWishes(TurnsOf(r, i, c), t);
  }

  /** When the switch has nothing left to do, it routes a topic to an open connection if and
      only if the connection's last accepted wish about it was an Add, and every event that
      was emitted has been dispatched. */
  lemma QuiescentRoutes(r: Run, i: nat, c: ConnId, t: Topic)
    requires IsFreshRun(r) && i < |r.states| && c !in r.states[i].closed
    requires !Enabled(r.states[i], DispatchEvent) && !Enabled(r.states[i], ApplyNotification)
    ensures c in Subscribers(r.states[i].routes, t).Values <==> WantsTopic(TurnsOf(r, i, c), t)
    ensures |r.states[i].log| == |r.states[i].emitted|
  {
    var s := r.states[i];
    SubscriptionAgreement(r, i);
    TablesFromWishes(r, i, c, t);
    RunFifo(r, i);
    SubscribedIffIds(s.routes, t, c);
    assert Eventually(s.routes, s.pending) == s.routes;
    assert Ids(Eventually(s.routes, s.pending), t, c) == Wanted(s, t, c);
  }

  lemma SubscribedIffIds(routes: Routes, t: Topic, c: ConnId)
    ensures c in Subscribers(routes, t).Values <==> Ids(routes, t, c) != {}
  {
    if c in Subscribers(routes, t).Values {
      var id :| id in Subscribers(routes, t) && Subscribers(routes, t)[id] == c;
      assert id in Ids(routes, t, c);
    }
  }

  // ---------- Closing ----------

  /** Exactly the connections that a step closed are closed. */
  lemma {:induction false} ClosedIff(r: Run, i: nat, c: ConnId)
    requires IsRun(r) && i < |r.states|
    ensures c in r.states[i].closed <==> exists k | 0 <= k < i :: r.steps[k] == Close(c)
  {
    if i > 0 {
      ClosedIff(r, i - 1, c);
      assert StepAt(r, i - 1);
      assert r.steps[i - 1] == Close(c) ==> exists k | 0 <= k < i :: r.steps[k] == Close(c);
    }
  }

  /** A closed connection's channel gets nothing any more. */
  lemma {:induction false} ClosedReceivesNothing(r: Run, i: nat, j: nat, c: ConnId)
    requires IsRun(r) && i <= j < |r.states| && c in r.states[i].closed
    ensures Channel(r.states[j].channels, c) == Channel(r.states[i].channels, c)
    decreases j
  {
    if i < j {
      ClosedReceivesNothing(r, i, j - 1, c);
      RunGrows(r, i, j - 1);
      assert StepAt(r, j - 1);
      var s := r.states[j - 1];
      if r.steps[j - 1].DispatchEvent? {
        DeliveredTo(s.channels, Subscribers(s.routes, s.events[0].topic), s.closed, s.events[0], c);
      }
    }
  }

  /** The steps are the environment's, and no connection handles a wish after it closed. */
  ghost predicate Environment(steps: seq<Step>) {
    && (forall k | 0 <= k < |steps| :: steps[k].HandleWish? || steps[k].Emit? || steps[k].Close?)
    && (forall j, k | 0 <= j < k < |steps| && steps[j].Close? && steps[k].HandleWish? :: steps[j].conn != steps[k].conn)
  }

  /** Handlers, application and connections are free: any sequence of wishes, events and
      closings is a run, as long as closed connections handle no wishes. */
  lemma {:induction false} EnvironmentIsFree(steps: seq<Step>)
    requires Environment(steps)
    ensures exists r :: IsRun(r) && r.steps == steps
  {
    if steps == [] {
      assert IsRun(Run([Init()], []));
    } else {
      var n := |steps| - 1;
      assert forall k | 0 <= k < n :: steps[..n][k] == steps[k];
      EnvironmentIsFree(steps[..n]);
      var r :| IsRun(r) && r.steps == steps[..n];
      var s, step := r.states[n], steps[n];
      if step.HandleWish? {
        ClosedIff(r, n, step.conn);
        assert forall k | 0 <= k < n :: steps[k] == r.steps[k];
      }
      var r' := Run(r.states + [Next(s, step)], steps);
      forall i: nat | i < |r'.steps| ensures StepAt(r', i) {
        if i < n {
          assert StepAt(r, i);
        }
      }
      assert IsRun(r');
    }
  }

  /** Step `k` dispatches an event to a subscriber that is gone. */
  ghost predicate FindsClosed(r: Run, k: nat)
    requires IsRun(r) && k < |r.steps|
  {
    && r.steps[k].DispatchEvent? && r.states[k].events != []
    && exists id, c :: Routed(r.states[k].routes, r.states[k].events[0].topic, id, c) && c in r.states[k].closed
  }

  lemma LiveIsAll(routes: Routes, t: Topic, closed: set<ConnId>)
    ensures Live(Subscribers(routes, t), closed) != Subscribers(routes, t)
            <==> exists id, c :: Routed(routes, t, id, c) && c in closed
  {
    var all := Subscribers(routes, t);
    if id, c :| Routed(routes, t, id, c) && c in closed {
      assert id in all && id !in Live(all, closed);
    } else {
      forall id | id in all ensures id in Live(all, closed) {
        assert Routed(routes, t, id, all[id]);
      }
      assert Live(all, closed) == all;
    }
  }

  /** Subscribers have been pruned exactly when some event found one of them closed. */
  lemma {:induction false} PrunedIff(r: Run, i: nat)
    requires IsRun(r) && i < |r.states|
    ensures r.states[i].pruned <==> exists k: nat | k < i :: FindsClosed(r, k)
  {
    if i > 0 {
      PrunedIff(r, i - 1);
      assert StepAt(r, i - 1);
      var s := r.states[i - 1];
      if r.steps[i - 1].DispatchEvent? {
        LiveIsAll(s.routes, s.events[0].topic, s.closed);
      }
      assert s.pruned || FindsClosed(r, i - 1) <==> r.states[i].pruned;
    }
  }

  /** Step `k` opens a subscription under the id. */
  ghost predicate Issues(r: Run, k: nat, id: SubscriptionId)
    requires IsRun(r) && k < |r.steps|
  {
    && r.steps[k].HandleWish? && r.steps[k].wish.Add? && r.steps[k].switchUp && r.steps[k].id == id
    && r.steps[k].wish.topic !in TableOf(r.states[k], r.steps[k].conn)
  }

  /** The ids that must not be drawn again are exactly those that opened a subscription. */
  lemma {:induction false} IssuedIff(r: Run, i: nat, id: SubscriptionId)
    requires IsRun(r) && i < |r.states|
    ensures id in r.states[i].issued <==> exists k: nat | k < i :: Issues(r, k, id)
  {
    if i > 0 {
      IssuedIff(r, i - 1, id);
      assert StepAt(r, i - 1);
      assert id in r.states[i - 1].issued || Issues(r, i - 1, id) <==> id in r.states[i].issued;
    }
  }

  // ---------- Every event once ----------

  /** The steps among the first `i` that emit an event. */
  ghost function EmitSteps(r: Run, i: nat): (es: seq<nat>)
    requires i <= |r.steps|
    ensures forall k | 0 <= k < |es| :: es[k] < i && r.steps[es[k]].Emit?
  {
    if i == 0 then []
    else if r.steps[i - 1].Emit? then EmitSteps(r, i - 1) + [i - 1]
    else EmitSteps(r, i - 1)
  }

  /** The switch was given exactly the events of the Emit steps, each once, in order. */
  lemma {:induction false} EmittedOnce(r: Run, i: nat)
    requires IsRun(r) && i < |r.states|
    ensures |r.states[i].emitted| == |EmitSteps(r, i)|
    ensures forall k | 0 <= k < |EmitSteps(r, i)| ::
              && r.states[i].emitted[k] == r.steps[EmitSteps(r, i)[k]].event
              && |r.states[EmitSteps(r, i)[k]].emitted| == k
  {
    if i > 0 {
      EmittedOnce(r, i - 1);
      assert StepAt(r, i - 1);
    }
  }

  lemma EmitsDiffer(r: Run, i: nat, i': nat)
    requires IsRun(r) && i < i' < |r.steps| && r.steps[i].Emit?
    ensures |r.states[i].emitted| < |r.states[i'].emitted|
  {
    assert StepAt(r, i);
    RunGrows(r, i + 1, i');
  }

  lemma DispatchesDiffer(r: Run, j: nat, j': nat)
    requires IsRun(r) && j < j' < |r.steps| && r.steps[j].DispatchEvent?
    ensures |r.states[j].log| < |r.states[j'].log|
  {
    assert StepAt(r, j);
    RunGrows(r, j + 1, j');
  }

  /** In every run, each dispatch is of the event of exactly one Emit step, and no two
      dispatches are of the same one. */
  lemma DispatchedOnce(r: Run, j: nat)
    requires IsRun(r) && j < |r.steps| && r.steps[j].DispatchEvent?
    ensures exists i: nat :: Dispatches(r, i, j)
    ensures forall i: nat, i': nat | Dispatches(r, i, j) && Dispatches(r, i', j) :: i == i'
    ensures forall i: nat, j': nat | Dispatches(r, i, j) && Dispatches(r, i, j') :: j == j'
  {
    assert StepAt(r, j);
    EmittedOnce(r, j);
    RunFifo(r, j);
    assert Dispatches(r, EmitSteps(r, j)[|r.states[j].log|], j);
    forall i: nat, i': nat | Dispatches(r, i, j) && Dispatches(r, i', j) ensures i == i' {
      if i < i' {
        EmitsDiffer(r, i, i');
      } else if i' < i {
        EmitsDiffer(r, i', i);
      }
    }
    forall i: nat, j': nat | Dispatches(r, i, j) && Dispatches(r, i, j') ensures j == j' {
      if j < j' {
        DispatchesDiffer(r, j, j');
      } else if j' < j {
        DispatchesDiffer(r, j', j);
      }
    }
  }

  // ---------- The whole fan-out ----------

  /** The switch has connection `c` as a subscriber of the topic. */
  ghost predicate Listens(routes: Routes, t: Topic, c: ConnId) {
    c in Subscribers(routes, t).Values
  }

  /** The events among those waiting that are on their way to connection `c`. */
  ghost function Due(events: seq<Event>, routes: Routes, c: ConnId): seq<Event> {
    if events == [] then []
    else
      var n := |events| - 1;
      if Listens(routes, events[n].topic, c) then Due(events[..n], routes, c) + [events[n]]
      else Due(events[..n], routes, c)
  }

  /** The events emitted in the first `i` steps while the switch had connection `c` subscribed
      to their topic. */
  ghost function EmittedTo(r: Run, i: nat, c: ConnId): seq<Event>
    requires i <= |r.steps| && |r.states| == |r.steps| + 1
  {
    if i == 0 then []
    else if r.steps[i - 1].Emit? && Listens(r.states[i - 1].routes, r.steps[i - 1].event.topic, c) then
      EmittedTo(r, i - 1, c) + [r.steps[i - 1].event]
    else EmittedTo(r, i - 1, c)
  }

  lemma DuePush(events: seq<Event>, e: Event, routes: Routes, c: ConnId)
    ensures Listens(routes, e.topic, c) ==> Due(events + [e], routes, c) == Due(events, routes, c) + [e]
    ensures !Listens(routes, e.topic, c) ==> Due(events + [e], routes, c) == Due(events, routes, c)
  {
    assert (events + [e])[..|events|] == events;
  }

  lemma {:induction false} DuePop(events: seq<Event>, routes: Routes, c: ConnId)
    requires events != []
    ensures Listens(routes, events[0].topic, c) ==> Due(events, routes, c) == [events[0]] + Due(events[1..], routes, c)
    ensures !Listens(routes, events[0].topic, c) ==> Due(events, routes, c) == Due(events[1..], routes, c)
  {
    var n := |events| - 1;
    if n > 0 {
      DuePop(events[..n], routes, c);
      assert events[..n][1..] == events[1..][..n - 1];
    }
  }

  lemma {:induction false} DueSame(events: seq<Event>, routes: Routes, routes': Routes, c: ConnId)
    requires forall t :: Listens(routes, t, c) <==> Listens(routes', t, c)
    ensures Due(events, routes, c) == Due(events, routes', c)
  {
    if events != [] {
      DueSame(events[..|events| - 1], routes, routes', c);
    }
  }

  lemma PruningKeepsOpen(routes: Routes, t: Topic, closed: set<ConnId>, c: ConnId, t': Topic)
    requires c !in closed
    ensures Listens(routes, t', c) <==> Listens(RoutesPruned(routes, t, closed), t', c)
  {
    SubscribedIffIds(routes, t', c);
    SubscribedIffIds(RoutesPruned(routes, t, closed), t', c);
    assert Ids(RoutesPruned(routes, t, closed), t', c) == Ids(routes, t', c);
  }

  lemma DispatchDelivers(s: System, c: ConnId)
    requires Inv(s) && Enabled(s, DispatchEvent) && c !in s.closed
    ensures var e, got := s.events[0], Channel(Next(s, DispatchEvent).channels, c);
            got == if Listens(s.routes, e.topic, c) then Channel(s.channels, c) + [e] else Channel(s.channels, c)
  {
    var e := s.events[0];
    DeliveredTo(s.channels, Subscribers(s.routes, e.topic), s.closed, e, c);
    OneCopy(s, e.topic, c);
    assert Copies(e, 1) == [e] && Copies(e, 0) == [];
  }

  lemma DueAfterDispatch(s: System, c: ConnId)
    requires Enabled(s, DispatchEvent) && c !in s.closed
    ensures Due(Next(s, DispatchEvent).events, Next(s, DispatchEvent).routes, c) == Due(s.events[1..], s.routes, c)
  {
    var e, s' := s.events[0], Next(s, DispatchEvent);
    forall t ensures Listens(s.routes, t, c) <==> Listens(s'.routes, t, c) {
      PruningKeepsOpen(s.routes, e.topic, s.closed, c, t);
    }
    DueSame(s'.events, s.routes, s'.routes, c);
  }

  lemma DispatchFansOut(s: System, c: ConnId)
    requires Inv(s) && Enabled(s, DispatchEvent) && c !in s.closed
    ensures var s' := Next(s, DispatchEvent);
            Channel(s'.channels, c) + Due(s'.events, s'.routes, c)
            == Channel(s.channels, c) + Due(s.events, s.routes, c)
  {
    DispatchDelivers(s, c);
    DueAfterDispatch(s, c);
    DuePop(s.events, s.routes, c);
  }

  /** In every run with ids that never repeat: what an open connection's channel received,
      followed by the waiting events whose topic it is subscribed to, is exactly the events
      emitted while it was subscribed to their topic, one copy each, in the order of the
      Emit steps. */
  lemma {:induction false} FanOut(r: Run, i: nat, c: ConnId)
    requires IsFreshRun(r) && i < |r.states| && c !in r.states[i].closed
    ensures Channel(r.states[i].channels, c) + Due(r.states[i].events, r.states[i].routes, c) == EmittedTo(r, i, c)
  {
    if i > 0 {
      var s := r.states[i - 1];
      assert StepAt(r, i - 1);
      FanOut(r, i - 1, c);
      match r.steps[i - 1]
      case Emit(e) => DuePush(s.events, e, s.routes, c);
      case DispatchEvent =>
        RunInv(r, i - 1);
        DispatchFansOut(s, c);
      case _ =>
    }
  }

  /** So once no event waits, it has received all of them. */
  lemma AllDelivered(r: Run, i: nat, c: ConnId)
    requires IsFreshRun(r) && i < |r.states| && c !in r.states[i].closed && r.states[i].events == []
    ensures Channel(r.states[i].channels, c) == EmittedTo(r, i, c)
  {
    FanOut(r, i, c);
    assert Channel(r.states[i].channels, c) + [] == Channel(r.states[i].channels, c);
  }

  // ---------- Routes ----------

  /** Step `k` dispatches an event on topic `t`. */
  ghost predicate DispatchesOn(r: Run, k: nat, t: Topic)
    requires IsRun(r) && k < |r.steps|
  {
    r.steps[k].DispatchEvent? && r.states[k].events != [] && r.states[k].events[0].topic == t
  }

  /** In every run, a dispatch drops exactly the topic's subscribers whose connection is
      closed. Every other topic, and the set of topics, stays as it was. */
  lemma DispatchDropsClosed(r: Run, j: nat, t: Topic)
    requires IsRun(r) && j < |r.steps| && r.steps[j].DispatchEvent?
    ensures var s, s' := r.states[j], r.states[j + 1];
            && s'.routes.Keys == s.routes.Keys
            && (!DispatchesOn(r, j, t) ==> Subscribers(s'.routes, t) == Subscribers(s.routes, t))
            && (DispatchesOn(r, j, t) ==>
                  forall id, c :: Routed(s'.routes, t, id, c) <==> Routed(s.routes, t, id, c) && c !in s.closed)
  {
    assert StepAt(r, j);
  }

  /** Step `k` takes the route of `id` away: the id is unsubscribed or given to somebody else,
      or an event on the topic finds its connection closed. */
  ghost predicate EndsRoute(r: Run, k: nat, t: Topic, id: SubscriptionId, c: ConnId)
    requires IsRun(r) && k < |r.steps|
  {
    || Applies(r, k, Unsubscribe(t, id))
    || (exists c' :: c' != c && Applies(r, k, Subscribe(t, id, c')))
    || (DispatchesOn(r, k, t) && c in r.states[k].closed)
  }

  lemma ApplyRouted(routes: Routes, n: Notification, t: Topic, id: SubscriptionId, c: ConnId)
    ensures Routed(RoutesAfter(routes, n), t, id, c) <==>
              || n == Subscribe(t, id, c)
              || (Routed(routes, t, id, c) && n != Unsubscribe(t, id)
                  && !(n.Subscribe? && n.topic == t && n.id == id))
  {
    if n.Unsubscribe? && t in routes && n.topic == t {
      assert id != n.id && id in routes[t] ==> id in routes[t] - {n.id};
    }
  }

  lemma StepRouted(r: Run, k: nat, t: Topic, id: SubscriptionId, c: ConnId)
    requires IsRun(r) && k < |r.steps|
    ensures Routed(r.states[k + 1].routes, t, id, c) <==>
              || Applies(r, k, Subscribe(t, id, c))
              || (Routed(r.states[k].routes, t, id, c) && !EndsRoute(r, k, t, id, c))
  {
    assert StepAt(r, k);
    match r.steps[k]
    case ApplyNotification =>
      var n := r.states[k].pending[0];
      ApplyRouted(r.states[k].routes, n, t, id, c);
      if n.Subscribe? && n.topic == t && n.id == id {
        assert Applies(r, k, Subscribe(t, id, n.conn));
      }
    case DispatchEvent => DispatchDropsClosed(r, k, t);
    case _ =>
  }

  /** The subscription was worked off at step `m`, and nothing ended it up to `i`. */
  ghost predicate RoutedSince(r: Run, m: nat, i: nat, t: Topic, id: SubscriptionId, c: ConnId)
    requires IsRun(r) && i < |r.states|
  {
    m < i && Applies(r, m, Subscribe(t, id, c)) && forall k | m < k < i :: !EndsRoute(r, k, t, id, c)
  }

  /** In every run, with any ids: the switch routes a topic to a connection under an id if and
      only if it worked off that Subscribe and since then neither an Unsubscribe of the id,
      nor the same id for another connection, nor an event on the topic while the connection
      was closed. */
  lemma {:induction false} RoutedIff(r: Run, i: nat, t: Topic, id: SubscriptionId, c: ConnId)
    requires IsRun(r) && i < |r.states|
    ensures Routed(r.states[i].routes, t, id, c) <==> exists m: nat :: RoutedSince(r, m, i, t, id, c)
  {
    if i > 0 {
      RoutedIff(r, i - 1, t, id, c);
      StepRouted(r, i - 1, t, id, c);
      if Applies(r, i - 1, Subscribe(t, id, c)) {
        assert RoutedSince(r, i - 1, i, t, id, c);
      } else if Routed(r.states[i].routes, t, id, c) {
        var m: nat :| RoutedSince(r, m, i - 1, t, id, c);
        assert RoutedSince(r, m, i, t, id, c);
      } else {
        forall m: nat | RoutedSince(r, m, i, t, id, c)
          ensures RoutedSince(r, m, i - 1, t, id, c) && !EndsRoute(r, i - 1, t, id, c)
        {
          assert m < i - 1;
        }
      }
    }
  }
}
