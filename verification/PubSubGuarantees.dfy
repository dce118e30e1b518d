/** What publish/subscribe guarantees over whole runs. */
module PubSubGuarantees {
  import opened PubSub
  import opened PubSubSystem
  import opened PubSubInvariant

  lemma {:induction false} RunInv(r: Run, i: nat)
    requires IsFreshRun(r) && i < |r.states|
    ensures Inv(r.states[i])
  {
    if i == 0 {
      InitInv();
    } else {
      RunInv(r, i - 1);
      assert StepAt(r, i - 1) && FreshAt(r, i - 1);
      StepInv(r.states[i - 1], r.steps[i - 1]);
    }
  }

  // ---------- Agreement ----------

  /** The routes once the switch has worked off the pending notifications. */
  ghost function Eventually(routes: Routes, pending: seq<Notification>): Routes
    decreases |pending|
  {
    if pending == [] then routes else Eventually(RoutesAfter(routes, pending[0]), pending[1..])
  }

  lemma {:induction false} EventuallyIds(routes: Routes, pending: seq<Notification>, t: Topic, c: ConnId)
    requires Unrouted(routes, pending) && DistinctIds(pending)
    ensures Ids(Eventually(routes, pending), t, c) == IdsOver(Ids(routes, t, c), pending, t, c)
    decreases |pending|
  {
    if pending != [] {
      RoutesAfterIds(routes, pending[0], t, c);
      RoutesAfterUnrouted(routes, pending);
      EventuallyIds(RoutesAfter(routes, pending[0]), pending[1..], t, c);
    }
  }

  lemma {:induction false} ChainLeadsToLast(
    ids: set<SubscriptionId>, pending: seq<Notification>, t: Topic, c: ConnId, last: set<SubscriptionId>)
    requires Chain(ids, pending, t, c, last)
    ensures IdsOver(ids, pending, t, c) == last
    decreases |pending|
  {
    if pending != [] {
      ChainLeadsToLast(IdsAfter(ids, pending[0], t, c), pending[1..], t, c, last);
    }
  }

  lemma {:induction false} EventuallyNoEmpty(routes: Routes, pending: seq<Notification>)
    requires NoEmptyTopic(routes)
    ensures NoEmptyTopic(Eventually(routes, pending))
    decreases |pending|
  {
    if pending != [] {
      RoutesAfterNoEmpty(routes, pending[0]);
      EventuallyNoEmpty(RoutesAfter(routes, pending[0]), pending[1..]);
    }
  }

  /** The routes are exactly the union of the connections' tables: the same topics, and under
      each topic the same ids leading to the same connections. */
  ghost predicate IsUnion(routes: Routes, s: System) {
    && (forall t :: t in routes <==> exists c :: t in TableOf(s, c))
    && (forall t, id | t in routes ::
          id in routes[t] <==> exists c :: t in TableOf(s, c) && TableOf(s, c)[t] == id)
    && (forall t, id | t in routes && id in routes[t] ::
          t in TableOf(s, routes[t][id]) && TableOf(s, routes[t][id])[t] == id)
  }

  lemma IdsMakeUnion(routes: Routes, s: System)
    requires forall t, c :: Ids(routes, t, c) == Wanted(s, t, c)
    requires NoEmptyTopic(routes)
    ensures IsUnion(routes, s)
  {
    forall t, id | t in routes && id in routes[t]
      ensures t in TableOf(s, routes[t][id]) && TableOf(s, routes[t][id])[t] == id
    {
      assert id in Ids(routes, t, routes[t][id]);
      assert id in Wanted(s, t, routes[t][id]);
    }
    forall t, c | t in TableOf(s, c)
      ensures t in routes && TableOf(s, c)[t] in routes[t]
    {
      assert TableOf(s, c)[t] in Wanted(s, t, c);
      assert TableOf(s, c)[t] in Ids(routes, t, c);
    }
    forall t | t in routes
      ensures exists c :: t in TableOf(s, c)
    {
      assert routes[t].Keys != {};
      var id :| id in routes[t];
      assert t in TableOf(s, routes[t][id]);
    }
  }

  lemma KeptAgrees(s: System, t: Topic, c: ConnId)
    requires Inv(s) && Kept(s, c)
    ensures Ids(Eventually(s.routes, s.pending), t, c) == Wanted(s, t, c)
  {
    EventuallyIds(s.routes, s.pending, t, c);
    ChainLeadsToLast(Ids(s.routes, t, c), s.pending, t, c, Wanted(s, t, c));
  }

  /** In every reachable state with ids that never repeat, under any interleaving and with any
      rolled-back sends, once the pending notifications are applied: the switch routes nothing
      that is not in the connection's own table, whether it is open or closed; it routes an
      open connection's topics exactly as its table says; and as long as no dispatch has
      dropped a dead channel, its routes are exactly the union of all tables. */
  lemma SubscriptionAgreement(r: Run, i: nat)
    requires IsFreshRun(r) && i < |r.states|
    ensures var s := r.states[i];
            && (forall t, c :: Ids(Eventually(s.routes, s.pending), t, c) <= Wanted(s, t, c))
            && (forall t, c | c !in s.closed :: Ids(Eventually(s.routes, s.pending), t, c) == Wanted(s, t, c))
            && (!s.pruned ==> IsUnion(Eventually(s.routes, s.pending), s))
  {
    var s := r.states[i];
    RunInv(r, i);
    forall t, c ensures Ids(Eventually(s.routes, s.pending), t, c) <= Wanted(s, t, c) {
      EventuallyIds(s.routes, s.pending, t, c);
    }
    forall t, c | c !in s.closed ensures Ids(Eventually(s.routes, s.pending), t, c) == Wanted(s, t, c) {
      KeptAgrees(s, t, c);
    }
    if !s.pruned {
      forall t, c ensures Ids(Eventually(s.routes, s.pending), t, c) == Wanted(s, t, c) {
        KeptAgrees(s, t, c);
      }
      EventuallyNoEmpty(s.routes, s.pending);
      IdsMakeUnion(Eventually(s.routes, s.pending), s);
    }
  }

  // ---------- Fan-out ----------

  /** The dispatched events whose topic had connection `c` among its subscribers, in order. */
  ghost function EventsFor(log: seq<Dispatch>, c: ConnId): seq<Event> {
    if log == [] then []
    else
      var last := log[|log| - 1];
      EventsFor(log[..|log| - 1], c) + if c in last.subscribers.Values then [last.event] else []
  }

  lemma OneCopy(s: System, t: Topic, c: ConnId)
    requires Inv(s) && c !in s.closed
    ensures CopiesFor(Subscribers(s.routes, t), s.closed, c)
            == if c in Subscribers(s.routes, t).Values then 1 else 0
  {
    assert Kept(s, c);
    assert Chain(Ids(s.routes, t, c), s.pending, t, c, Wanted(s, t, c));
    var ids := Ids(s.routes, t, c);
    if id :| id in ids {
      assert ids == {id};
      assert Subscribers(s.routes, t)[id] == c;
    } else {
      assert ids == {};
      assert forall id | id in Subscribers(s.routes, t) :: Subscribers(s.routes, t)[id] == c ==> id in ids;
    }
  }

  lemma DispatchOneCopy(s: System, c: ConnId)
    requires Inv(s) && Enabled(s, DispatchEvent) && c !in s.closed
    requires Channel(s.channels, c) == EventsFor(s.log, c)
    ensures Channel(Next(s, DispatchEvent).channels, c) == EventsFor(Next(s, DispatchEvent).log, c)
  {
    var e := s.events[0];
    var subscribers := Subscribers(s.routes, e.topic);
    DeliveredTo(s.channels, subscribers, s.closed, e, c);
    OneCopy(s, e.topic, c);
    assert Copies(e, 1) == [e] && Copies(e, 0) == [];
    assert Next(s, DispatchEvent).log[..|s.log|] == s.log;
  }

  /** With ids that never repeat, an open connection's channel has received exactly the events
      dispatched while it was subscribed to their topic: in order, one copy each, however
      often its handler repeated an `add`. */
  lemma {:induction false} OrderedExactlyOnce(r: Run, i: nat, c: ConnId)
    requires IsFreshRun(r) && i < |r.states| && c !in r.states[i].closed
    ensures Channel(r.states[i].channels, c) == EventsFor(r.states[i].log, c)
  {
    if i > 0 {
      assert StepAt(r, i - 1);
      OrderedExactlyOnce(r, i - 1, c);
      if r.steps[i - 1].DispatchEvent? {
        RunInv(r, i - 1);
        DispatchOneCopy(r.states[i - 1], c);
      }
    }
  }

  // ---------- Enqueue-time semantics ----------

  ghost predicate QueueIsFifo(s: System) {
    && |s.log| <= |s.emitted|
    && s.events == s.emitted[|s.log|..]
    && forall k | 0 <= k < |s.log| :: s.log[k].event == s.emitted[k]
  }

  lemma {:induction false} RunFifo(r: Run, i: nat)
    requires IsRun(r) && i < |r.states|
    ensures QueueIsFifo(r.states[i])
  {
    if i > 0 {
      RunFifo(r, i - 1);
      assert StepAt(r, i - 1);
      var s := r.states[i - 1];
      if r.steps[i - 1].DispatchEvent? {
        assert s.events[0] == s.emitted[|s.log|];
      }
    }
  }

  lemma StepGrows(s: System, step: Step)
    requires Enabled(s, step)
    ensures s.emitted <= Next(s, step).emitted && s.log <= Next(s, step).log && s.closed <= Next(s, step).closed
  {
  }

  lemma {:induction false} RunGrows(r: Run, i: nat, j: nat)
    requires IsRun(r) && i <= j < |r.states|
    ensures r.states[i].emitted <= r.states[j].emitted
    ensures r.states[i].log <= r.states[j].log
    ensures r.states[i].closed <= r.states[j].closed
    decreases j
  {
    if i < j {
      RunGrows(r, i, j - 1);
      assert StepAt(r, j - 1);
      StepGrows(r.states[j - 1], r.steps[j - 1]);
    }
  }

  /** From the earlier routes to the later ones, topic `t` has only lost subscribers whose
      channels are closed. */
  ghost predicate OnlyDeadLost(earlier: Routes, later: Routes, closed: set<ConnId>, t: Topic) {
    && (forall id | id in Subscribers(later, t) ::
          id in Subscribers(earlier, t) && Subscribers(later, t)[id] == Subscribers(earlier, t)[id])
    && (forall id | id in Subscribers(earlier, t) && id !in Subscribers(later, t) ::
          Subscribers(earlier, t)[id] in closed)
  }

  lemma StepLosesOnlyDead(s: System, step: Step, t: Topic)
    requires Enabled(s, step) && !step.ApplyNotification?
    ensures OnlyDeadLost(s.routes, Next(s, step).routes, Next(s, step).closed, t)
  {
  }

  lemma {:induction false} WaitingLosesOnlyDead(r: Run, i: nat, j: nat, t: Topic)
    requires IsRun(r) && i <= j < |r.states|
    requires forall k | i <= k < j :: |r.states[k].log| < |r.states[k].emitted|
    ensures OnlyDeadLost(r.states[i].routes, r.states[j].routes, r.states[j].closed, t)
    decreases j
  {
    if i < j {
      WaitingLosesOnlyDead(r, i, j - 1, t);
      RunFifo(r, j - 1);
      RunGrows(r, j - 1, j);
      assert StepAt(r, j - 1);
      StepLosesOnlyDead(r.states[j - 1], r.steps[j - 1], t);
    }
  }

  /** Step `j` dispatches the event that step `i` emitted: as many events were dispatched
      before `j` as were emitted before `i`. */
  ghost predicate Dispatches(r: Run, i: nat, j: nat)
    requires IsRun(r)
  {
    && i < j < |r.steps|
    && r.steps[i].Emit?
    && r.steps[j].DispatchEvent?
    && |r.states[j].log| == |r.states[i].emitted|
  }

  lemma EmittedIsNext(r: Run, i: nat, j: nat)
    requires IsRun(r) && Dispatches(r, i, j)
    ensures r.states[j].events != [] && r.states[j].events[0] == r.steps[i].event
  {
    RunFifo(r, j);
    assert StepAt(r, i) && StepAt(r, j);
    RunGrows(r, i + 1, j);
    assert r.states[j].emitted[|r.states[i].emitted|] == r.steps[i].event;
  }

  /** Because the switch drains events before notifications, an event meets the subscribers
      its topic had when it was emitted, less only those whose channel closed since: nobody
      who subscribed later gets it, and nobody who unsubscribed later misses it. */
  lemma EnqueueTimeSemantics(r: Run, i: nat, j: nat)
    requires IsRun(r) && Dispatches(r, i, j)
    ensures |r.states[j + 1].log| == |r.states[j].log| + 1
    ensures r.states[j + 1].log[|r.states[j].log|]
            == Dispatch(r.steps[i].event, Subscribers(r.states[j].routes, r.steps[i].event.topic))
    ensures OnlyDeadLost(r.states[i].routes, r.states[j].routes, r.states[j].closed, r.steps[i].event.topic)
  {
    var e := r.steps[i].event;
    EmittedIsNext(r, i, j);
    assert StepAt(r, i) && StepAt(r, j);
    forall k | i < k < j ensures |r.states[k].log| < |r.states[k].emitted| {
      RunGrows(r, i + 1, k);
      RunGrows(r, k, j);
    }
    WaitingLosesOnlyDead(r, i + 1, j, e.topic);
  }

  ghost predicate Routed(routes: Routes, t: Topic, id: SubscriptionId, c: ConnId) {
    t in routes && id in routes[t] && routes[t][id] == c
  }

  lemma StepKeepsRoute(s: System, step: Step, t: Topic, id: SubscriptionId, c: ConnId)
    requires Inv(s) && Enabled(s, step) && Routed(s.routes, t, id, c) && c !in s.closed
    requires step.ApplyNotification? ==> s.pending[0] != Unsubscribe(t, id)
    ensures Routed(Next(s, step).routes, t, id, c)
  {
    if step.ApplyNotification? && s.pending[0].Unsubscribe? {
      assert id in s.routes[t] - {s.pending[0].id} || s.pending[0].topic != t;
    }
  }

  lemma {:induction false} RouteStays(r: Run, m: nat, i: nat, t: Topic, id: SubscriptionId, c: ConnId)
    requires IsFreshRun(r) && m <= i < |r.states|
    requires Routed(r.states[m].routes, t, id, c) && c !in r.states[i].closed
    requires forall k | m <= k < i :: !Applies(r, k, Unsubscribe(t, id))
    ensures Routed(r.states[i].routes, t, id, c)
    decreases i
  {
    if m < i {
      assert StepAt(r, i - 1);
      RouteStays(r, m, i - 1, t, id, c);
      RunInv(r, i - 1);
      assert !Applies(r, i - 1, Unsubscribe(t, id));
      StepKeepsRoute(r.states[i - 1], r.steps[i - 1], t, id, c);
    }
  }

  /** An open connection receives a dispatched event, once, exactly if it was subscribed to the
      event's topic in the switch when the event was emitted. */
  lemma ReceivesIffSubscribedAtEmit(r: Run, i: nat, j: nat, c: ConnId)
    requires IsFreshRun(r) && Dispatches(r, i, j) && c !in r.states[j].closed
    ensures Channel(r.states[j + 1].channels, c)
            == Channel(r.states[j].channels, c)
               + if c in Subscribers(r.states[i].routes, r.steps[i].event.topic).Values then [r.steps[i].event] else []
  {
    var s, e := r.states[j], r.steps[i].event;
    var before, now := Subscribers(r.states[i].routes, e.topic), Subscribers(s.routes, e.topic);
    EnqueueTimeSemantics(r, i, j);
    EmittedIsNext(r, i, j);
    assert c in now.Values <==> c in before.Values by {
      assert forall id | id in now :: id in before && now[id] == before[id];
      assert forall id | id in before && before[id] == c :: id in now && now[id] == c;
    }
    RunInv(r, j);
    OneCopy(s, e.topic, c);
    DeliveredTo(s.channels, now, s.closed, e, c);
    assert Copies(e, 1) == [e] && Copies(e, 0) == [];
    assert StepAt(r, j);
  }

  /** Step `m` works off the notification `n`. */
  ghost predicate Applies(r: Run, m: nat, n: Notification)
    requires IsRun(r) && m < |r.steps|
  {
    r.steps[m].ApplyNotification? && r.states[m].pending != [] && r.states[m].pending[0] == n
  }

  lemma SubscriberRouted(r: Run, m: nat, t: Topic, id: SubscriptionId, c: ConnId)
    requires IsRun(r) && m < |r.steps| && Applies(r, m, Subscribe(t, id, c))
    ensures Routed(r.states[m + 1].routes, t, id, c)
  {
    assert StepAt(r, m);
  }

  /** An event emitted after the switch announced a topic reaches the subscriber that created
      it, if that connection is still open when the event is dispatched and its Unsubscribe
      was not worked off before the event was emitted. */
  lemma CreatorReceives(r: Run, m: nat, i: nat, j: nat, t: Topic, id: SubscriptionId, c: ConnId)
    requires IsFreshRun(r) && m < i && Dispatches(r, i, j) && r.steps[i].event.topic == t
    requires Applies(r, m, Subscribe(t, id, c)) && Announces(r.states[m].routes, Subscribe(t, id, c)) == [Created(t)]
    requires forall k | m < k < i :: !Applies(r, k, Unsubscribe(t, id))
    requires c !in r.states[j].closed
    ensures Channel(r.states[j + 1].channels, c) == Channel(r.states[j].channels, c) + [r.steps[i].event]
  {
    RunGrows(r, i, j);
    SubscriberRouted(r, m, t, id, c);
    RouteStays(r, m + 1, i, t, id, c);
    assert Subscribers(r.states[i].routes, t)[id] == c;
    ReceivesIffSubscribedAtEmit(r, i, j, c);
  }

  // ---------- Topic notifications ----------

  /** The application's view of a topic: whether its latest notification is Created. */
  ghost predicate Announced(announced: seq<TopicNotification>, t: Topic) {
    announced != [] &&
    var last := announced[|announced| - 1];
    if last.topic == t then last.Created? else Announced(announced[..|announced| - 1], t)
  }

  ghost predicate ViewMatches(s: System) {
    forall t :: t in s.routes <==> Announced(s.announced, t)
  }

  lemma AnnouncedPush(announced: seq<TopicNotification>, n: TopicNotification, t: Topic)
    ensures Announced(announced + [n], t) <==> if n.topic == t then n.Created? else Announced(announced, t)
  {
    assert (announced + [n])[..|announced|] == announced;
  }

  lemma AnnouncesShape(routes: Routes, n: Notification)
    ensures || Announces(routes, n) == []
            || Announces(routes, n) == [if n.Subscribe? then Created(n.topic) else Removed(n.topic)]
    ensures n.Subscribe? && n.topic !in routes ==> Announces(routes, n) != []
    ensures n.Unsubscribe? && n.topic !in routes ==> Announces(routes, n) == []
  {
    if n.Subscribe? {
      CreatedIff(routes, n.topic, n.id, n.conn);
    }
  }

  lemma RoutedAfter(routes: Routes, n: Notification, t: Topic)
    ensures t in RoutesAfter(routes, n)
            <==> if n.topic != t then t in routes
                 else n.Subscribe? || (t in routes && Announces(routes, n) == [])
  {
  }

  lemma ApplyMatches(routes: Routes, announced: seq<TopicNotification>, n: Notification, t: Topic)
    requires t in routes <==> Announced(announced, t)
    ensures t in RoutesAfter(routes, n) <==> Announced(announced + Announces(routes, n), t)
  {
    AnnouncesShape(routes, n);
    RoutedAfter(routes, n, t);
    if Announces(routes, n) == [] {
      assert announced + [] == announced;
    } else {
      AnnouncedPush(announced, Announces(routes, n)[0], t);
    }
  }

  /** In every run, with any pruning and any repetition of ids, a topic is routed exactly when
      the latest notification about it is Created. */
  lemma {:induction false} RoutedIffAnnounced(r: Run, i: nat)
    requires IsRun(r) && i < |r.states|
    ensures ViewMatches(r.states[i])
  {
    if i > 0 {
      RoutedIffAnnounced(r, i - 1);
      assert StepAt(r, i - 1);
      if r.steps[i - 1].ApplyNotification? {
        forall t ensures t in r.states[i].routes <==> Announced(r.states[i].announced, t) {
          ApplyMatches(r.states[i - 1].routes, r.states[i - 1].announced, r.states[i - 1].pending[0], t);
        }
      }
    }
  }

  /** No Removed without a Created since the one before. */
  ghost predicate RemovedOnlyAfterCreated(announced: seq<TopicNotification>) {
    announced == [] ||
    var before, last := announced[..|announced| - 1], announced[|announced| - 1];
    RemovedOnlyAfterCreated(before) && (last.Removed? ==> Announced(before, last.topic))
  }

  /** On every topic Created and Removed take turns, starting with Created. */
  ghost predicate StrictlyAlternate(announced: seq<TopicNotification>) {
    announced == [] ||
    var before, last := announced[..|announced| - 1], announced[|announced| - 1];
    StrictlyAlternate(before) && (last.Created? <==> !Announced(before, last.topic))
  }

  /** In every run, two Removed of a topic have a Created between them. */
  lemma {:induction false} NoRemovedTwice(r: Run, i: nat)
    requires IsRun(r) && i < |r.states|
    ensures RemovedOnlyAfterCreated(r.states[i].announced)
  {
    if i > 0 {
      NoRemovedTwice(r, i - 1);
      RoutedIffAnnounced(r, i - 1);
      assert StepAt(r, i - 1);
      var s := r.states[i - 1];
      if r.steps[i - 1].ApplyNotification? {
        if Announces(s.routes, s.pending[0]) != [] {
          assert r.states[i].announced[..|s.announced|] == s.announced;
        } else {
          assert r.states[i].announced == s.announced;
        }
      }
    }
  }

  /** A Subscribe is announced as Created exactly when the topic has no subscriber but the id
      itself. For a topic that is already announced that means: all its subscribers were
      pruned, or the same id is subscribed again. */
  lemma CreatedIff(routes: Routes, t: Topic, id: SubscriptionId, conn: ConnId)
    ensures Announces(routes, Subscribe(t, id, conn)) == [Created(t)] <==> Subscribers(routes, t).Keys <= {id}
  {
    var more := Subscribers(routes, t)[id := conn];
    assert more.Keys == Subscribers(routes, t).Keys + {id};
    if |more| == 1 {
      assert |more.Keys - {id}| == 0;
    }
    if Subscribers(routes, t).Keys <= {id} {
      assert more.Keys == {id};
    }
  }

  /** Step `k` subscribes somebody to a topic whose subscribers were all pruned. */
  ghost predicate RevivesTopic(r: Run, k: nat)
    requires IsRun(r) && k < |r.steps|
  {
    && r.steps[k].ApplyNotification? && r.states[k].pending != [] && r.states[k].pending[0].Subscribe?
    && r.states[k].pending[0].topic in r.states[k].routes
    && r.states[k].routes[r.states[k].pending[0].topic] == map[]
  }

  lemma FreshAnnouncement(s: System)
    requires Inv(s) && ViewMatches(s) && Enabled(s, ApplyNotification)
    ensures var n := s.pending[0];
            && (n.Unsubscribe? && Announces(s.routes, n) != [] ==> Announced(s.announced, n.topic))
            && (n.Subscribe? && n.topic !in s.routes ==> !Announced(s.announced, n.topic))
            && (n.Subscribe? && n.topic in s.routes ==>
                  && Announced(s.announced, n.topic)
                  && (Announces(s.routes, n) != [] <==> s.routes[n.topic] == map[]))
  {
    var n := s.pending[0];
    if n.Subscribe? {
      CreatedIff(s.routes, n.topic, n.id, n.conn);
      if n.topic in s.routes && s.routes[n.topic] != map[] {
        assert s.routes[n.topic].Keys != {};
        var id :| id in s.routes[n.topic];
        assert id != n.id;
      }
    }
  }

  lemma ApplyAlternates(r: Run, i: nat)
    requires IsFreshRun(r) && i < |r.steps| && r.steps[i].ApplyNotification?
    ensures StrictlyAlternate(r.states[i + 1].announced)
            <==> StrictlyAlternate(r.states[i].announced) && !RevivesTopic(r, i)
  {
    assert StepAt(r, i);
    RunInv(r, i);
    RoutedIffAnnounced(r, i);
    var s, s' := r.states[i], r.states[i + 1];
    FreshAnnouncement(s);
    if Announces(s.routes, s.pending[0]) != [] {
      assert s'.announced[..|s.announced|] == s.announced;
    } else {
      assert s'.announced == s.announced;
    }
  }

  /** With ids that never repeat, Created and Removed strictly alternate on every topic if and
      only if nobody was subscribed to a topic whose subscribers had all been pruned. */
  lemma {:induction false} AlternateIffNoRevival(r: Run, i: nat)
    requires IsFreshRun(r) && i < |r.states|
    ensures StrictlyAlternate(r.states[i].announced) <==> forall k: nat | k < i :: !RevivesTopic(r, k)
  {
    if i > 0 {
      AlternateIffNoRevival(r, i - 1);
      assert StepAt(r, i - 1);
      if r.steps[i - 1].ApplyNotification? {
        ApplyAlternates(r, i - 1);
      } else {
        assert !RevivesTopic(r, i - 1);
      }
    }
  }

  lemma {:induction false} PrunedStays(r: Run, i: nat, j: nat)
    requires IsRun(r) && i <= j < |r.states| && r.states[i].pruned
    ensures r.states[j].pruned
    decreases j
  {
    if i < j {
      PrunedStays(r, i, j - 1);
      assert StepAt(r, j - 1);
    }
  }

  /** So they alternate as long as nothing was pruned, and every routed topic has a
      subscriber. */
  lemma AnnouncementsAlternate(r: Run, i: nat)
    requires IsFreshRun(r) && i < |r.states| && !r.states[i].pruned
    ensures StrictlyAlternate(r.states[i].announced)
    ensures NoEmptyTopic(r.states[i].routes)
  {
    RunInv(r, i);
    forall k: nat | k < i ensures !RevivesTopic(r, k) {
      if r.states[k].pruned {
        PrunedStays(r, k, i);
      }
      RunInv(r, k);
    }
    AlternateIffNoRevival(r, i);
  }

  // ---------- Topics left without subscribers ----------

  /** The topic is routed, with nobody in it. */
  ghost predicate Emptied(routes: Routes, t: Topic) {
    t in routes && routes[t] == map[]
  }

  /** Step `k` dispatches an event on `t` to subscribers that are all gone. */
  ghost predicate LosesEverybody(r: Run, k: nat, t: Topic)
    requires IsRun(r) && k < |r.steps|
  {
    var s := r.states[k];
    && r.steps[k].DispatchEvent? && s.events != [] && s.events[0].topic == t
    && t in s.routes && s.routes[t] != map[]
    && forall id | id in s.routes[t] :: s.routes[t][id] in s.closed
  }

  /** Step `m` works off a notification about `t`. */
  ghost predicate Notifies(r: Run, m: nat, t: Topic)
    requires IsRun(r) && m < |r.steps|
  {
    r.steps[m].ApplyNotification? && r.states[m].pending != [] && r.states[m].pending[0].topic == t
  }

  lemma LiveIsNobody(subscribers: map<SubscriptionId, ConnId>, closed: set<ConnId>)
    ensures Live(subscribers, closed) == map[] <==> forall id | id in subscribers :: subscribers[id] in closed
  {
    if id :| id in subscribers && subscribers[id] !in closed {
      assert id in Live(subscribers, closed);
    }
  }

  lemma RoutesAfterEmptied(routes: Routes, n: Notification, t: Topic)
    ensures Emptied(RoutesAfter(routes, n), t) <==> Emptied(routes, t) && n.topic != t
  {
    if n.Subscribe? {
      assert n.id in Subscribers(routes, n.topic)[n.id := n.conn];
    }
  }

  lemma StepEmptied(r: Run, i: nat, t: Topic)
    requires IsRun(r) && i < |r.steps|
    ensures Emptied(r.states[i + 1].routes, t)
            <==> LosesEverybody(r, i, t) || (Emptied(r.states[i].routes, t) && !Notifies(r, i, t))
  {
    assert StepAt(r, i);
    var s := r.states[i];
    if r.steps[i].DispatchEvent? {
      LiveIsNobody(Subscribers(s.routes, t), s.closed);
    } else if r.steps[i].ApplyNotification? {
      RoutesAfterEmptied(s.routes, s.pending[0], t);
    }
  }

  /** At step `k` the topic lost everybody, and nothing about it was worked off up to `i`. */
  ghost predicate EmptySince(r: Run, k: nat, i: nat, t: Topic)
    requires IsRun(r) && i < |r.states|
  {
    k < i && LosesEverybody(r, k, t) && forall m | k < m < i :: !Notifies(r, m, t)
  }

  /** In every run, with any ids: a topic is routed without a subscriber if and only if some
      event found all of its subscribers gone and no notification about it was worked off
      since. All that time the application has it as created: no Removed was sent. */
  lemma {:induction false} LingersIff(r: Run, i: nat, t: Topic)
    requires IsRun(r) && i < |r.states|
    ensures Emptied(r.states[i].routes, t) <==> exists k: nat :: EmptySince(r, k, i, t)
    ensures Emptied(r.states[i].routes, t) ==> Announced(r.states[i].announced, t)
  {
    RoutedIffAnnounced(r, i);
    if i > 0 {
      LingersIff(r, i - 1, t);
      StepEmptied(r, i - 1, t);
      if LosesEverybody(r, i - 1, t) {
        assert EmptySince(r, i - 1, i, t);
      } else if Emptied(r.states[i].routes, t) {
        var k: nat :| EmptySince(r, k, i - 1, t);
        assert EmptySince(r, k, i, t);
      } else {
        forall k: nat | EmptySince(r, k, i, t) ensures EmptySince(r, k, i - 1, t) && !Notifies(r, i - 1, t) {
          assert k < i - 1;
        }
      }
    }
  }

  // ---------- Pruning breaks the alternation ----------

  ghost function Last(r: Run): System
    requires IsRun(r)
  {
    r.states[|r.steps|]
  }

  ghost function Extend(r: Run, step: Step): (r': Run)
    requires IsFreshRun(r) && Enabled(Last(r), step) && Fresh(Last(r), step)
    ensures IsFreshRun(r') && Last(r') == Next(Last(r), step)
  {
    var r' := Run(r.states + [Next(Last(r), step)], r.steps + [step]);
    assert forall i: nat | i < |r'.steps| :: StepAt(r', i) && FreshAt(r', i) by {
      forall i: nat | i < |r'.steps| ensures StepAt(r', i) && FreshAt(r', i) {
        if i < |r.steps| {
          assert StepAt(r, i) && FreshAt(r, i);
        }
      }
    }
    r'
  }

  /** A run that ends with connection 0 as the only subscriber of `t`. */
  lemma OneSubscriber(t: Topic) returns (r: Run)
    ensures IsFreshRun(r)
    ensures Last(r) == Init().(tables := map[0 := map[t := [0]]], routes := map[t := map[[0] := 0]],
                               announced := [Created(t)], issued := {[0]})
  {
    var r0 := Run([Init()], []);
    assert IsFreshRun(r0);
    var r1 := Extend(r0, HandleWish(0, Add(t), [0], true));
    assert Last(r1).pending == [Subscribe(t, [0], 0)];
    CreatedIff(Last(r1).routes, t, [0], 0);
    r := Extend(r1, ApplyNotification);
  }

  /** When the only subscriber dies and an event prunes it, the topic stays routed with nobody
      in it, and no Removed is sent. */
  lemma PrunedTopicLingers(t: Topic) returns (r: Run)
    ensures IsFreshRun(r)
    ensures Last(r).routes == map[t := map[]] && Last(r).announced == [Created(t)]
    ensures Last(r).closed == {0} && Last(r).events == [] && Last(r).pending == []
    ensures Last(r).issued == {[0]} && TableOf(Last(r), 1) == map[]
  {
    var r0 := OneSubscriber(t);
    var r1 := Extend(Extend(r0, Close(0)), Emit(Event(t, [])));
    assert Live(map[[0] := 0], {0}) == map[];
    r := Extend(r1, DispatchEvent);
  }

  /** The next subscriber then makes the switch send Created a second time: with pruning,
      Created and Removed do not alternate. */
  lemma PrunedTopicIsCreatedTwice()
    ensures exists r :: IsFreshRun(r) && !StrictlyAlternate(Last(r).announced)
  {
    var t := Topic([], true);
    var r0 := PrunedTopicLingers(t);
    var r1 := Extend(r0, HandleWish(1, Add(t), [1], true));
    assert Last(r1).pending == [Subscribe(t, [1], 1)];
    CreatedIff(Last(r1).routes, t, [1], 1);
    var r2 := Extend(r1, ApplyNotification);
    assert Last(r2).announced == [Created(t), Created(t)];
    assert Last(r2).announced[..1] == [Created(t)];
  }
}
