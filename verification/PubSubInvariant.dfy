/** The switch's routes as a delayed replica of the connections' tables: the invariant of runs
    whose subscription ids never repeat. */
module PubSubInvariant {
  import opened PubSub
  import opened PubSubSystem

  /** The ids under which the routes send topic `t` to connection `c`. */
  ghost function Ids(routes: Routes, t: Topic, c: ConnId): set<SubscriptionId> {
    IdsOf(Subscribers(routes, t), c)
  }

  /** The id under which the connection itself wants topic `t`, if it does. */
  ghost function Wanted(s: System, t: Topic, c: ConnId): set<SubscriptionId> {
    if t in TableOf(s, c) then {TableOf(s, c)[t]} else {}
  }

  /** What one notification does to the ids of topic `t` at connection `c`. */
  ghost function IdsAfter(ids: set<SubscriptionId>, n: Notification, t: Topic, c: ConnId): set<SubscriptionId> {
    match n
    case Subscribe(t', id, c') => if t' == t && c' == c then ids + {id} else ids
    case Unsubscribe(t', id) => if t' == t then ids - {id} else ids
  }

  ghost predicate AtMostOne(ids: set<SubscriptionId>) {
    forall a, b | a in ids && b in ids :: a == b
  }

  /** The pending notifications take `ids` to `last`, and on the way the connection never has
      two subscriptions of the topic. */
  ghost predicate Chain(
    ids: set<SubscriptionId>, pending: seq<Notification>, t: Topic, c: ConnId, last: set<SubscriptionId>)
    decreases |pending|
  {
    && AtMostOne(ids)
    && if pending == [] then ids == last
       else Chain(IdsAfter(ids, pending[0], t, c), pending[1..], t, c, last)
  }

  ghost predicate Known(routes: Routes, issued: set<SubscriptionId>) {
    forall t, id | t in routes && id in routes[t] :: id in issued
  }

  /** No pending subscription's id is routed already. */
  ghost predicate Unrouted(routes: Routes, pending: seq<Notification>) {
    forall k | 0 <= k < |pending| && pending[k].Subscribe? ::
      forall t | t in routes :: pending[k].id !in routes[t]
  }

  ghost predicate DistinctIds(pending: seq<Notification>) {
    forall j, k | 0 <= j < k < |pending| && pending[j].Subscribe? && pending[k].Subscribe? ::
      pending[j].id != pending[k].id
  }

  ghost predicate PendingKnown(pending: seq<Notification>, issued: set<SubscriptionId>) {
    forall k | 0 <= k < |pending| && pending[k].Subscribe? :: pending[k].id in issued
  }

  ghost predicate TablesDistinct(s: System) {
    && (forall c, t | t in TableOf(s, c) :: TableOf(s, c)[t] in s.issued)
    && (forall c, t, c', t' | t in TableOf(s, c) && t' in TableOf(s, c') && TableOf(s, c)[t] == TableOf(s, c')[t'] ::
          c == c' && t == t')
  }

  /** A connection whose subscriptions the switch has not dropped on its own. */
  ghost predicate Kept(s: System, c: ConnId) {
    c !in s.closed || !s.pruned
  }

  ghost predicate Replicates(s: System) {
    forall t, c | Kept(s, c) :: Chain(Ids(s.routes, t, c), s.pending, t, c, Wanted(s, t, c))
  }

  /** What the pending notifications make of the ids. */
  ghost function IdsOver(
    ids: set<SubscriptionId>, pending: seq<Notification>, t: Topic, c: ConnId): set<SubscriptionId>
    decreases |pending|
  {
    if pending == [] then ids else IdsOver(IdsAfter(ids, pending[0], t, c), pending[1..], t, c)
  }

  /** No connection, open or closed, is on the way to a route it does not want. */
  ghost predicate NothingStale(s: System) {
    forall t, c :: IdsOver(Ids(s.routes, t, c), s.pending, t, c) <= Wanted(s, t, c)
  }

  ghost predicate NoEmptyTopic(routes: Routes) {
    forall t | t in routes :: routes[t] != map[]
  }

  ghost predicate Inv(s: System) {
    && Known(s.routes, s.issued)
    && PendingKnown(s.pending, s.issued)
    && Unrouted(s.routes, s.pending)
    && DistinctIds(s.pending)
    && TablesDistinct(s)
    && Replicates(s)
    && NothingStale(s)
    && (!s.pruned ==> NoEmptyTopic(s.routes))
  }

  // ---------- Chains ----------

  lemma {:induction false} ChainPush(
    ids: set<SubscriptionId>, pending: seq<Notification>, t: Topic, c: ConnId, last: set<SubscriptionId>,
    n: Notification)
    requires Chain(ids, pending, t, c, last) && AtMostOne(IdsAfter(last, n, t, c))
    ensures Chain(ids, pending + [n], t, c, IdsAfter(last, n, t, c))
    decreases |pending|
  {
    if pending == [] {
      assert (pending + [n])[1..] == [];
    } else {
      ChainPush(IdsAfter(ids, pending[0], t, c), pending[1..], t, c, last, n);
      assert (pending + [n])[1..] == pending[1..] + [n];
    }
  }

  lemma {:induction false} IdsOverPush(
    ids: set<SubscriptionId>, pending: seq<Notification>, t: Topic, c: ConnId, n: Notification)
    ensures IdsOver(ids, pending + [n], t, c) == IdsAfter(IdsOver(ids, pending, t, c), n, t, c)
    decreases |pending|
  {
    if pending == [] {
      assert (pending + [n])[1..] == [];
    } else {
      IdsOverPush(IdsAfter(ids, pending[0], t, c), pending[1..], t, c, n);
      assert (pending + [n])[1..] == pending[1..] + [n];
    }
  }

  lemma {:induction false} IdsOverMonotone(
    ids: set<SubscriptionId>, more: set<SubscriptionId>, pending: seq<Notification>, t: Topic, c: ConnId)
    requires ids <= more
    ensures IdsOver(ids, pending, t, c) <= IdsOver(more, pending, t, c)
    decreases |pending|
  {
    if pending != [] {
      IdsOverMonotone(IdsAfter(ids, pending[0], t, c), IdsAfter(more, pending[0], t, c), pending[1..], t, c);
    }
  }

  /** Applying a notification to the routes changes the ids of every topic and connection as
      `IdsAfter` says, provided a subscription brings a new id. */
  lemma RoutesAfterIds(routes: Routes, n: Notification, t: Topic, c: ConnId)
    requires n.Subscribe? ==> forall t | t in routes :: n.id !in routes[t]
    ensures Ids(RoutesAfter(routes, n), t, c) == IdsAfter(Ids(routes, t, c), n, t, c)
  {
  }

  lemma RoutesAfterUnrouted(routes: Routes, pending: seq<Notification>)
    requires pending != [] && Unrouted(routes, pending) && DistinctIds(pending)
    ensures Unrouted(RoutesAfter(routes, pending[0]), pending[1..]) && DistinctIds(pending[1..])
  {
    var routes' := RoutesAfter(routes, pending[0]);
    forall k, t | 0 <= k < |pending[1..]| && pending[1..][k].Subscribe? && t in routes'
      ensures pending[1..][k].id !in routes'[t]
    {
      assert pending[1..][k] == pending[k + 1];
      assert t in routes ==> pending[k + 1].id !in routes[t];
    }
  }

  lemma RoutesAfterNoEmpty(routes: Routes, n: Notification)
    requires NoEmptyTopic(routes)
    ensures NoEmptyTopic(RoutesAfter(routes, n))
  {
    if n.Subscribe? {
      assert n.id in Subscribers(routes, n.topic)[n.id := n.conn];
    }
  }

  // ---------- Preservation ----------

  lemma InitInv()
    ensures Inv(Init())
  {
  }

  /** What a connection wants changes by exactly what it sends. */
  lemma WantedAfterWish(s: System, conn: ConnId, wish: Wish, id: SubscriptionId, switchUp: bool, t: Topic, c: ConnId)
    requires TablesDistinct(s) && conn !in s.closed
    ensures var s' := Next(s, HandleWish(conn, wish, id, switchUp));
            var sends := Sends(TableOf(s, conn), conn, wish, id, switchUp);
            && (sends == [] ==> s'.pending == s.pending && Wanted(s', t, c) == Wanted(s, t, c))
            && (sends != [] ==> s'.pending == s.pending + [sends[0]]
                                && Wanted(s', t, c) == IdsAfter(Wanted(s, t, c), sends[0], t, c))
  {
  }

  lemma HandleWishStale(s: System, conn: ConnId, wish: Wish, id: SubscriptionId, switchUp: bool)
    requires Inv(s) && conn !in s.closed
    ensures NothingStale(Next(s, HandleWish(conn, wish, id, switchUp)))
  {
    var s' := Next(s, HandleWish(conn, wish, id, switchUp));
    var sends := Sends(TableOf(s, conn), conn, wish, id, switchUp);
    forall t, c ensures IdsOver(Ids(s'.routes, t, c), s'.pending, t, c) <= Wanted(s', t, c) {
      WantedAfterWish(s, conn, wish, id, switchUp, t, c);
      if sends != [] {
        IdsOverPush(Ids(s.routes, t, c), s.pending, t, c, sends[0]);
      }
    }
  }

  lemma HandleWishReplicates(s: System, conn: ConnId, wish: Wish, id: SubscriptionId, switchUp: bool)
    requires Inv(s) && conn !in s.closed && (wish.Add? ==> id !in s.issued)
    ensures Replicates(Next(s, HandleWish(conn, wish, id, switchUp)))
  {
    var s' := Next(s, HandleWish(conn, wish, id, switchUp));
    var sends := Sends(TableOf(s, conn), conn, wish, id, switchUp);
    forall t, c | Kept(s', c)
      ensures Chain(Ids(s'.routes, t, c), s'.pending, t, c, Wanted(s', t, c))
    {
      assert Kept(s, c);
      WantedAfterWish(s, conn, wish, id, switchUp, t, c);
      if sends != [] {
        ChainPush(Ids(s.routes, t, c), s.pending, t, c, Wanted(s, t, c), sends[0]);
      }
    }
  }

  /** An entry of a table after a wish is an old one, or the new subscription. */
  lemma TableEntry(s: System, conn: ConnId, wish: Wish, id: SubscriptionId, switchUp: bool, c: ConnId, t: Topic)
    requires conn !in s.closed
    requires t in TableOf(Next(s, HandleWish(conn, wish, id, switchUp)), c)
    ensures var s' := Next(s, HandleWish(conn, wish, id, switchUp));
            || (t in TableOf(s, c) && TableOf(s', c)[t] == TableOf(s, c)[t])
            || (c == conn && wish == Add(t) && TableOf(s', c)[t] == id && s'.issued == s.issued + {id})
  {
  }

  lemma HandleWishTables(s: System, conn: ConnId, wish: Wish, id: SubscriptionId, switchUp: bool)
    requires TablesDistinct(s) && conn !in s.closed && (wish.Add? ==> id !in s.issued)
    ensures TablesDistinct(Next(s, HandleWish(conn, wish, id, switchUp)))
  {
    var s' := Next(s, HandleWish(conn, wish, id, switchUp));
    forall c, t | t in TableOf(s', c) ensures TableOf(s', c)[t] in s'.issued {
      TableEntry(s, conn, wish, id, switchUp, c, t);
    }
    forall c, t, c', t' | t in TableOf(s', c) && t' in TableOf(s', c') && TableOf(s', c)[t] == TableOf(s', c')[t']
      ensures c == c' && t == t'
    {
      TableEntry(s, conn, wish, id, switchUp, c, t);
      TableEntry(s, conn, wish, id, switchUp, c', t');
    }
  }

  lemma HandleWishInv(s: System, conn: ConnId, wish: Wish, id: SubscriptionId, switchUp: bool)
    requires Inv(s) && conn !in s.closed && (wish.Add? ==> id !in s.issued)
    ensures Inv(Next(s, HandleWish(conn, wish, id, switchUp)))
  {
    HandleWishReplicates(s, conn, wish, id, switchUp);
    HandleWishStale(s, conn, wish, id, switchUp);
    HandleWishTables(s, conn, wish, id, switchUp);
  }

  lemma DispatchReplicates(s: System)
    requires Inv(s) && Enabled(s, DispatchEvent)
    ensures Replicates(Next(s, DispatchEvent))
  {
    var s' := Next(s, DispatchEvent);
    forall t, c | Kept(s', c)
      ensures Chain(Ids(s'.routes, t, c), s'.pending, t, c, Wanted(s', t, c))
    {
      assert Kept(s, c);
      assert Ids(s'.routes, t, c) == Ids(s.routes, t, c);
    }
  }

  lemma DispatchStale(s: System)
    requires Inv(s) && Enabled(s, DispatchEvent)
    ensures NothingStale(Next(s, DispatchEvent))
  {
    var s' := Next(s, DispatchEvent);
    forall t, c ensures IdsOver(Ids(s'.routes, t, c), s'.pending, t, c) <= Wanted(s', t, c) {
      IdsOverMonotone(Ids(s'.routes, t, c), Ids(s.routes, t, c), s.pending, t, c);
    }
  }

  lemma DispatchInv(s: System)
    requires Inv(s) && Enabled(s, DispatchEvent)
    ensures Inv(Next(s, DispatchEvent))
  {
    DispatchReplicates(s);
    DispatchStale(s);
    SameTables(s, Next(s, DispatchEvent));
  }

  lemma ApplyReplicates(s: System)
    requires Inv(s) && Enabled(s, ApplyNotification)
    ensures Replicates(Next(s, ApplyNotification))
  {
    var s' := Next(s, ApplyNotification);
    forall t, c | Kept(s', c)
      ensures Chain(Ids(s'.routes, t, c), s'.pending, t, c, Wanted(s', t, c))
    {
      assert Kept(s, c);
      RoutesAfterIds(s.routes, s.pending[0], t, c);
    }
  }

  lemma ApplyStale(s: System)
    requires Inv(s) && Enabled(s, ApplyNotification)
    ensures NothingStale(Next(s, ApplyNotification))
  {
    var s' := Next(s, ApplyNotification);
    forall t, c ensures IdsOver(Ids(s'.routes, t, c), s'.pending, t, c) <= Wanted(s', t, c) {
      RoutesAfterIds(s.routes, s.pending[0], t, c);
    }
  }

  lemma SameTables(s: System, s': System)
    requires TablesDistinct(s) && s'.tables == s.tables && s'.issued == s.issued
    ensures TablesDistinct(s')
  {
    assert forall c :: TableOf(s', c) == TableOf(s, c);
  }

  lemma ApplyInv(s: System)
    requires Inv(s) && Enabled(s, ApplyNotification)
    ensures Inv(Next(s, ApplyNotification))
  {
    ApplyReplicates(s);
    ApplyStale(s);
    RoutesAfterUnrouted(s.routes, s.pending);
    if !s.pruned {
      RoutesAfterNoEmpty(s.routes, s.pending[0]);
    }
    SameTables(s, Next(s, ApplyNotification));
  }

  lemma OtherInv(s: System, step: Step)
    requires Inv(s) && (step.Emit? || step.Close?)
    ensures Inv(Next(s, step))
  {
    var s' := Next(s, step);
    SameTables(s, s');
    forall t, c | Kept(s', c)
      ensures Chain(Ids(s'.routes, t, c), s'.pending, t, c, Wanted(s', t, c))
    {
      assert Kept(s, c);
    }
    forall t, c ensures IdsOver(Ids(s'.routes, t, c), s'.pending, t, c) <= Wanted(s', t, c) {
      assert Wanted(s', t, c) == Wanted(s, t, c);
    }
  }

  lemma StepInv(s: System, step: Step)
    requires Inv(s) && Enabled(s, step) && Fresh(s, step)
    ensures Inv(Next(s, step))
  {
    match step
    case HandleWish(conn, wish, id, switchUp) => HandleWishInv(s, conn, wish, id, switchUp);
    case DispatchEvent => DispatchInv(s);
    case ApplyNotification => ApplyInv(s);
    case Emit(_) => OtherInv(s, step);
    case Close(_) => OtherInv(s, step);
  }
}
