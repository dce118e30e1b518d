/** The two levels of publish/subscribe in `src/server.rs`: each connection's own table of
    subscriptions, and the event switch that routes events to the connections' channels. */
module PubSub {
  import opened Wire

  datatype Topic = Topic(inner: Bytes, isString: bool)

  /** A random 16-byte id. The program only ever compares ids. */
  type SubscriptionId = seq<Byte>

  /** Identifies a connection, and the event channel whose receiving end it owns. */
  type ConnId = nat

  datatype Event = Event(topic: Topic, payload: Bytes)

  /** What a handler asks of its own connection (`ProxiedSubscriptionNotification`). */
  datatype Wish = Add(topic: Topic) | Remove(topic: Topic)

  /** What a connection tells the switch (`SubscriptionNotification`). */
  datatype Notification =
    | Subscribe(topic: Topic, id: SubscriptionId, conn: ConnId)
    | Unsubscribe(topic: Topic, id: SubscriptionId)

  /** What the switch tells the application. */
  datatype TopicNotification = Created(topic: Topic) | Removed(topic: Topic)

  // ---------- One connection ----------

  type Table = map<Topic, SubscriptionId>

  /** The table after a wish is handled. `id` is the id drawn, `switchUp` whether the switch
      still listens; when it does not, the change is rolled back. */
  function TableAfter(table: Table, wish: Wish, id: SubscriptionId, switchUp: bool): Table {
    if !switchUp then table
    else match wish
      case Add(t) => if t in table then table else table[t := id]
      case Remove(t) => table - {t}
  }

  /** What handling the wish sends to the switch. */
  function Sends(table: Table, conn: ConnId, wish: Wish, id: SubscriptionId, switchUp: bool): seq<Notification> {
    if !switchUp then []
    else match wish
      case Add(t) => if t in table then [] else [Subscribe(t, id, conn)]
      case Remove(t) => if t in table then [Unsubscribe(t, table[t])] else []
  }

  /** A connection's local subscriptions, updated in place, and all it has sent so far. */
  class LocalSubscriptions {
    const conn: ConnId
    var table: Table
    var sent: seq<Notification>

    constructor (conn: ConnId)
      ensures this.conn == conn && table == map[] && sent == []
    {
      this.conn := conn;
      table, sent := map[], [];
    }

    method OnWish(wish: Wish, id: SubscriptionId, switchUp: bool)
      modifies this
      ensures table == TableAfter(old(table), wish, id, switchUp)
      ensures sent == old(sent) + Sends(old(table), conn, wish, id, switchUp)
    {
      match wish {
        case Add(t) =>
          if t !in table {
            table := table[t := id];
            if switchUp {
              sent := sent + [Subscribe(t, id, conn)];
            } else {
              table := table - {t};
              assert table == old(table);
            }
          }
        case Remove(t) =>
          if t in table {
            var removed := table[t];
            table := table - {t};
            if switchUp {
              sent := sent + [Unsubscribe(t, removed)];
            } else {
              table := table[t := removed];
              assert table == old(table);
            }
          } else {
            assert table - {t} == table;
          }
      }
    }
  }

  /** One turn of the connection loop's subscription arm. */
  datatype Turn = Turn(wish: Wish, id: SubscriptionId, switchUp: bool)

  function TableOver(turns: seq<Turn>): Table {
    if turns == [] then map[]
    else
      var last := turns[|turns| - 1];
      TableAfter(TableOver(turns[..|turns| - 1]), last.wish, last.id, last.switchUp)
  }

  function SentOver(conn: ConnId, turns: seq<Turn>): seq<Notification> {
    if turns == [] then []
    else
      var before, last := turns[..|turns| - 1], turns[|turns| - 1];
      SentOver(conn, before) + Sends(TableOver(before), conn, last.wish, last.id, last.switchUp)
  }

  /** The subscription of a topic that a sequence of notifications leaves open. */
  function OpenSubscription(sent: seq<Notification>, t: Topic): Option<SubscriptionId> {
    if sent == [] then None
    else
      var last := sent[|sent| - 1];
      if last.topic != t then OpenSubscription(sent[..|sent| - 1], t)
      else if last.Subscribe? then Some(last.id)
      else None
  }

  /** Subscribe and Unsubscribe alternate on every topic, each Unsubscribe with the id of the
      Subscribe before it. */
  predicate Alternates(sent: seq<Notification>) {
    sent == [] ||
    var before, last := sent[..|sent| - 1], sent[|sent| - 1];
    && Alternates(before)
    && OpenSubscription(before, last.topic) == if last.Subscribe? then None else Some(last.id)
  }

  function Lookup(table: Table, t: Topic): Option<SubscriptionId> {
    if t in table then Some(table[t]) else None
  }

  /** Whatever a handler asks for, and however sends fail, what its connection sends
      alternates, and the subscriptions left open are exactly the local table. */
  lemma {:induction false} ConnectionAlternates(conn: ConnId, turns: seq<Turn>)
    ensures Alternates(SentOver(conn, turns))
    ensures forall t :: OpenSubscription(SentOver(conn, turns), t) == Lookup(TableOver(turns), t)
  {
    if turns != [] {
      var before, last := turns[..|turns| - 1], turns[|turns| - 1];
      ConnectionAlternates(conn, before);
      var more := Sends(TableOver(before), conn, last.wish, last.id, last.switchUp);
      if more != [] {
        assert SentOver(conn, turns)[..|SentOver(conn, before)|] == SentOver(conn, before);
      } else {
        assert SentOver(conn, turns) == SentOver(conn, before);
      }
    }
  }

  // ---------- What the wishes alone determine ----------

  /** The turn is about `t`, and the switch listens. */
  predicate Accepts(turn: Turn, t: Topic) {
    turn.switchUp && turn.wish.topic == t
  }

  /** The position of the last accepted turn on `t`, or -1. */
  ghost function LastAccepted(turns: seq<Turn>, t: Topic): (k: int)
    ensures -1 <= k < |turns|
    ensures k != -1 ==> Accepts(turns[k], t)
    ensures forall j | k < j < |turns| :: !Accepts(turns[j], t)
  {
    if turns == [] then -1
    else
      var n := |turns| - 1;
      if Accepts(turns[n], t) then n
      else
        assert forall j | 0 <= j < n :: turns[..n][j] == turns[j];
        LastAccepted(turns[..n], t)
  }

  /** The last accepted wish about `t` is an Add. */
  ghost predicate WantsTopic(turns: seq<Turn>, t: Topic) {
    LastAccepted(turns, t) != -1 && turns[LastAccepted(turns, t)].wish.Add?
  }

  /** Turn `a` is the first accepted Add of `t` since the last accepted Remove of it. */
  ghost predicate OpenedAt(turns: seq<Turn>, t: Topic, a: nat) {
    && a < |turns| && Accepts(turns[a], t) && turns[a].wish.Add?
    && !WantsTopic(turns[..a], t)
    && forall k | a < k < |turns| && Accepts(turns[k], t) :: turns[k].wish.Add?
  }

  lemma OpenedEarlier(turns: seq<Turn>, t: Topic, a: nat)
    requires a + 1 < |turns|
    ensures var n := |turns| - 1;
            OpenedAt(turns, t, a) <==> OpenedAt(turns[..n], t, a) && (Accepts(turns[n], t) ==> turns[n].wish.Add?)
  {
    var n := |turns| - 1;
    assert turns[..n][..a] == turns[..a];
    assert forall k | 0 <= k < n :: turns[..n][k] == turns[k];
  }

  /** A topic is in the table if and only if the last accepted wish about it is an Add, and its
      id is the one drawn for the first accepted Add since the last accepted Remove. */
  lemma {:induction false} TableFromWishes(turns: seq<Turn>, t: Topic)
    ensures t in TableOver(turns) <==> WantsTopic(turns, t)
    ensures t in TableOver(turns) <==> exists a: nat :: OpenedAt(turns, t, a)
    ensures forall a: nat | OpenedAt(turns, t, a) :: Lookup(TableOver(turns), t) == Some(turns[a].id)
  {
    if turns != [] {
      var n := |turns| - 1;
      TableFromWishes(turns[..n], t);
      forall a: nat | a < n
        ensures OpenedAt(turns, t, a) <==> OpenedAt(turns[..n], t, a) && (Accepts(turns[n], t) ==> turns[n].wish.Add?)
      {
        OpenedEarlier(turns, t, a);
      }
      if Accepts(turns[n], t) && turns[n].wish.Add? && !WantsTopic(turns[..n], t) {
        assert OpenedAt(turns, t, n);
      } else if a: nat :| OpenedAt(turns[..n], t, a) {
        assert a < n;
      }
    }
  }

  /** A wish is passed on to the switch if and only if it is accepted and changes what the
      connection wants; and then by exactly one notification, an Unsubscribe with the id that
      the topic was opened with. */
  lemma WishesSent(conn: ConnId, turns: seq<Turn>, next: Turn)
    ensures var t, sent, sent' := next.wish.topic, SentOver(conn, turns), SentOver(conn, turns + [next]);
            if !next.switchUp || (next.wish.Add? <==> WantsTopic(turns, t)) then sent' == sent
            else if next.wish.Add? then sent' == sent + [Subscribe(t, next.id, conn)]
            else exists a: nat :: OpenedAt(turns, t, a) && sent' == sent + [Unsubscribe(t, turns[a].id)]
  {
    assert (turns + [next])[..|turns|] == turns;
    TableFromWishes(turns, next.wish.topic);
    var sent := SentOver(conn, turns);
    assert sent + [] == sent;
  }

  // ---------- The switch ----------

  /** Topic to subscription id to the connection whose channel gets the events. */
  type Routes = map<Topic, map<SubscriptionId, ConnId>>

  function Subscribers(routes: Routes, t: Topic): map<SubscriptionId, ConnId> {
    if t in routes then routes[t] else map[]
  }

  function RoutesAfter(routes: Routes, n: Notification): Routes {
    match n
    case Subscribe(t, id, conn) => routes[t := Subscribers(routes, t)[id := conn]]
    case Unsubscribe(t, id) =>
      if t !in routes then routes
      else
        var rest := routes[t] - {id};
        if rest == map[] then routes - {t} else routes[t := rest]
  }

  function Announces(routes: Routes, n: Notification): seq<TopicNotification> {
    match n
    case Subscribe(t, id, conn) => if |Subscribers(routes, t)[id := conn]| == 1 then [Created(t)] else []
    case Unsubscribe(t, id) => if t in routes && routes[t] - {id} == map[] then [Removed(t)] else []
  }

  /** Dispatching an event drops the topic's subscribers whose channel is closed. */
  function Live(subscribers: map<SubscriptionId, ConnId>, closed: set<ConnId>): map<SubscriptionId, ConnId> {
    map id | id in subscribers && subscribers[id] !in closed :: subscribers[id]
  }

  function RoutesPruned(routes: Routes, t: Topic, closed: set<ConnId>): Routes {
    if t in routes then routes[t := Live(routes[t], closed)] else routes
  }

  type Channels = map<ConnId, seq<Event>>

  function Channel(channels: Channels, conn: ConnId): seq<Event> {
    if conn in channels then channels[conn] else []
  }

  function Copies(e: Event, n: nat): (r: seq<Event>)
    ensures |r| == n && forall x | x in r :: x == e
  {
    seq(n, _ => e)
  }

  function IdsOf(subscribers: map<SubscriptionId, ConnId>, conn: ConnId): set<SubscriptionId> {
    set id | id in subscribers && subscribers[id] == conn
  }

  /** An open channel gets one copy of an event per subscription id it has. */
  function CopiesFor(subscribers: map<SubscriptionId, ConnId>, closed: set<ConnId>, conn: ConnId): nat {
    if conn in closed then 0 else |IdsOf(subscribers, conn)|
  }

  function Delivered(
    channels: Channels, subscribers: map<SubscriptionId, ConnId>, closed: set<ConnId>, e: Event): Channels
  {
    map conn | conn in channels.Keys + subscribers.Values ::
      Channel(channels, conn) + Copies(e, CopiesFor(subscribers, closed, conn))
  }

  lemma DeliveredTo(
    channels: Channels, subscribers: map<SubscriptionId, ConnId>, closed: set<ConnId>, e: Event, conn: ConnId)
    ensures Channel(Delivered(channels, subscribers, closed, e), conn)
            == Channel(channels, conn) + Copies(e, CopiesFor(subscribers, closed, conn))
  {
    if conn !in subscribers.Values {
      assert IdsOf(subscribers, conn) == {};
    }
  }

  lemma CopiesForOneMore(
    subscribers: map<SubscriptionId, ConnId>, id: SubscriptionId, conn: ConnId, closed: set<ConnId>, c: ConnId)
    requires id !in subscribers
    ensures CopiesFor(subscribers[id := conn], closed, c)
            == CopiesFor(subscribers, closed, c) + if c == conn && conn !in closed then 1 else 0
  {
    assert IdsOf(subscribers[id := conn], c) == IdsOf(subscribers, c) + if c == conn then {id} else {};
  }

  /** The channels after the event went to all of `subscribers`. */
  ghost predicate HaveReceived(
    before: Channels, after: Channels, subscribers: map<SubscriptionId, ConnId>, closed: set<ConnId>, e: Event)
  {
    forall c :: Channel(after, c) == Channel(before, c) + Copies(e, CopiesFor(subscribers, closed, c))
  }

  lemma ReceivedOneMore(
    before: Channels, after: Channels, subscribers: map<SubscriptionId, ConnId>, id: SubscriptionId, conn: ConnId,
    closed: set<ConnId>, e: Event)
    requires id !in subscribers && HaveReceived(before, after, subscribers, closed, e)
    ensures conn in closed ==> HaveReceived(before, after, subscribers[id := conn], closed, e)
    ensures conn !in closed ==>
              HaveReceived(before, after[conn := Channel(after, conn) + [e]], subscribers[id := conn], closed, e)
  {
    var after' := if conn in closed then after else after[conn := Channel(after, conn) + [e]];
    forall c
      ensures Channel(after', c) == Channel(before, c) + Copies(e, CopiesFor(subscribers[id := conn], closed, c))
    {
      CopiesForOneMore(subscribers, id, conn, closed, c);
      var n := CopiesFor(subscribers, closed, c);
      assert Copies(e, n + 1) == Copies(e, n) + [e];
    }
  }

  /** The event switch with its routes updated in place. The sending halves of the channels
      are modelled by what was pushed into them and which receivers are gone. */
  class EventSwitch {
    var routes: Routes
    var announced: seq<TopicNotification>
    var channels: Channels
    var closed: set<ConnId>

    constructor ()
      ensures routes == map[] && announced == [] && channels == map[] && closed == {}
    {
      routes, announced, channels, closed := map[], [], map[], {};
    }

    /** Sends the event to each subscriber, in whatever order the table is iterated, and
        collects the ids whose send failed. */
    method SendToAll(e: Event, subscribers: map<SubscriptionId, ConnId>) returns (failed: seq<SubscriptionId>)
      modifies this`channels
      ensures HaveReceived(old(channels), channels, subscribers, closed, e)
      ensures forall id :: id in failed <==> id in subscribers && subscribers[id] in closed
    {
      failed := [];
      var todo := subscribers.Keys;
      ghost var done: map<SubscriptionId, ConnId> := map[];
      assert forall c :: CopiesFor(done, closed, c) == 0;
      while todo != {}
        invariant todo <= subscribers.Keys
        invariant done == map id | id in subscribers && id !in todo :: subscribers[id]
        invariant forall id :: id in failed <==> id in done && done[id] in closed
        invariant HaveReceived(old(channels), channels, done, closed, e)
      {
        var id :| id in todo;
        var conn := subscribers[id];
        ReceivedOneMore(old(channels), channels, done, id, conn, closed, e);
        if conn in closed {
          failed := failed + [id];
        } else {
          channels := channels[conn := Channel(channels, conn) + [e]];
        }
        todo := todo - {id};
        done := done[id := conn];
      }
      assert done == subscribers;
    }

    /** Dispatches an event to its topic's subscribers and removes those whose send failed. */
    method OnEvent(e: Event)
      modifies this`channels, this`routes
      ensures routes == RoutesPruned(old(routes), e.topic, closed)
      ensures HaveReceived(old(channels), channels, Subscribers(old(routes), e.topic), closed, e)
    {
      if e.topic in routes {
        var subscribers := routes[e.topic];
        var failed := SendToAll(e, subscribers);
        for k := 0 to |failed|
          invariant subscribers == map id | id in old(routes)[e.topic] && id !in failed[..k] :: old(routes)[e.topic][id]
        {
          subscribers := subscribers - {failed[k]};
        }
        assert failed[..|failed|] == failed;
        assert subscribers == Live(old(routes)[e.topic], closed);
        routes := routes[e.topic := subscribers];
      } else {
        assert forall c :: IdsOf(map[], c) == {};
      }
    }

    method OnNotification(n: Notification)
      modifies this`routes, this`announced
      ensures routes == RoutesAfter(old(routes), n)
      ensures announced == old(announced) + Announces(old(routes), n)
    {
      match n {
        case Subscribe(t, id, conn) =>
          if t !in routes {
            routes := routes[t := map[]];
          }
          var subscribers: map<SubscriptionId, ConnId> := routes[t];
          subscribers := subscribers[id := conn];
          routes := routes[t := subscribers];
          if |subscribers| == 1 {
            announced := announced + [Created(t)];
          }
        case Unsubscribe(t, id) =>
          if t in routes {
            routes := routes[t := routes[t] - {id}];
            if routes[t] == map[] {
              routes := routes - {t};
              announced := announced + [Removed(t)];
              assert routes == old(routes) - {t};
            }
          }
      }
    }
  }
}
