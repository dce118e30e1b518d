/** Many connections and one event switch, joined by the two channels the switch reads, as one
    machine of atomic steps. The switch's `biased` select takes an event whenever there is
    one, and a notification only when there is none. */
module PubSubSystem {
  import opened PubSub

  /** An event as it was dispatched, with the subscribers its topic had then. */
  datatype Dispatch = Dispatch(event: Event, subscribers: map<SubscriptionId, ConnId>)

  /** `emitted`, `log`, `issued` and `pruned` are histories that no step reads: the events
      emitted and dispatched, the subscription ids handed to the switch, and whether a
      dispatch has ever dropped a subscriber. */
  datatype System = System(
    tables: map<ConnId, Table>,
    closed: set<ConnId>,
    pending: seq<Notification>,
    events: seq<Event>,
    routes: Routes,
    announced: seq<TopicNotification>,
    channels: Channels,
    emitted: seq<Event>,
    log: seq<Dispatch>,
    issued: set<SubscriptionId>,
    pruned: bool)

  datatype Step =
    | HandleWish(conn: ConnId, wish: Wish, id: SubscriptionId, switchUp: bool)
    | Emit(event: Event)
    | DispatchEvent
    | ApplyNotification
    | Close(conn: ConnId)

  function Init(): System {
    System(map[], {}, [], [], map[], [], map[], [], [], {}, false)
  }

  function TableOf(s: System, conn: ConnId): Table {
    if conn in s.tables then s.tables[conn] else map[]
  }

  predicate Enabled(s: System, step: Step) {
    match step
    case HandleWish(conn, _, _, _) => conn !in s.closed
    case Emit(_) => true
    case DispatchEvent => s.events != []
    case ApplyNotification => s.events == [] && s.pending != []
    case Close(_) => true
  }

  function Next(s: System, step: Step): System
    requires Enabled(s, step)
  {
    match step
    case HandleWish(conn, wish, id, switchUp) =>
      var table := TableOf(s, conn);
      var sends := Sends(table, conn, wish, id, switchUp);
      s.(tables := s.tables[conn := TableAfter(table, wish, id, switchUp)],
         pending := s.pending + sends,
         issued := if sends != [] && sends[0].Subscribe? then s.issued + {id} else s.issued)
    case Emit(e) =>
      s.(events := s.events + [e], emitted := s.emitted + [e])
    case DispatchEvent =>
      var e := s.events[0];
      var subscribers := Subscribers(s.routes, e.topic);
      s.(events := s.events[1..],
         routes := RoutesPruned(s.routes, e.topic, s.closed),
         channels := Delivered(s.channels, subscribers, s.closed, e),
         log := s.log + [Dispatch(e, subscribers)],
         pruned := s.pruned || Live(subscribers, s.closed) != subscribers)
    case ApplyNotification =>
      s.(pending := s.pending[1..],
         routes := RoutesAfter(s.routes, s.pending[0]),
         announced := s.announced + Announces(s.routes, s.pending[0]))
    case Close(conn) =>
      s.(closed := s.closed + {conn})
  }

  datatype Run = Run(states: seq<System>, steps: seq<Step>)

  ghost predicate StepAt(r: Run, i: nat)
    requires i < |r.steps| && |r.states| == |r.steps| + 1
  {
    Enabled(r.states[i], r.steps[i]) && r.states[i + 1] == Next(r.states[i], r.steps[i])
  }

  ghost predicate IsRun(r: Run) {
    && |r.states| == |r.steps| + 1
    && r.states[0] == Init()
    && (forall i: nat | i < |r.steps| :: StepAt(r, i))
  }

  /** The id drawn for a new subscription was never handed to the switch before. */
  predicate Fresh(s: System, step: Step) {
    step.HandleWish? && step.wish.Add? ==> step.id !in s.issued
  }

  ghost predicate FreshAt(r: Run, i: nat)
    requires i < |r.steps| && |r.states| == |r.steps| + 1
  {
    Fresh(r.states[i], r.steps[i])
  }

  /** A run in which random ids never repeat. */
  ghost predicate IsFreshRun(r: Run) {
    IsRun(r) && forall i: nat | i < |r.steps| :: FreshAt(r, i)
  }
}
