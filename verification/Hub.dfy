/** WebSocket hubs that relay through a pub/sub channel (internal/api/ws.go), any number of them. Registering,
    taking a snapshot of the connections, every single write, publishing and taking a message off the channel are
    separate steps, so anything may happen between them. */
module Hub {
  /** The hubs with a subscription, and their instance IDs; without Redis nothing is published. */
  datatype Config = Config(instances: map<nat, string>, redis: bool)

  /** A broadcast travelling through the channel: its number, the source instance and the app ID in the message. */
  datatype Relay = Relay(id: nat, source: string, appID: string)

  datatype Write = Write(id: nat, hub: nat, conn: nat)

  /** A call of Broadcast: where, for which app argument, with which app ID in the message, and what it has left. */
  datatype Broadcast = Broadcast(hub: nat, appID: string, msgAppID: string, pending: set<nat>, published: bool)

  /** A subscriber writing a relayed message. */
  datatype Relaying = Relaying(id: nat, pending: set<nat>)

  datatype State = State(
    clients: map<nat, map<string, set<nat>>>,
    inbox: map<nat, seq<Relay>>,
    broadcasts: map<nat, Broadcast>,
    relaying: map<nat, Relaying>,
    writes: multiset<Write>,
    publishes: multiset<nat>,            // by broadcast
    taken: set<(nat, nat)>,              // broadcast and hub: taken off the channel
    handled: map<(nat, nat), set<nat>>)  // broadcast and hub: the connections found when it was handled

  datatype Event =
    | Register(hub: nat, appID: string, conn: nat)
    | Unregister(hub: nat, appID: string, conn: nat)
    | Start(id: nat, hub: nat, appID: string, msgAppID: string)
    | WriteLocal(id: nat, conn: nat)
    | Publish(id: nat)
    | Take(hub: nat)
    | WriteRelay(hub: nat, conn: nat)

  function Clients<T>(m: map<string, set<T>>, appID: string): set<T> {
    if appID in m then m[appID] else {}
  }

  function AddClient<T>(m: map<string, set<T>>, appID: string, conn: T): map<string, set<T>> {
    m[appID := Clients(m, appID) + {conn}]
  }

  /** An app without connections has no entry. */
  function RemoveClient<T>(m: map<string, set<T>>, appID: string, conn: T): map<string, set<T>> {
    if appID !in m then m
    else if m[appID] - {conn} == {} then m - {appID}
    else m[appID := m[appID] - {conn}]
  }

  function Initial(cfg: Config): State {
    State(map h | h in cfg.instances :: map[], map h | h in cfg.instances :: [], map[], map[], multiset{}, multiset{},
          {}, map[])
  }

  predicate Enabled(cfg: Config, s: State, e: Event) {
    match e
    case Register(hub, _, _) => hub in s.clients
    case Unregister(hub, _, _) => hub in s.clients
    case Start(id, hub, _, _) => id !in s.broadcasts && hub in s.clients && hub in cfg.instances
    case WriteLocal(id, conn) => id in s.broadcasts && conn in s.broadcasts[id].pending
    case Publish(id) =>
      id in s.broadcasts && s.broadcasts[id].pending == {} && !s.broadcasts[id].published && cfg.redis
      && s.broadcasts[id].hub in cfg.instances
    case Take(hub) =>
      hub in s.inbox && s.inbox[hub] != [] && hub !in s.relaying && hub in s.clients && hub in cfg.instances
    case WriteRelay(hub, conn) => hub in s.relaying && conn in s.relaying[hub].pending
  }

  function Step(cfg: Config, s: State, e: Event): State
    requires Enabled(cfg, s, e)
  {
    match e
    case Register(hub, appID, conn) =>
      s.(clients := s.clients[hub := AddClient(s.clients[hub], appID, conn)])
    case Unregister(hub, appID, conn) =>
      s.(clients := s.clients[hub := RemoveClient(s.clients[hub], appID, conn)])
    case Start(id, hub, appID, msgAppID) =>
      var conns := Clients(s.clients[hub], appID);
      s.(broadcasts := s.broadcasts[id := Broadcast(hub, appID, msgAppID, conns, false)],
         handled := s.handled[(id, hub) := conns])
    case WriteLocal(id, conn) =>
      var b := s.broadcasts[id];
      s.(broadcasts := s.broadcasts[id := b.(pending := b.pending - {conn})],
         writes := s.writes + multiset{Write(id, b.hub, conn)})
    case Publish(id) =>
      var b := s.broadcasts[id];
      s.(broadcasts := s.broadcasts[id := b.(published := true)],
         publishes := s.publishes + multiset{id},
         inbox := map h | h in s.inbox :: s.inbox[h] + [Relay(id, cfg.instances[b.hub], b.msgAppID)])
    case Take(hub) =>
      var m := s.inbox[hub][0];
      var rest := s.(inbox := s.inbox[hub := s.inbox[hub][1..]], taken := s.taken + {(m.id, hub)});
      if m.source == cfg.instances[hub] then rest   // its own message
      else
        var conns := Clients(s.clients[hub], m.appID);
        rest.(handled := s.handled[(m.id, hub) := conns],
              relaying := if conns == {} then s.relaying else s.relaying[hub := Relaying(m.id, conns)])
    case WriteRelay(hub, conn) =>
      var r := s.relaying[hub];
      s.(relaying := if r.pending == {conn} then s.relaying - {hub}
                     else s.relaying[hub := r.(pending := r.pending - {conn})],
         writes := s.writes + multiset{Write(r.id, hub, conn)})
  }

  predicate Legal(cfg: Config, es: seq<Event>)
    decreases |es|, 0
  {
    es == [] || (Legal(cfg, es[..|es| - 1]) && Enabled(cfg, Run(cfg, es[..|es| - 1]), es[|es| - 1]))
  }

  function Run(cfg: Config, es: seq<Event>): State
    requires Legal(cfg, es)
    decreases |es|, 1
  {
    if es == [] then Initial(cfg) else Step(cfg, Run(cfg, es[..|es| - 1]), es[|es| - 1])
  }
}

module HubDelivery {
  import opened Counting
  import opened Options
  import opened Hub

  function Copies(q: seq<Relay>, id: nat): nat {
    if q == [] then 0 else (if q[0].id == id then 1 else 0) + Copies(q[1..], id)
  }

  /** The connections a hub still has to write a broadcast to. */
  function Pending(s: State, id: nat, hub: nat): set<nat> {
    if id in s.broadcasts && s.broadcasts[id].hub == hub then s.broadcasts[id].pending
    else if hub in s.relaying && s.relaying[hub].id == id then s.relaying[hub].pending
    else {}
  }

  /** Each connection found at handling time has been written to once, or still will be; no other ever. */
  ghost predicate WritesMatch(s: State, id: nat, hub: nat) {
    var found := Lookup(s.handled, (id, hub)).GetOr({});
    && Pending(s, id, hub) <= found
    && forall c {:trigger Write(id, hub, c)} ::
         s.writes[Write(id, hub, c)] == if c in found && c !in Pending(s, id, hub) then 1 else 0
  }

  /** A published broadcast is in each hub's queue or has been taken off it; never both, never twice. */
  predicate QueuesMatch(s: State, id: nat, hub: nat)
    requires hub in s.inbox
  {
    Copies(s.inbox[hub], id) + (if (id, hub) in s.taken then 1 else 0)
    == if id in s.broadcasts && s.broadcasts[id].published then 1 else 0
  }

  /** A hub has handled a broadcast when it started it, or took it from another instance. */
  predicate HandledMatches(cfg: Config, s: State, id: nat, hub: nat)
  {
    (id, hub) in s.handled <==>
      && id in s.broadcasts
      && hub in cfg.instances && s.broadcasts[id].hub in cfg.instances
      && (hub == s.broadcasts[id].hub
          || ((id, hub) in s.taken && cfg.instances[hub] != cfg.instances[s.broadcasts[id].hub]))
  }

  predicate MessageMatches(cfg: Config, s: State, m: Relay) {
    && m.id in s.broadcasts && s.broadcasts[m.id].hub in cfg.instances
    && s.broadcasts[m.id].published
    && m.source == cfg.instances[s.broadcasts[m.id].hub]
    && m.appID == s.broadcasts[m.id].msgAppID
  }

  predicate PublishedOnce(s: State, id: nat) {
    s.publishes[id] == if id in s.broadcasts && s.broadcasts[id].published then 1 else 0
  }

  predicate RelayMatches(cfg: Config, s: State, hub: nat) {
    hub in s.relaying ==>
      hub in cfg.instances && s.relaying[hub].id in s.broadcasts && s.broadcasts[s.relaying[hub].id].hub != hub
  }

  predicate SameHubs(cfg: Config, s: State) {
    s.clients.Keys == s.inbox.Keys == cfg.instances.Keys
  }

  ghost predicate Inv(cfg: Config, s: State) {
    && SameHubs(cfg, s)
    && (forall id, hub :: WritesMatch(s, id, hub))
    && (forall id, hub :: hub in s.inbox ==> QueuesMatch(s, id, hub))
    && (forall id, hub :: HandledMatches(cfg, s, id, hub))
    && (forall hub :: hub in s.inbox ==> MessagesMatch(cfg, s, s.inbox[hub]))
    && (forall id :: PublishedOnce(s, id))
    && (forall hub :: RelayMatches(cfg, s, hub))
  }

  predicate MessagesMatch(cfg: Config, s: State, q: seq<Relay>) {
    forall i :: 0 <= i < |q| ==> MessageMatches(cfg, s, q[i])
  }

  lemma {:induction false} CopiesSnoc(q: seq<Relay>, m: Relay, id: nat)
    ensures Copies(q + [m], id) == Copies(q, id) + if m.id == id then 1 else 0
  {
    if q == [] {
      assert q + [m] == [m];
    } else {
      assert (q + [m])[1..] == q[1..] + [m];
      CopiesSnoc(q[1..], m, id);
    }
  }

  /** The head of a hub's queue, when the hub takes it. */
  predicate HeadMatches(cfg: Config, s: State, e: Event) {
    e.Take? && e.hub in s.inbox && s.inbox[e.hub] != [] ==> MessageMatches(cfg, s, s.inbox[e.hub][0])
  }

  lemma QuietWrites(cfg: Config, s: State, e: Event, id: nat, hub: nat)
    requires Enabled(cfg, s, e) && (e.Register? || e.Unregister? || e.Publish?) && WritesMatch(s, id, hub)
    ensures WritesMatch(Step(cfg, s, e), id, hub)
  {
  }

  lemma StartWrites(cfg: Config, s: State, e: Event, id: nat, hub: nat)
    requires Enabled(cfg, s, e) && e.Start? && WritesMatch(s, id, hub) && HandledMatches(cfg, s, id, hub)
    requires RelayMatches(cfg, s, hub)
    ensures WritesMatch(Step(cfg, s, e), id, hub)
  {
  }

  lemma LocalWrites(cfg: Config, s: State, e: Event, id: nat, hub: nat)
    requires Enabled(cfg, s, e) && e.WriteLocal? && WritesMatch(s, id, hub)
    ensures WritesMatch(Step(cfg, s, e), id, hub)
  {
  }

  lemma RelayWrites(cfg: Config, s: State, e: Event, id: nat, hub: nat)
    requires Enabled(cfg, s, e) && e.WriteRelay? && WritesMatch(s, id, hub) && RelayMatches(cfg, s, hub)
    requires RelayMatches(cfg, s, e.hub)
    ensures WritesMatch(Step(cfg, s, e), id, hub)
  {
  }

  lemma TakeWrites(cfg: Config, s: State, e: Event, id: nat, hub: nat)
    requires Enabled(cfg, s, e) && e.Take? && HeadMatches(cfg, s, e)
    requires WritesMatch(s, id, hub) && HandledMatches(cfg, s, id, hub) && QueuesMatch(s, s.inbox[e.hub][0].id, e.hub)
    ensures WritesMatch(Step(cfg, s, e), id, hub)
  {
  }

  lemma WritesStep(cfg: Config, s: State, e: Event, id: nat, hub: nat)
    requires Enabled(cfg, s, e) && HeadMatches(cfg, s, e)
    requires WritesMatch(s, id, hub) && HandledMatches(cfg, s, id, hub)
    requires RelayMatches(cfg, s, hub)
    requires e.Take? ==> QueuesMatch(s, s.inbox[e.hub][0].id, e.hub)
    requires e.WriteRelay? ==> RelayMatches(cfg, s, e.hub)
    ensures WritesMatch(Step(cfg, s, e), id, hub)
  {
    hide Step, Enabled, WritesMatch, HandledMatches, QueuesMatch, RelayMatches, HeadMatches;
    match e
    case Start(_, _, _, _) => StartWrites(cfg, s, e, id, hub);
    case WriteLocal(_, _) => LocalWrites(cfg, s, e, id, hub);
    case WriteRelay(_, _) => RelayWrites(cfg, s, e, id, hub);
    case Take(_) => TakeWrites(cfg, s, e, id, hub);
    case _ => QuietWrites(cfg, s, e, id, hub);
  }

  lemma TakeHandled(cfg: Config, s: State, e: Event, id: nat, hub: nat)
    requires Enabled(cfg, s, e) && e.Take? && HeadMatches(cfg, s, e) && SameHubs(cfg, s)
    requires HandledMatches(cfg, s, id, hub) && (hub in s.inbox ==> QueuesMatch(s, id, hub))
    ensures HandledMatches(cfg, Step(cfg, s, e), id, hub)
  {
  }

  lemma StartHandled(cfg: Config, s: State, e: Event, id: nat, hub: nat)
    requires Enabled(cfg, s, e) && e.Start? && SameHubs(cfg, s)
    requires HandledMatches(cfg, s, id, hub) && (hub in s.inbox ==> QueuesMatch(s, id, hub))
    ensures HandledMatches(cfg, Step(cfg, s, e), id, hub)
  {
  }

  lemma QuietHandled(cfg: Config, s: State, e: Event, id: nat, hub: nat)
    requires Enabled(cfg, s, e) && !e.Take? && !e.Start? && HandledMatches(cfg, s, id, hub)
    ensures HandledMatches(cfg, Step(cfg, s, e), id, hub)
  {
  }

  lemma HandledStep(cfg: Config, s: State, e: Event, id: nat, hub: nat)
    requires Enabled(cfg, s, e) && HeadMatches(cfg, s, e) && SameHubs(cfg, s)
    requires HandledMatches(cfg, s, id, hub) && (hub in s.inbox ==> QueuesMatch(s, id, hub))
    ensures HandledMatches(cfg, Step(cfg, s, e), id, hub)
  {
    hide Step, Enabled, HandledMatches, HeadMatches, QueuesMatch, SameHubs;
    match e
    case Take(_) => TakeHandled(cfg, s, e, id, hub);
    case Start(_, _, _, _) => StartHandled(cfg, s, e, id, hub);
    case _ => QuietHandled(cfg, s, e, id, hub);
  }

  lemma PublishQueues(cfg: Config, s: State, e: Event, id: nat, hub: nat)
    requires Enabled(cfg, s, e) && e.Publish? && hub in s.inbox && QueuesMatch(s, id, hub)
    ensures hub in Step(cfg, s, e).inbox && QueuesMatch(Step(cfg, s, e), id, hub)
  {
    var b := s.broadcasts[e.id];
    CopiesSnoc(s.inbox[hub], Relay(e.id, cfg.instances[b.hub], b.msgAppID), id);
    hide Copies;
  }

  lemma TakeQueues(cfg: Config, s: State, e: Event, id: nat, hub: nat)
    requires Enabled(cfg, s, e) && e.Take? && hub in s.inbox && QueuesMatch(s, id, hub)
    ensures hub in Step(cfg, s, e).inbox && QueuesMatch(Step(cfg, s, e), id, hub)
  {
  }

  lemma QuietQueues(cfg: Config, s: State, e: Event, id: nat, hub: nat)
    requires Enabled(cfg, s, e) && !e.Publish? && !e.Take? && hub in s.inbox && QueuesMatch(s, id, hub)
    ensures hub in Step(cfg, s, e).inbox && QueuesMatch(Step(cfg, s, e), id, hub)
  {
    hide Copies;
  }

  lemma QueuesStep(cfg: Config, s: State, e: Event, id: nat, hub: nat)
    requires Enabled(cfg, s, e) && hub in s.inbox && QueuesMatch(s, id, hub)
    ensures hub in Step(cfg, s, e).inbox && QueuesMatch(Step(cfg, s, e), id, hub)
  {
    hide Step, Enabled, QueuesMatch;
    InboxKeys(cfg, s, e);
    match e
    case Publish(_) => PublishQueues(cfg, s, e, id, hub);
    case Take(_) => TakeQueues(cfg, s, e, id, hub);
    case _ => QuietQueues(cfg, s, e, id, hub);
  }

  /** A message stays true, and what is published is true. */
  lemma MessageStep(cfg: Config, s: State, e: Event, m: Relay)
    requires Enabled(cfg, s, e)
    requires MessageMatches(cfg, s, m)
             || (e.Publish? && m == Relay(e.id, cfg.instances[s.broadcasts[e.id].hub], s.broadcasts[e.id].msgAppID))
    ensures MessageMatches(cfg, Step(cfg, s, e), m)
  {
  }

  lemma InboxStep(cfg: Config, s: State, e: Event, hub: nat, i: nat)
    requires Enabled(cfg, s, e) && hub in Step(cfg, s, e).inbox && i < |Step(cfg, s, e).inbox[hub]|
    ensures hub in s.inbox
    ensures
      var m := Step(cfg, s, e).inbox[hub][i];
      || m in s.inbox[hub]
      || (e.Publish? && m == Relay(e.id, cfg.instances[s.broadcasts[e.id].hub], s.broadcasts[e.id].msgAppID))
  {
  }

  lemma MessagesStep(cfg: Config, s: State, e: Event, hub: nat)
    requires Enabled(cfg, s, e) && hub in Step(cfg, s, e).inbox
    requires hub in s.inbox ==> MessagesMatch(cfg, s, s.inbox[hub])
    ensures MessagesMatch(cfg, Step(cfg, s, e), Step(cfg, s, e).inbox[hub])
  {
    hide Step, Enabled, MessageMatches;
    var q := Step(cfg, s, e).inbox[hub];
    forall i: nat | i < |q| ensures MessageMatches(cfg, Step(cfg, s, e), q[i]) {
      InboxStep(cfg, s, e, hub, i);
      if q[i] in s.inbox[hub] {
        var j :| 0 <= j < |s.inbox[hub]| && s.inbox[hub][j] == q[i];
        assert MessageMatches(cfg, s, s.inbox[hub][j]);
      }
      MessageStep(cfg, s, e, q[i]);
    }
  }

  lemma HubsStep(cfg: Config, s: State, e: Event)
    requires Enabled(cfg, s, e) && SameHubs(cfg, s)
    ensures SameHubs(cfg, Step(cfg, s, e))
  {
  }

  lemma PublishesStep(cfg: Config, s: State, e: Event, id: nat)
    requires Enabled(cfg, s, e) && PublishedOnce(s, id)
    ensures PublishedOnce(Step(cfg, s, e), id)
  {
  }

  lemma RelayStep(cfg: Config, s: State, e: Event, hub: nat)
    requires Enabled(cfg, s, e) && HeadMatches(cfg, s, e) && RelayMatches(cfg, s, hub)
    ensures RelayMatches(cfg, Step(cfg, s, e), hub)
  {
  }

  lemma HeadIsTrue(cfg: Config, s: State, e: Event)
    requires Inv(cfg, s) && Enabled(cfg, s, e)
    ensures HeadMatches(cfg, s, e)
    ensures e.Take? ==> e.hub in s.inbox && s.inbox[e.hub] != [] && QueuesMatch(s, s.inbox[e.hub][0].id, e.hub)
  {
    if e.Take? { assert MessagesMatch(cfg, s, s.inbox[e.hub]); }
  }

  lemma InvStep(cfg: Config, s: State, e: Event)
    requires Inv(cfg, s) && Enabled(cfg, s, e)
    ensures Inv(cfg, Step(cfg, s, e))
  {
    hide Step, Enabled, WritesMatch, HandledMatches, QueuesMatch, MessagesMatch, HeadMatches, RelayMatches;
    hide PublishedOnce, SameHubs;
    HeadIsTrue(cfg, s, e);
    HubsStep(cfg, s, e);
    var t := Step(cfg, s, e);
    forall id, hub ensures WritesMatch(t, id, hub) {
      assert HandledMatches(cfg, s, id, hub) && RelayMatches(cfg, s, hub);
      if e.WriteRelay? { assert RelayMatches(cfg, s, e.hub); }
      WritesStep(cfg, s, e, id, hub);
    }
    forall id, hub ensures HandledMatches(cfg, t, id, hub) { HandledStep(cfg, s, e, id, hub); }
    forall id, hub | hub in t.inbox ensures QueuesMatch(t, id, hub) {
      InboxKeys(cfg, s, e);
      QueuesStep(cfg, s, e, id, hub);
    }
    forall hub | hub in t.inbox ensures MessagesMatch(cfg, t, t.inbox[hub]) { MessagesStep(cfg, s, e, hub); }
    forall id ensures PublishedOnce(t, id) { PublishesStep(cfg, s, e, id); }
    forall hub ensures RelayMatches(cfg, t, hub) { RelayStep(cfg, s, e, hub); }
  }

  lemma InboxKeys(cfg: Config, s: State, e: Event)
    requires Enabled(cfg, s, e)
    ensures Step(cfg, s, e).inbox.Keys == s.inbox.Keys
  {
  }

  lemma {:induction false} RunsKeepInv(cfg: Config, es: seq<Event>)
    requires Legal(cfg, es)
    ensures Inv(cfg, Run(cfg, es))
  {
    if es == [] {
      InitialInv(cfg);
    } else {
      RunsKeepInv(cfg, es[..|es| - 1]);
      InvStep(cfg, Run(cfg, es[..|es| - 1]), es[|es| - 1]);
    }
  }

  lemma InitialInv(cfg: Config)
    ensures Inv(cfg, Initial(cfg))
  {
  }

  // ----- what holds in every reachable state -----

  /** No connection is ever written to twice, and once a hub has nothing left to write, exactly the connections it
      found when it handled the broadcast have been written to once. */
  lemma WrittenExactlyOnce(cfg: Config, es: seq<Event>, id: nat, hub: nat, c: nat)
    requires Legal(cfg, es)
    ensures
      var s := Run(cfg, es);
      && s.writes[Write(id, hub, c)] <= 1
      && (Pending(s, id, hub) == {} ==>
            s.writes[Write(id, hub, c)] == if c in Lookup(s.handled, (id, hub)).GetOr({}) then 1 else 0)
  {
    RunsKeepInv(cfg, es);
    assert WritesMatch(Run(cfg, es), id, hub);
  }

  /** A broadcast is published at most once, whatever the relays do. */
  lemma PublishedAtMostOnce(cfg: Config, es: seq<Event>, id: nat)
    requires Legal(cfg, es)
    ensures Run(cfg, es).publishes[id] <= 1
  {
    RunsKeepInv(cfg, es);
    assert PublishedOnce(Run(cfg, es), id);
  }

  /** A published broadcast is on its way to every hub or has been taken off by it, exactly one of the two. The hubs
      that have handled it are its origin and those that took it under another instance ID: the origin never
      handles its own echo. */
  lemma OneHandlingPerHub(cfg: Config, es: seq<Event>, id: nat, hub: nat)
    requires Legal(cfg, es) && hub in cfg.instances
    requires id in Run(cfg, es).broadcasts && Run(cfg, es).broadcasts[id].published
    ensures
      var s := Run(cfg, es);
      var origin := s.broadcasts[id].hub;
      && hub in s.inbox && Copies(s.inbox[hub], id) <= 1
      && ((id, hub) in s.taken <==> Copies(s.inbox[hub], id) == 0)
      && ((id, hub) in s.handled <==>
            || hub == origin
            || (Copies(s.inbox[hub], id) == 0 && cfg.instances[hub] != Lookup(cfg.instances, origin).GetOr("")))
      && (hub in s.relaying && s.relaying[hub].id == id ==> hub != origin)
  {
    RunsKeepInv(cfg, es);
    var s := Run(cfg, es);
    assert QueuesMatch(s, id, hub) && HandledMatches(cfg, s, id, hub) && RelayMatches(cfg, s, hub);
    OriginIsAHub(cfg, es, id);
  }

  lemma OriginStep(cfg: Config, s: State, e: Event, id: nat)
    requires Enabled(cfg, s, e) && (id in s.broadcasts ==> s.broadcasts[id].hub in cfg.instances)
    ensures id in Step(cfg, s, e).broadcasts ==> Step(cfg, s, e).broadcasts[id].hub in cfg.instances
  {
  }

  lemma {:induction false} OriginIsAHub(cfg: Config, es: seq<Event>, id: nat)
    requires Legal(cfg, es)
    ensures id in Run(cfg, es).broadcasts ==> Run(cfg, es).broadcasts[id].hub in cfg.instances
  {
    hide Step, Enabled;
    if es == [] {
    } else {
      OriginIsAHub(cfg, es[..|es| - 1], id);
      OriginStep(cfg, Run(cfg, es[..|es| - 1]), es[|es| - 1], id);
    }
  }

  // ----- what a hub finds when it handles a broadcast -----

  /** The last word about a connection and an app at a hub is a registration. */
  predicate Subscribed(es: seq<Event>, hub: nat, appID: string, conn: nat) {
    if es == [] then false
    else
      var e := es[|es| - 1];
      if e == Register(hub, appID, conn) then true
      else if e == Unregister(hub, appID, conn) then false
      else Subscribed(es[..|es| - 1], hub, appID, conn)
  }

  lemma ClientsStep(cfg: Config, s: State, e: Event, hub: nat, appID: string, conn: nat)
    requires Enabled(cfg, s, e) && hub in s.clients
    ensures hub in Step(cfg, s, e).clients
    ensures conn in Clients(Step(cfg, s, e).clients[hub], appID) <==>
      e == Register(hub, appID, conn) || (e != Unregister(hub, appID, conn) && conn in Clients(s.clients[hub], appID))
  {
  }

  lemma {:induction false} ClientsAreSubscribed(cfg: Config, es: seq<Event>, hub: nat, appID: string, conn: nat)
    requires Legal(cfg, es) && hub in cfg.instances
    ensures hub in Run(cfg, es).clients
    ensures conn in Clients(Run(cfg, es).clients[hub], appID) <==> Subscribed(es, hub, appID, conn)
  {
    hide Step, Enabled, Clients;
    if es == [] {
      NobodyAtFirst(cfg, hub, appID, conn);
    } else {
      ClientsAreSubscribed(cfg, es[..|es| - 1], hub, appID, conn);
      ClientsStep(cfg, Run(cfg, es[..|es| - 1]), es[|es| - 1], hub, appID, conn);
    }
  }

  lemma NobodyAtFirst(cfg: Config, hub: nat, appID: string, conn: nat)
    requires hub in cfg.instances
    ensures hub in Initial(cfg).clients && conn !in Clients(Initial(cfg).clients[hub], appID)
  {
  }

  lemma NoEmptyStep(cfg: Config, s: State, e: Event, hub: nat, appID: string)
    requires Enabled(cfg, s, e) && hub in Step(cfg, s, e).clients && appID in Step(cfg, s, e).clients[hub]
    requires hub in s.clients && appID in s.clients[hub] ==> s.clients[hub][appID] != {}
    ensures hub in s.clients && Step(cfg, s, e).clients[hub][appID] != {}
  {
    if e.Register? && e.hub == hub && e.appID == appID { assert e.conn in Step(cfg, s, e).clients[hub][appID]; }
  }

  /** An app with no connections has no entry, so the client count of an unknown app is the count of none. */
  lemma {:induction false} NoEmptyApps(cfg: Config, es: seq<Event>, hub: nat, appID: string)
    requires Legal(cfg, es) && hub in Run(cfg, es).clients && appID in Run(cfg, es).clients[hub]
    ensures Run(cfg, es).clients[hub][appID] != {}
  {
    hide Step, Enabled;
    if es == [] {
    } else {
      var p, e := es[..|es| - 1], es[|es| - 1];
      if hub in Run(cfg, p).clients && appID in Run(cfg, p).clients[hub] { NoEmptyApps(cfg, p, hub, appID); }
      NoEmptyStep(cfg, Run(cfg, p), e, hub, appID);
    }
  }

  /** The app whose connections a hub serves: the argument of Broadcast at the origin, the message's own elsewhere. */
  function AppServed(b: Broadcast, hub: nat): string {
    if b.hub == hub then b.appID else b.msgAppID
  }

  /** Step k is where the hub handles the broadcast. */
  predicate HandledAt(cfg: Config, es: seq<Event>, k: nat, id: nat, hub: nat)
    requires Legal(cfg, es) && k < |es|
  {
    LegalPrefix(cfg, es, k);
    LegalPrefix(cfg, es, k + 1);
    (id, hub) !in Run(cfg, es[..k]).handled && (id, hub) in Run(cfg, es[..k + 1]).handled
  }

  lemma {:induction false} LegalPrefix(cfg: Config, es: seq<Event>, k: nat)
    requires Legal(cfg, es) && k <= |es|
    ensures Legal(cfg, es[..k])
  {
    if k < |es| {
      LegalPrefix(cfg, es[..|es| - 1], k);
      assert es[..|es| - 1][..k] == es[..k];
    } else {
      assert es[..k] == es;
    }
  }

  /** What was found stays on record. */
  lemma FoundKept(cfg: Config, s: State, e: Event, id: nat, hub: nat)
    requires Enabled(cfg, s, e) && HeadMatches(cfg, s, e) && (id, hub) in s.handled && id in s.broadcasts
    requires e.Take? ==> HandledMatches(cfg, s, s.inbox[e.hub][0].id, e.hub)
    requires e.Take? ==> QueuesMatch(s, s.inbox[e.hub][0].id, e.hub)
    ensures (id, hub) in Step(cfg, s, e).handled && Step(cfg, s, e).handled[(id, hub)] == s.handled[(id, hub)]
  {
  }

  /** A broadcast keeps its arguments. */
  lemma ArgumentsKept(cfg: Config, s: State, e: Event, id: nat)
    requires Enabled(cfg, s, e) && id in s.broadcasts
    ensures
      var b, t := s.broadcasts[id], Step(cfg, s, e);
      && id in t.broadcasts && t.broadcasts[id].hub == b.hub
      && t.broadcasts[id].appID == b.appID && t.broadcasts[id].msgAppID == b.msgAppID
  {
  }

  /** The step that handles a broadcast finds the connections of the app it serves. */
  lemma HandlingFinds(cfg: Config, s: State, e: Event, id: nat, hub: nat)
    requires Enabled(cfg, s, e) && HeadMatches(cfg, s, e)
    requires (id, hub) !in s.handled && (id, hub) in Step(cfg, s, e).handled
    ensures
      var t := Step(cfg, s, e);
      && id in t.broadcasts && hub in s.clients && hub in cfg.instances
      && t.handled[(id, hub)] == Clients(s.clients[hub], AppServed(t.broadcasts[id], hub))
  {
  }

  lemma {:induction false} FoundStays(cfg: Config, es: seq<Event>, k: nat, id: nat, hub: nat)
    requires Legal(cfg, es) && k < |es| && HandledAt(cfg, es, k, id, hub)
    ensures Legal(cfg, es[..k])
    ensures
      var s := Run(cfg, es);
      && (id, hub) in s.handled && id in s.broadcasts && hub in cfg.instances && hub in Run(cfg, es[..k]).clients
      && s.handled[(id, hub)] == Clients(Run(cfg, es[..k]).clients[hub], AppServed(s.broadcasts[id], hub))
    decreases |es|
  {
    var p, e := es[..|es| - 1], es[|es| - 1];
    LegalPrefix(cfg, es, k);
    RunsKeepInv(cfg, p);
    hide Step, Enabled, WritesMatch, HandledMatches, QueuesMatch, RelayMatches, MessagesMatch;
    HeadIsTrue(cfg, Run(cfg, p), e);
    if k == |es| - 1 {
      assert es[..k] == p && es[..k + 1] == es;
      HandlingFinds(cfg, Run(cfg, p), e, id, hub);
    } else {
      assert p[..k] == es[..k] && p[..k + 1] == es[..k + 1];
      FoundStays(cfg, p, k, id, hub);
      FoundKept(cfg, Run(cfg, p), e, id, hub);
      ArgumentsKept(cfg, Run(cfg, p), e, id);
    }
  }

  /** Delivery: once a hub that handled a broadcast at step k has finished, each connection has been written to once
      if it was subscribed there at step k, and not at all otherwise. */
  lemma {:induction false} DeliveredToSubscribers(cfg: Config, es: seq<Event>, k: nat, id: nat, hub: nat, c: nat)
    requires Legal(cfg, es) && k < |es| && HandledAt(cfg, es, k, id, hub) && Pending(Run(cfg, es), id, hub) == {}
    ensures
      var s := Run(cfg, es);
      && id in s.broadcasts
      && s.writes[Write(id, hub, c)] == if Subscribed(es[..k], hub, AppServed(s.broadcasts[id], hub), c) then 1 else 0
  {
    FoundStays(cfg, es, k, id, hub);
    WrittenExactlyOnce(cfg, es, id, hub, c);
    ClientsAreSubscribed(cfg, es[..k], hub, AppServed(Run(cfg, es).broadcasts[id], hub), c);
  }

  /** With the same app ID in the message as in the call, that app's subscribers are served on every hub alike. */
  lemma {:induction false} SameAppEverywhere(cfg: Config, es: seq<Event>, k: nat, id: nat, hub: nat, c: nat)
    requires Legal(cfg, es) && k < |es| && HandledAt(cfg, es, k, id, hub) && Pending(Run(cfg, es), id, hub) == {}
    requires id in Run(cfg, es).broadcasts && Run(cfg, es).broadcasts[id].appID == Run(cfg, es).broadcasts[id].msgAppID
    ensures Run(cfg, es).writes[Write(id, hub, c)]
         == if Subscribed(es[..k], hub, Run(cfg, es).broadcasts[id].appID, c) then 1 else 0
  {
    DeliveredToSubscribers(cfg, es, k, id, hub, c);
  }

  lemma RunSnoc(cfg: Config, es: seq<Event>, e: Event)
    requires Legal(cfg, es) && Enabled(cfg, Run(cfg, es), e)
    ensures Legal(cfg, es + [e]) && Run(cfg, es + [e]) == Step(cfg, Run(cfg, es), e)
  {
    assert (es + [e])[..|es + [e]| - 1] == es;
  }

  // ----- nothing is left undone for want of a step -----

  function NextWrite(s: State, id: nat, hub: nat, c: nat): Event {
    if id in s.broadcasts && s.broadcasts[id].hub == hub then WriteLocal(id, c) else WriteRelay(hub, c)
  }

  /** A connection still to be written to can be, and then is not any more. */
  lemma PendingCanBeWritten(cfg: Config, s: State, id: nat, hub: nat, c: nat)
    requires c in Pending(s, id, hub)
    ensures Enabled(cfg, s, NextWrite(s, id, hub, c))
    ensures Pending(Step(cfg, s, NextWrite(s, id, hub, c)), id, hub) == Pending(s, id, hub) - {c}
  {
  }

  /** A hub can always finish with a broadcast by writing alone. */
  lemma {:induction false} CanFinish(cfg: Config, es: seq<Event>, id: nat, hub: nat) returns (run: seq<Event>)
    requires Legal(cfg, es)
    ensures Legal(cfg, run) && es <= run && Pending(Run(cfg, run), id, hub) == {}
    ensures forall i :: |es| <= i < |run| ==> run[i].WriteLocal? || run[i].WriteRelay?
    decreases |Pending(Run(cfg, es), id, hub)|
  {
    hide Run, Legal, Pending, Step, Enabled;
    run := es;
    if Pending(Run(cfg, es), id, hub) != {} {
      var c := Pick(Pending(Run(cfg, es), id, hub));
      var e := NextWrite(Run(cfg, es), id, hub, c);
      PendingCanBeWritten(cfg, Run(cfg, es), id, hub, c);
      RunSnoc(cfg, es, e);
      run := CanFinish(cfg, es + [e], id, hub);
      assert (es + [e])[..|es|] == es;
    }
  }

  /** A finished broadcast can be published with Redis, and a hub that is not relaying can take what is queued. */
  lemma CanPublishAndTake(cfg: Config, s: State, id: nat, hub: nat)
    requires SameHubs(cfg, s)
    ensures (&& cfg.redis && id in s.broadcasts && s.broadcasts[id].hub in cfg.instances
             && s.broadcasts[id].pending == {} && !s.broadcasts[id].published) ==> Enabled(cfg, s, Publish(id))
    ensures hub in s.inbox && s.inbox[hub] != [] && hub !in s.relaying ==> Enabled(cfg, s, Take(hub))
  {
  }

  lemma SubscribedSnoc(es: seq<Event>, e: Event, hub: nat, appID: string, conn: nat)
    ensures Subscribed(es + [e], hub, appID, conn)
       <==> e == Register(hub, appID, conn) || (e != Unregister(hub, appID, conn) && Subscribed(es, hub, appID, conn))
  {
    assert (es + [e])[..|es + [e]| - 1] == es;
  }

  const TWO_HUBS := Config(map[0 := "a", 1 := "b"], true)

  /** A broadcast has started at hub 0 that finds nobody there, and hub 1 has nobody for the app in its message. */
  predicate NobodyFound(s: State, appID: string, msgAppID: string) {
    && s.broadcasts == map[0 := Broadcast(0, appID, msgAppID, {}, false)]
    && s.inbox == map[0 := [], 1 := []] && s.relaying == map[] && s.writes == multiset{}
    && s.clients.Keys == {0, 1} && Clients(s.clients[1], msgAppID) == {}
  }

  lemma StartFindsNobody(appID: string, msgAppID: string)
    requires appID != msgAppID
    ensures var e, e' := Register(1, appID, 7), Start(0, 0, appID, msgAppID);
      && Enabled(TWO_HUBS, Initial(TWO_HUBS), e)
      && var s := Step(TWO_HUBS, Initial(TWO_HUBS), e);
      && Enabled(TWO_HUBS, s, e') && NobodyFound(Step(TWO_HUBS, s, e'), appID, msgAppID)
  {
  }

  predicate MissedOnHub1(s: State, appID: string, msgAppID: string) {
    && 0 in s.broadcasts && s.broadcasts[0] == Broadcast(0, appID, msgAppID, {}, true)
    && (0, 1) in s.handled && s.writes[Write(0, 1, 7)] == 0
    && (forall h :: h in TWO_HUBS.instances ==> h in s.inbox && s.inbox[h] == [] && Pending(s, 0, h) == {})
  }

  lemma PublishedFinds(s: State, appID: string, msgAppID: string)
    requires NobodyFound(s, appID, msgAppID)
    ensures Enabled(TWO_HUBS, s, Publish(0))
    ensures var t := Step(TWO_HUBS, s, Publish(0));
      && t == s.(broadcasts := map[0 := Broadcast(0, appID, msgAppID, {}, true)],
                 publishes := t.publishes,
                 inbox := map[0 := [Relay(0, "a", msgAppID)], 1 := [Relay(0, "a", msgAppID)]])
  {
    var t, m := Step(TWO_HUBS, s, Publish(0)), Relay(0, "a", msgAppID);
    assert s.inbox[0] + [m] == [m] && s.inbox[1] + [m] == [m];
    assert t.inbox == map[0 := [m], 1 := [m]];
    assert t.broadcasts == map[0 := Broadcast(0, appID, msgAppID, {}, true)];
  }

  lemma TakenByBoth(s: State, appID: string, msgAppID: string)
    requires s.broadcasts == map[0 := Broadcast(0, appID, msgAppID, {}, true)]
    requires s.inbox == map[0 := [Relay(0, "a", msgAppID)], 1 := [Relay(0, "a", msgAppID)]]
    requires s.relaying == map[] && s.writes == multiset{} && s.clients.Keys == {0, 1}
    requires Clients(s.clients[1], msgAppID) == {}
    ensures Enabled(TWO_HUBS, s, Take(0))
    ensures Enabled(TWO_HUBS, Step(TWO_HUBS, s, Take(0)), Take(1))
    ensures MissedOnHub1(Step(TWO_HUBS, Step(TWO_HUBS, s, Take(0)), Take(1)), appID, msgAppID)
  {
  }

  /** Only then: for any other app ID in the message, such as none, there is a finished run in which a subscriber on
      another hub is missed. */
  lemma OtherAppIsMissed(appID: string, msgAppID: string) returns (es: seq<Event>)
    requires appID != msgAppID
    ensures Legal(TWO_HUBS, es) && Subscribed(es, 1, appID, 7) && MissedOnHub1(Run(TWO_HUBS, es), appID, msgAppID)
  {
    hide Run, Legal, Step, Enabled, MissedOnHub1, Subscribed, Initial;
    RunOfNothing(TWO_HUBS);
    StartFindsNobody(appID, msgAppID);
    es := [];
    es := Extend(TWO_HUBS, es, Register(1, appID, 7), appID);
    es := Extend(TWO_HUBS, es, Start(0, 0, appID, msgAppID), appID);
    var s := Run(TWO_HUBS, es);
    PublishedFinds(s, appID, msgAppID);
    es := Extend(TWO_HUBS, es, Publish(0), appID);
    TakenByBoth(Run(TWO_HUBS, es), appID, msgAppID);
    es := Extend(TWO_HUBS, es, Take(0), appID);
    es := Extend(TWO_HUBS, es, Take(1), appID);
  }

  lemma Extend(cfg: Config, es: seq<Event>, e: Event, appID: string) returns (longer: seq<Event>)
    requires Legal(cfg, es) && Enabled(cfg, Run(cfg, es), e)
    ensures longer == es + [e] && Legal(cfg, longer) && Run(cfg, longer) == Step(cfg, Run(cfg, es), e)
    ensures Subscribed(longer, 1, appID, 7)
       <==> e == Register(1, appID, 7) || (e != Unregister(1, appID, 7) && Subscribed(es, 1, appID, 7))
  {
    longer := es + [e];
    RunSnoc(cfg, es, e);
    SubscribedSnoc(es, e, 1, appID, 7);
  }

  lemma RunOfNothing(cfg: Config)
    ensures Legal(cfg, []) && Run(cfg, []) == Initial(cfg)
  {
  }
}
