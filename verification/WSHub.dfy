/** One hub's code (internal/api/ws.go): the branches of its event loop, Broadcast, one turn of the Redis subscriber
    and ClientCount. The bookkeeping is the one of the Hub model; here connections are objects written to. */
module WebSocketHub {
  import opened Hub
  import opened Options

  /** A message; source is the instance it was published by, empty on local writes. */
  datatype Message = Message(kind: string, appID: string, data: string, source: string)

  class Conn {
    var written: seq<Message>

    constructor ()
      ensures written == []
    {
      written := [];
    }

    method WriteMessage(msg: Message)
      modifies this
      ensures written == old(written) + [msg]
    {
      written := written + [msg];
    }
  }

  /** Writes to each connection of a snapshot, in any order. */
  method WriteAll(keys: set<Conn>, msg: Message)
    modifies keys
    ensures forall c :: c in keys ==> c.written == old(c.written) + [msg]
  {
    var left := keys;
    while left != {}
      invariant left <= keys
      invariant forall c :: c in left ==> c.written == old(c.written)
      invariant forall c :: c in keys - left ==> c.written == old(c.written) + [msg]
      decreases |left|
    {
      var c :| c in left;
      left := left - {c};
      c.WriteMessage(msg);
    }
  }

  class WSHub {
    const instanceID: string
    const redis: bool
    var clients: map<string, set<Conn>>
    var published: seq<Message>

    /** An app without connections has no entry. */
    ghost predicate Valid()
      reads this`clients
    {
      forall appID :: appID in clients ==> clients[appID] != {}
    }

    constructor (instanceID: string, redis: bool)
      ensures Valid() && clients == map[] && published == []
      ensures this.instanceID == instanceID && this.redis == redis
    {
      this.instanceID := instanceID;
      this.redis := redis;
      clients := map[];
      published := [];
    }

    /** The register branch of Run. */
    method Register(conn: Conn, appID: string)
      requires Valid()
      modifies this`clients
      ensures Valid() && clients == AddClient(old(clients), appID, conn)
    {
      if appID !in clients {
        clients := clients[appID := {}];
      }
      clients := clients[appID := clients[appID] + {conn}];
      assert conn in clients[appID];
    }

    /** The unregister branch of Run. */
    method Unregister(conn: Conn, appID: string)
      requires Valid()
      modifies this`clients
      ensures Valid() && clients == RemoveClient(old(clients), appID, conn)
    {
      if appID in clients {
        clients := clients[appID := clients[appID] - {conn}];
        if clients[appID] == {} {
          clients := clients - {appID};
        }
      }
    }

    /** Each connection of the app gets the message once, no other connection anything; with Redis the message is
        published once, under this hub's instance ID and the message's own app ID. A message that does not marshal
        reaches nobody, and one that does not marshal with its instance ID is not published. */
    method Broadcast(appID: string, msg: Message, marshals: bool, marshalsForRedis: bool)
      requires Valid()
      modifies this`published, Clients(clients, appID)
      ensures forall c :: c in Clients(clients, appID) ==> c.written == old(c.written) + if marshals then [msg] else []
      ensures published
           == old(published) + if marshals && redis && marshalsForRedis then [msg.(source := instanceID)] else []
    {
      if !marshals {
        return;
      }
      var keys := Clients(clients, appID);
      WriteAll(keys, msg);
      if redis {
        if !marshalsForRedis {
          return;
        }
        published := published + [msg.(source := instanceID)];
      }
    }

    /** One payload off the channel, None when it does not unmarshal: the hub's own message is skipped, any other that
        marshals goes once to each connection of the app it names. Nothing is published. */
    method Relay(payload: Option<Message>, marshals: bool)
      requires Valid()
      modifies if payload.Some? then Clients(clients, payload.value.appID) else {}
      ensures payload.Some? ==> forall c :: c in Clients(clients, payload.value.appID) ==>
                c.written == old(c.written)
                           + if payload.value.source != instanceID && marshals then [payload.value] else []
    {
      if payload.None? {
        return;
      }
      var msg := payload.value;
      if msg.source == instanceID {
        return;
      }
      if !marshals {
        return;
      }
      var keys := Clients(clients, msg.appID);
      WriteAll(keys, msg);
    }

    /** Zero exactly when the app has no entry. */
    method ClientCount(appID: string) returns (n: nat)
      requires Valid()
      ensures n == |Clients(clients, appID)| && (n == 0 <==> appID !in clients)
    {
      n := if appID in clients then |clients[appID]| else 0;
    }
  }

  /** Two hubs and the channel between them: what is broadcast on one reaches each subscriber of either hub once,
      and comes back to nobody, when the message names the app it is broadcast for. */
  method BroadcastAcross(origin: WSHub, other: WSHub, appID: string, msg: Message)
    requires origin.Valid() && other.Valid() && origin != other
    requires origin.redis && origin.instanceID != other.instanceID && msg.appID == appID
    requires Clients(origin.clients, appID) !! Clients(other.clients, appID)
    modifies origin`published, Clients(origin.clients, appID), Clients(other.clients, appID)
    ensures forall c :: c in Clients(origin.clients, appID) ==> c.written == old(c.written) + [msg]
    ensures forall c :: c in Clients(other.clients, appID) ==>
              c.written == old(c.written) + [msg.(source := origin.instanceID)]
    ensures |origin.published| == |old(origin.published)| + 1
  {
    origin.Broadcast(appID, msg, true, true);
    var relayed := origin.published[|origin.published| - 1];
    origin.Relay(Some(relayed), true);
    other.Relay(Some(relayed), true);
  }
}
