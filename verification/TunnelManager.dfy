/** The manager as the source keeps it: two maps guarded by one lock, entries whose lastSeen is overwritten,
    sockets that get closed and buffered channels. Each method is one atomic step; the state of the calls and
    readers, which live on their own stacks, is the run of the steps taken so far. */
module TunnelManager {
  import opened Options
  import opened Tunnel
  import opened TunnelRouting
  import Calls = TunnelCalls
  import Registry = TunnelRegistry

  class Socket {
    const id: nat
    var closed: bool

    constructor (id: nat)
      ensures this.id == id && !closed
    {
      this.id, closed := id, false;
    }
  }

  class AgentConn {
    const conn: Socket
    const serverID: string
    var lastSeen: int

    constructor (conn: Socket, serverID: string, now: int)
      ensures this.conn == conn && this.serverID == serverID && lastSeen == now
    {
      this.conn, this.serverID, lastSeen := conn, serverID, now;
    }
  }

  /** make(chan CommandResult, 1) */
  class ResultChan {
    ghost const call: nat
    var buf: seq<Delivery>

    constructor (ghost call: nat)
      ensures this.call == call && buf == []
    {
      this.call := call;
      buf := [];
    }

    /** The select with a default branch: send if the buffer has room, else drop. */
    method TrySend(d: Delivery) returns (sent: bool)
      modifies this
      ensures sent == (old(buf) == [])
      ensures buf == if sent then old(buf) + [d] else old(buf)
    {
      sent := |buf| < CHANNEL_CAPACITY;
      if sent { buf := buf + [d]; }
    }
  }

  /** The heap entries carry what the model's registry says; sockets are known by their number. */
  ghost predicate AgentsMatch(agents: map<string, AgentConn>, sockets: map<nat, Socket>,
                              model: map<string, Agent>, conns: map<nat, string>, closed: set<nat>)
    reads agents.Values, sockets.Values
  {
    && agents.Keys == model.Keys
    && (forall v :: v in agents ==>
          && agents[v].serverID == v
          && agents[v].lastSeen == model[v].lastSeen
          && agents[v].conn.id == model[v].conn
          && agents[v].conn.id in sockets && sockets[agents[v].conn.id] == agents[v].conn)
    && sockets.Keys == conns.Keys
    && (forall i :: i in sockets ==> sockets[i].id == i && (sockets[i].closed <==> i in closed))
  }

  lemma EntryOf(agents: map<string, AgentConn>, sockets: map<nat, Socket>,
                model: map<string, Agent>, conns: map<nat, string>, closed: set<nat>, v: string)
    requires AgentsMatch(agents, sockets, model, conns, closed)
    ensures agents.Keys == model.Keys && sockets.Keys == conns.Keys
    ensures v in agents ==>
      && agents[v].serverID == v && agents[v].lastSeen == model[v].lastSeen && agents[v].conn.id == model[v].conn
      && (agents[v].conn.closed <==> model[v].conn in closed)
      && model[v].conn in sockets && sockets[model[v].conn] == agents[v].conn
  {
  }

  lemma EntryDropped(agents: map<string, AgentConn>, sockets: map<nat, Socket>,
                     model: map<string, Agent>, conns: map<nat, string>, closed: set<nat>, v: string)
    requires AgentsMatch(agents, sockets, model, conns, closed)
    ensures AgentsMatch(agents - {v}, sockets, model - {v}, conns, closed)
  {
  }

  lemma EntryPlaced(agents: map<string, AgentConn>, sockets: map<nat, Socket>,
                    model: map<string, Agent>, conns: map<nat, string>, closed: set<nat>, ac: AgentConn)
    requires AgentsMatch(agents, sockets, model, conns, closed)
    requires ac.conn.id !in conns && ac.conn.id !in closed && !ac.conn.closed
    ensures AgentsMatch(agents[ac.serverID := ac], sockets[ac.conn.id := ac.conn],
                        model[ac.serverID := Agent(ac.conn.id, ac.lastSeen)], conns[ac.conn.id := ac.serverID], closed)
  {
  }

  /** The heap channels carry what the model's channels hold. */
  ghost predicate CommandsMatch(commands: map<string, ResultChan>, chans: map<nat, ResultChan>,
                                model: map<string, nat>, calls: map<nat, Call>)
    reads chans.Values
  {
    && commands.Keys == model.Keys
    && (forall id :: id in commands ==> model[id] in chans && chans[model[id]] == commands[id])
    && (forall c :: c in chans <==> c in calls && calls[c].commandID.Some?)
    && (forall c :: c in chans ==> chans[c].call == c && chans[c].buf == calls[c].chan)
  }

  lemma SameChannelsMatch(commands: map<string, ResultChan>, chans: map<nat, ResultChan>,
                          model: map<string, nat>, calls: map<nat, Call>, calls': map<nat, Call>)
    requires CommandsMatch(commands, chans, model, calls)
    requires forall c :: c in calls' && calls'[c].commandID.Some? <==> c in calls && calls[c].commandID.Some?
    requires forall c :: c in calls && calls[c].commandID.Some? ==> calls'[c].chan == calls[c].chan
    ensures CommandsMatch(commands, chans, model, calls')
  {
  }

  lemma CommandDropped(commands: map<string, ResultChan>, chans: map<nat, ResultChan>,
                       model: map<string, nat>, calls: map<nat, Call>, id: string)
    requires CommandsMatch(commands, chans, model, calls)
    ensures CommandsMatch(commands - {id}, chans, model - {id}, calls)
    ensures id in commands <==> id in model
    ensures id in commands ==>
      model[id] in chans && chans[model[id]] == commands[id] && commands[id].call == model[id]
  {
  }

  lemma ChannelOfCall(commands: map<string, ResultChan>, chans: map<nat, ResultChan>,
                      model: map<string, nat>, calls: map<nat, Call>, c: nat)
    requires CommandsMatch(commands, chans, model, calls) && c in chans
    ensures c in calls && chans[c].call == c && chans[c].buf == calls[c].chan
  {
  }

  lemma CommandPlaced(commands: map<string, ResultChan>, chans: map<nat, ResultChan>,
                      model: map<string, nat>, calls: map<nat, Call>, calls': map<nat, Call>,
                      id: string, ch: ResultChan)
    requires CommandsMatch(commands, chans, model, calls)
    requires ch.call in calls && calls[ch.call].commandID.None? && ch.buf == []
    requires calls'.Keys == calls.Keys && calls'[ch.call].commandID.Some? && calls'[ch.call].chan == []
    requires forall c :: c in calls && c != ch.call ==> calls'[c] == calls[c]
    ensures CommandsMatch(commands[id := ch], chans[ch.call := ch], model[id := ch.call], calls')
    ensures commands.Keys == model.Keys
  {
  }

  class Manager {
    var agents: map<string, AgentConn>
    var commands: map<string, ResultChan>
    ghost var hist: seq<Event>
    ghost var sockets: map<nat, Socket>     // every socket ever registered
    ghost var chans: map<nat, ResultChan>   // by call

    ghost predicate Valid()
      reads this, agents.Values, sockets.Values, chans.Values
    {
      && Legal(hist)
      && AgentsMatch(agents, sockets, Run(hist).agents, Run(hist).conns, Run(hist).closed)
      && CommandsMatch(commands, chans, Run(hist).commands, Run(hist).calls)
    }

    constructor ()
      ensures Valid() && hist == []
    {
      agents, commands, hist, sockets, chans := map[], map[], [], map[], map[];
    }

    /** existing.conn.Close(), if there is one. */
    method CloseExisting(v: string, ghost newcomer: Socket,
                         ghost model: map<string, Agent>, ghost conns: map<nat, string>, ghost closed: set<nat>)
      requires AgentsMatch(agents, sockets, model, conns, closed) && newcomer !in sockets.Values
      modifies set u | u in agents.Values :: u.conn
      ensures AgentsMatch(agents, sockets, model, conns,
                          closed + if v in model then {model[v].conn} else {})
      ensures v in agents ==> agents[v].conn.closed
      ensures unchanged(this) && unchanged(newcomer)
    {
      if v in agents {
        agents[v].conn.closed := true;
      }
    }

    /** The body of cleanup's loop. */
    method DropIfSilent(v: string, now: int,
                        ghost model: map<string, Agent>, ghost conns: map<nat, string>, ghost closed: set<nat>)
      requires AgentsMatch(agents, sockets, model, conns, closed) && v in agents
      modifies this`agents, agents[v].conn
      ensures AgentsMatch(agents, sockets, KeptAfter(model, v, now), conns, closed + ShutBy(model, v, now))
      ensures agents == old(agents) || agents == old(agents) - {v}
    {
      var ac := agents[v];
      if now - ac.lastSeen > STALE_AFTER {
        ac.conn.closed := true;
        agents := agents - {v};
      }
    }

    /** The registration section of HandleTunnel: the connection on file is closed and replaced. */
    method Install(serverID: string, socket: Socket, now: int,
                   ghost model: map<string, Agent>, ghost conns: map<nat, string>, ghost closed: set<nat>)
      returns (ac: AgentConn)
      requires AgentsMatch(agents, sockets, model, conns, closed)
      requires socket.id !in conns && socket.id !in closed && socket !in sockets.Values && !socket.closed
      modifies this`agents, this`sockets, set v | v in agents.Values :: v.conn
      ensures
        var gone := if serverID in model then {model[serverID].conn} else {};
        socket.id !in gone ==>
          AgentsMatch(agents, sockets, model[serverID := Agent(socket.id, now)], conns[socket.id := serverID],
                      closed + gone)
      ensures fresh(ac) && agents == old(agents)[serverID := ac] && ac.conn == socket
      ensures serverID in old(agents) ==> old(agents[serverID].conn).closed
    {
      hide AgentsMatch;
      EntryOf(agents, sockets, model, conns, closed, serverID);
      ac := new AgentConn(socket, serverID, now);
      CloseExisting(serverID, socket, model, conns, closed);
      ghost var gone := if serverID in model then {model[serverID].conn} else {};
      if socket.id !in gone {
        EntryPlaced(agents, sockets, model, conns, closed + gone, ac);
      }
      agents := agents[serverID := ac];
      sockets := sockets[socket.id := socket];
    }

    method Connect(serverID: string, socket: Socket, now: int) returns (ac: AgentConn)
      requires Valid() && socket.id !in Run(hist).conns && socket !in sockets.Values && !socket.closed
      modifies this`hist, this`agents, this`sockets, set v | v in agents.Values :: v.conn
      ensures Valid() && hist == old(hist) + [Event.Connect(serverID, socket.id, now)]
      ensures fresh(ac) && agents == old(agents)[serverID := ac] && ac.conn == socket
      ensures serverID in old(agents) ==> old(agents[serverID].conn).closed
    {
      hide Run, Legal, Enabled, Step, AgentsMatch, CommandsMatch;
      ConnectEffect(hist, serverID, socket.id, now);
      ghost var s := Run(hist);
      ac := Install(serverID, socket, now, s.agents, s.conns, s.closed);
      hist := hist + [Event.Connect(serverID, socket.id, now)];
    }

    /** The heap part of the touch. */
    method TouchEntry(serverID: string, now: int,
                      ghost model: map<string, Agent>, ghost conns: map<nat, string>, ghost closed: set<nat>)
      requires AgentsMatch(agents, sockets, model, conns, closed)
      modifies agents.Values
      ensures AgentsMatch(agents, sockets,
                if serverID in model then model[serverID := Agent(model[serverID].conn, now)] else model, conns, closed)
      ensures serverID in agents ==> agents[serverID].lastSeen == now
    {
      if serverID in agents {
        agents[serverID].lastSeen := now;
      }
    }

    /** Before the type switch of the read loop: the entry under the reader's server ID is touched. */
    method Touch(reader: nat, serverID: string, now: int)
      requires Valid() && reader in Run(hist).conns && Run(hist).conns[reader] == serverID
      modifies this`hist, agents.Values
      ensures Valid() && hist == old(hist) + [Message(reader, now)]
      ensures serverID in agents ==> agents[serverID].lastSeen == now
    {
      hide Run, Legal, Enabled, Step, AgentsMatch, CommandsMatch;
      ghost var s := Run(hist);
      TouchEffect(hist, reader, serverID, now);
      TouchEntry(serverID, now, s.agents, s.conns, s.closed);
      assert CommandsMatch(commands, chans, s.commands, s.calls);
      hist := hist + [Message(reader, now)];
    }

    /** The locked section of handleResult; null when no command is pending under the ID. */
    method TakeResult(ghost reader: nat, msg: ResultMessage) returns (ch: ResultChan?)
      requires Valid() && Enabled(Run(hist), Event.TakeResult(reader, msg))
      modifies this`hist, this`commands
      ensures Valid() && hist == old(hist) + [Event.TakeResult(reader, msg)]
      ensures ch != null <==> Pending(StoryOf(old(hist), msg.commandID))
      ensures ch == null ==> commands == old(commands) && Run(hist) == old(Run(hist))
      ensures ch != null ==>
                && commands == old(commands) - {msg.commandID}
                && reader in Run(hist).hands
                && Run(hist).hands[reader].call == ch.call
                && Run(hist).hands[reader].delivery.commandID == msg.commandID
                && (msg.payload.Some? ==> Run(hist).hands[reader].delivery.result == msg.payload.value)
                && (msg.payload.None? ==> Run(hist).hands[reader].delivery.result.output == ""
                                          && Run(hist).hands[reader].delivery.result.error != "")
                && ch.call in chans && chans[ch.call] == ch
    {
      hide Run, Legal, Enabled, Step, AgentsMatch, CommandsMatch;
      ghost var e := Event.TakeResult(reader, msg);
      TakeResultEffect(hist, reader, msg);
      ghost var s := Run(hist);
      CommandDropped(commands, chans, s.commands, s.calls, msg.commandID);
      if msg.commandID in commands {
        ch := commands[msg.commandID];
        commands := commands - {msg.commandID};
      } else {
        ch := null;
      }
      hist := hist + [e];
    }

    /** The heap part of the send. */
    method Push(ch: ResultChan, d: Delivery, ghost model: map<string, nat>, ghost calls: map<nat, Call>)
      returns (sent: bool)
      requires CommandsMatch(commands, chans, model, calls) && ch.call in chans && chans[ch.call] == ch
      requires ch.call in calls && calls[ch.call].chan == []
      modifies ch
      ensures CommandsMatch(commands, chans, model, calls[ch.call := calls[ch.call].(chan := [d])])
      ensures sent && old(ch.buf) == [] && ch.buf == [d]
    {
      sent := ch.TrySend(d);
    }

    /** The non-blocking send of handleResult: it never takes the default branch. */
    method Deliver(ghost reader: nat, ch: ResultChan, d: Delivery) returns (sent: bool)
      requires Valid() && reader in Run(hist).hands && Run(hist).hands[reader] == Hand(ch.call, d)
      requires ch.call in chans && chans[ch.call] == ch
      modifies this`hist, ch
      ensures Valid() && hist == old(hist) + [Event.Deliver(reader)]
      ensures sent && old(ch.buf) == [] && ch.buf == [d]
    {
      hide Run, Legal, Enabled, Step, AgentsMatch, CommandsMatch;
      ghost var s := Run(hist);
      ChannelOfCall(commands, chans, s.commands, s.calls, ch.call);
      DeliverEffect(hist, reader);
      sent := Push(ch, d, s.commands, s.calls);
      assert AgentsMatch(agents, sockets, s.agents, s.conns, s.closed);
      hist := hist + [Event.Deliver(reader)];
    }

    /** The heap part of the exit path. */
    method Exit(serverID: string, conn: Socket,
                ghost model: map<string, Agent>, ghost conns: map<nat, string>, ghost closed: set<nat>)
      requires AgentsMatch(agents, sockets, model, conns, closed) && conn.id in sockets && sockets[conn.id] == conn
      modifies this`agents, conn
      ensures
        var mine := serverID in model && model[serverID].conn == conn.id;
        && AgentsMatch(agents, sockets, if mine then model - {serverID} else model, conns, closed + {conn.id})
        && agents == (if mine then old(agents) - {serverID} else old(agents)) && conn.closed
    {
      hide AgentsMatch;
      EntryOf(agents, sockets, model, conns, closed, serverID);
      EntryDropped(agents, sockets, model, conns, closed, serverID);
      ghost var kept := model;
      if serverID in agents && agents[serverID].conn == conn {
        agents := agents - {serverID};
        kept := model - {serverID};
      }
      CloseOne(conn, kept, conns, closed);
    }

    /** conn.Close() */
    method CloseOne(conn: Socket,
                    ghost model: map<string, Agent>, ghost conns: map<nat, string>, ghost closed: set<nat>)
      requires AgentsMatch(agents, sockets, model, conns, closed) && conn.id in sockets && sockets[conn.id] == conn
      modifies conn
      ensures AgentsMatch(agents, sockets, model, conns, closed + {conn.id}) && conn.closed
    {
      conn.closed := true;
    }

    /** The exit path of HandleTunnel: delete the entry only if it still holds this connection, and close it. */
    method Disconnect(serverID: string, conn: Socket)
      requires Valid() && conn.id in sockets && sockets[conn.id] == conn && Run(hist).conns[conn.id] == serverID
      modifies this`hist, this`agents, conn
      ensures Valid() && hist == old(hist) + [Event.Disconnect(conn.id)] && conn.closed
      ensures agents == if Registry.Latest(old(hist), serverID) == Some(conn.id) then old(agents) - {serverID}
                        else old(agents)
    {
      hide Run, Legal, Enabled, Step, AgentsMatch, CommandsMatch;
      ghost var e := Event.Disconnect(conn.id);
      ghost var s := Run(hist);
      EntryOf(agents, sockets, s.agents, s.conns, s.closed, serverID);
      DisconnectEffect(hist, conn.id);
      if serverID !in agents { assert agents - {serverID} == agents; }
      Exit(serverID, conn, s.agents, s.conns, s.closed);
      assert CommandsMatch(commands, chans, s.commands, s.calls);
      hist := hist + [e];
    }

    /** cleanup's loop: entries silent for more than five minutes are closed and dropped. */
    method DropSilent(now: int,
                      ghost model: map<string, Agent>, ghost conns: map<nat, string>, ghost closed: set<nat>)
      requires AgentsMatch(agents, sockets, model, conns, closed)
      modifies this`agents, set v | v in agents.Values :: v.conn
      ensures AgentsMatch(agents, sockets, Fresh(model, now), conns, closed + ClosedWithout(model, Fresh(model, now)))
    {
      hide AgentsMatch, Fresh, FreshOr, ClosedWithout, KeptAfter, ShutBy, ShutUpTo;
      EntryOf(agents, sockets, model, conns, closed, "");
      var todo := agents.Keys;
      FreshOrEnds(model, now, closed);
      while todo != {}
        invariant AgentsMatch(agents, sockets, FreshOr(model, todo, now), conns, ShutUpTo(model, todo, now, closed))
        invariant todo <= FreshOr(model, todo, now).Keys
        invariant forall v :: v in agents ==> v in old(agents) && agents[v] == old(agents)[v]
        decreases todo
      {
        var id :| id in todo;
        ghost var kept, shut := FreshOr(model, todo, now), ShutUpTo(model, todo, now, closed);
        EntryOf(agents, sockets, kept, conns, shut, id);
        FreshOrStep(model, todo, id, now, closed);
        todo := todo - {id};
        DropIfSilent(id, now, kept, conns, shut);
      }
    }

    method Cleanup(now: int)
      requires Valid()
      modifies this`hist, this`agents, set v | v in agents.Values :: v.conn
      ensures Valid() && hist == old(hist) + [Event.Cleanup(now)]
      ensures forall v :: v in agents <==>
                v in old(agents) && now - Registry.LastHeard(old(hist), v) <= 300_000_000_000
    {
      hide Run, Legal, Enabled, Step, AgentsMatch, CommandsMatch;
      CleanupEffect(hist, now);
      ghost var s := Run(hist);
      EntryOf(agents, sockets, s.agents, s.conns, s.closed, "");
      DropSilent(now, s.agents, s.conns, s.closed);
      assert CommandsMatch(commands, chans, s.commands, s.calls);
      ghost var kept := Fresh(s.agents, now);
      EntryOf(agents, sockets, kept, s.conns, s.closed + ClosedWithout(s.agents, kept), "");
      hist := hist + [Event.Cleanup(now)];
    }

    /** The first section of ExecuteCommand: null when the agent is not connected. */
    method LookUp(ghost call: nat, serverID: string) returns (ac: AgentConn?)
      requires Valid() && call !in Run(hist).calls
      modifies this`hist
      ensures Valid() && hist == old(hist) + [Event.LookUp(call, serverID)]
      ensures ac != null <==> Registry.Present(old(hist), serverID)
      ensures ac != null ==> Registry.Latest(old(hist), serverID) == Some(ac.conn.id) && !ac.conn.closed
    {
      hide Run, Legal, Enabled, Step, AgentsMatch, CommandsMatch;
      ghost var e := Event.LookUp(call, serverID);
      LookUpEffect(hist, call, serverID);
      ghost var s, t := Run(hist), Run(hist + [e]);
      EntryOf(agents, sockets, s.agents, s.conns, s.closed, serverID);
      SameChannelsMatch(commands, chans, s.commands, s.calls, t.calls);
      ac := if serverID in agents then agents[serverID] else null;
      hist := hist + [e];
    }

    /** The second section of ExecuteCommand: a new channel under a new command ID. */
    method Register(ghost call: nat, commandID: string) returns (ch: ResultChan)
      requires Valid() && Enabled(Run(hist), Event.Register(call, commandID))
      modifies this`hist, this`commands, this`chans
      ensures Valid() && hist == old(hist) + [Event.Register(call, commandID)]
      ensures fresh(ch) && commandID !in old(commands) && commands == old(commands)[commandID := ch]
      ensures chans == old(chans)[call := ch]
    {
      hide Run, Legal, Enabled, Step, AgentsMatch, CommandsMatch;
      ghost var e := Event.Register(call, commandID);
      RegisterEffect(hist, call, commandID);
      ch := new ResultChan(call);
      ghost var s, t := Run(hist), Run(hist + [e]);
      CommandPlaced(commands, chans, s.commands, s.calls, t.calls, commandID, ch);
      commands := commands[commandID := ch];
      chans := chans[call := ch];
      hist := hist + [e];
    }

    /** The socket write and the two ways of giving up leave the manager alone. */
    ghost method CallerMoves(e: Event)
      requires Valid() && (e.Send? || e.GiveUp?) && Enabled(Run(hist), e)
      modifies this`hist
      ensures Valid() && hist == old(hist) + [e]
    {
      hide Run, Legal, Enabled, Step, AgentsMatch, CommandsMatch;
      CallerEffect(hist, e);
      SameChannelsMatch(commands, chans, Run(hist).commands, Run(hist).calls, Run(hist + [e]).calls);
      hist := hist + [e];
    }

    /** The heap part of the receive. */
    method Pop(ch: ResultChan, ghost model: map<string, nat>, ghost calls: map<nat, Call>, ghost calls': map<nat, Call>)
      returns (d: Delivery)
      requires CommandsMatch(commands, chans, model, calls) && ch.call in chans && chans[ch.call] == ch
      requires ch.call in calls && |calls[ch.call].chan| == 1 && calls'.Keys == calls.Keys
      requires calls'[ch.call].commandID == calls[ch.call].commandID && calls'[ch.call].chan == []
      requires forall c :: c in calls && c != ch.call ==> calls'[c] == calls[c]
      modifies ch
      ensures CommandsMatch(commands, chans, model, calls') && d == calls[ch.call].chan[0] && ch.buf == []
    {
      d := ch.buf[0];
      ch.buf := ch.buf[1..];
    }

    /** The result case of the select: what comes out is the first answer to this call's own command. */
    method Receive(ghost call: nat, ch: ResultChan) returns (result: CommandResult)
      requires Valid() && Enabled(Run(hist), Event.Receive(call)) && call in chans && chans[call] == ch
      modifies this`hist, ch
      ensures Valid() && hist == old(hist) + [Event.Receive(call)]
      ensures
        var st := StoryOf(old(hist), old(Run(hist)).calls[call].commandID.value);
        Answered(st) && result == st.answer.value.result
      ensures exists i :: 0 <= i < |old(hist)| && old(hist)[i].TakeResult?
                && old(Run(hist)).calls[call].commandID == Some(old(hist)[i].msg.commandID)
                && Calls.Carries(old(hist)[i].msg, result)
      ensures ch.buf == []
    {
      hide Run, Legal, Enabled, Step, AgentsMatch, CommandsMatch;
      ReceiveEffect(hist, call);
      ghost var s, t := Run(hist), Run(hist + [Event.Receive(call)]);
      ChannelOfCall(commands, chans, s.commands, s.calls, call);
      ghost var i := Calls.AnswerIsAStep(hist, s.calls[call].commandID.value);
      var d := Pop(ch, s.commands, s.calls, t.calls);
      assert AgentsMatch(agents, sockets, s.agents, s.conns, s.closed);
      result := d.result;
      hist := hist + [Event.Receive(call)];
    }

    /** The deferred delete of ExecuteCommand. */
    method Leave(ghost call: nat, commandID: string)
      requires Valid() && Enabled(Run(hist), Event.Leave(call))
      requires Run(hist).calls[call].commandID == Some(commandID)
      modifies this`hist, this`commands
      ensures Valid() && hist == old(hist) + [Event.Leave(call)]
      ensures commands == old(commands) - {commandID}
    {
      hide Run, Legal, Enabled, Step, AgentsMatch, CommandsMatch;
      ghost var e := Event.Leave(call);
      LeaveEffect(hist, call);
      ghost var s, t := Run(hist), Run(hist + [e]);
      ChannelsLeft(commands, chans, s, t, commandID);
      commands := commands - {commandID};
      hist := hist + [e];
    }
  }

  lemma ChannelsLeft(commands: map<string, ResultChan>, chans: map<nat, ResultChan>, s: State, t: State, id: string)
    requires CommandsMatch(commands, chans, s.commands, s.calls)
    requires SameChannels(s, t) && t.commands == s.commands - {id}
    ensures CommandsMatch(commands - {id}, chans, t.commands, t.calls)
  {
    hide CommandsMatch;
    SameChannelsMatch(commands, chans, s.commands, s.calls, t.calls);
    CommandDropped(commands, chans, s.commands, t.calls, id);
  }

  lemma ClosedAreRegistered(es: seq<Event>)
    requires Legal(es)
    ensures Run(es).closed <= Run(es).conns.Keys
    ensures forall v :: v in Run(es).agents ==> Run(es).agents[v].conn in Run(es).conns
  {
    Registry.RunsKeepInv(es);
    forall v | v in Run(es).agents ensures Run(es).agents[v].conn in Run(es).conns {
      assert Registry.RegistryAgrees(es, Run(es), v);
    }
  }

  lemma RegisterIsNew(es: seq<Event>, call: nat, id: string)
    requires Legal(es) && Enabled(Run(es), Event.Register(call, id))
    ensures id !in Run(es).commands && Run(es).calls[call].commandID.None?
  {
    RunsKeepInv(es);
    if id in Run(es).commands { PendingCallIsUnfinished(es, id); }
    assert CallAgrees(es, Run(es).hands, call, Run(es).calls[call]);
  }

  /** A call past its lookup that has not been refused has registered. */
  lemma CallerHasChannel(es: seq<Event>, call: nat)
    requires Legal(es) && call in Run(es).calls
    requires Run(es).calls[call].phase.Registered? || Run(es).calls[call].phase.Waiting?
    ensures Run(es).calls[call].commandID.Some?
  {
    RunsKeepInv(es);
    assert CallAgrees(es, Run(es).hands, call, Run(es).calls[call]);
  }

  lemma RunSnoc(es: seq<Event>, e: Event)
    requires Legal(es) && Enabled(Run(es), e)
    ensures Legal(es + [e]) && Run(es + [e]) == Step(Run(es), e)
  {
    assert (es + [e])[..|es + [e]| - 1] == es;
  }

  // ----- what each step does to the parts of the state the heap mirrors -----

  /** cleanup half-way: the servers still to do are kept. */
  function FreshOr(agents: map<string, Agent>, todo: set<string>, now: int): map<string, Agent> {
    map v | v in agents && (v in todo || v in Fresh(agents, now)) :: agents[v]
  }

  function ClosedWithout(agents: map<string, Agent>, kept: map<string, Agent>): set<nat> {
    set v | v in agents && v !in kept :: agents[v].conn
  }

  /** What one turn of the loop keeps, and what it closes. */
  function KeptAfter(agents: map<string, Agent>, v: string, now: int): map<string, Agent> {
    if v in agents && now - agents[v].lastSeen > STALE_AFTER then agents - {v} else agents
  }

  function ShutBy(agents: map<string, Agent>, v: string, now: int): set<nat> {
    if v in agents && now - agents[v].lastSeen > STALE_AFTER then {agents[v].conn} else {}
  }

  function ShutUpTo(agents: map<string, Agent>, todo: set<string>, now: int, closed: set<nat>): set<nat> {
    closed + ClosedWithout(agents, FreshOr(agents, todo, now))
  }

  lemma FreshOrStep(agents: map<string, Agent>, todo: set<string>, id: string, now: int, closed: set<nat>)
    requires id in todo && todo <= FreshOr(agents, todo, now).Keys
    ensures
      var kept, next := FreshOr(agents, todo, now), FreshOr(agents, todo - {id}, now);
      && next == KeptAfter(kept, id, now) && todo - {id} <= next.Keys
      && ShutUpTo(agents, todo - {id}, now, closed) == ShutUpTo(agents, todo, now, closed) + ShutBy(kept, id, now)
  {
    var kept, next := FreshOr(agents, todo, now), FreshOr(agents, todo - {id}, now);
    assert next == KeptAfter(kept, id, now);
    if now - agents[id].lastSeen > STALE_AFTER { ClosedGrows(agents, kept, id); }
  }

  lemma FreshOrEnds(agents: map<string, Agent>, now: int, closed: set<nat>)
    ensures FreshOr(agents, agents.Keys, now) == agents && FreshOr(agents, {}, now) == Fresh(agents, now)
    ensures ShutUpTo(agents, agents.Keys, now, closed) == closed
    ensures ShutUpTo(agents, {}, now, closed) == closed + ClosedWithout(agents, Fresh(agents, now))
  {
    assert FreshOr(agents, {}, now) == Fresh(agents, now);
    assert ClosedWithout(agents, agents) == {};
  }

  lemma ClosedGrows(agents: map<string, Agent>, kept: map<string, Agent>, id: string)
    requires id in kept && id in agents && kept[id] == agents[id]
    ensures ClosedWithout(agents, kept - {id}) == ClosedWithout(agents, kept) + {agents[id].conn}
  {
  }

  predicate SameAgents(s: State, t: State) {
    t.agents == s.agents && t.conns == s.conns && t.closed == s.closed
  }

  predicate SameCommands(s: State, t: State) {
    t.commands == s.commands && t.calls == s.calls
  }

  predicate SameChannels(s: State, t: State) {
    && t.calls.Keys == s.calls.Keys
    && forall c :: c in s.calls ==>
         t.calls[c].commandID == s.calls[c].commandID && t.calls[c].chan == s.calls[c].chan
  }

  lemma ConnectEffect(es: seq<Event>, serverID: string, conn: nat, now: int)
    requires Legal(es) && Enabled(Run(es), Event.Connect(serverID, conn, now))
    ensures Legal(es + [Event.Connect(serverID, conn, now)])
    ensures
      var s, t := Run(es), Run(es + [Event.Connect(serverID, conn, now)]);
      && SameCommands(s, t)
      && t.agents == s.agents[serverID := Agent(conn, now)]
      && t.conns == s.conns[conn := serverID]
      && t.closed == s.closed + (if serverID in s.agents then {s.agents[serverID].conn} else {})
      && conn !in t.closed
  {
    ClosedAreRegistered(es);
    RunSnoc(es, Event.Connect(serverID, conn, now));
  }

  lemma TouchEffect(es: seq<Event>, reader: nat, serverID: string, now: int)
    requires Legal(es) && reader in Run(es).conns
    ensures Legal(es + [Message(reader, now)])
    ensures
      var s, t := Run(es), Run(es + [Message(reader, now)]);
      s.conns[reader] == serverID ==>
        && SameCommands(s, t) && t.conns == s.conns && t.closed == s.closed
        && t.agents == if serverID in s.agents
                       then s.agents[serverID := Agent(s.agents[serverID].conn, now)] else s.agents
  {
    RunSnoc(es, Message(reader, now));
  }

  lemma TakeResultEffect(es: seq<Event>, reader: nat, msg: ResultMessage)
    requires Legal(es) && Enabled(Run(es), Event.TakeResult(reader, msg))
    ensures Legal(es + [Event.TakeResult(reader, msg)])
    ensures
      var s, t := Run(es), Run(es + [Event.TakeResult(reader, msg)]);
      && SameAgents(s, t) && t.calls == s.calls
      && (msg.commandID in s.commands <==> Pending(StoryOf(es, msg.commandID)))
      && (msg.commandID !in s.commands ==> t == s)
      && (msg.commandID in s.commands ==>
            && t.commands == s.commands - {msg.commandID}
            && reader in t.hands
            && t.hands[reader] == Hand(s.commands[msg.commandID], Delivery(msg.commandID, Decode(msg))))
  {
    TableHoldsPendingCommands(es, msg.commandID);
    RunSnoc(es, Event.TakeResult(reader, msg));
  }

  lemma DeliverEffect(es: seq<Event>, reader: nat)
    requires Legal(es) && reader in Run(es).hands && Run(es).hands[reader].call in Run(es).calls
    ensures Legal(es + [Event.Deliver(reader)])
    ensures
      var s, t := Run(es), Run(es + [Event.Deliver(reader)]);
      var h := s.hands[reader];
      && SameAgents(s, t) && t.commands == s.commands
      && s.calls[h.call].chan == []
      && t.calls == s.calls[h.call := s.calls[h.call].(chan := [h.delivery])]
  {
    ChannelNeverFull(es, reader);
    RunSnoc(es, Event.Deliver(reader));
    var h := Run(es).hands[reader];
    assert [] + [h.delivery] == [h.delivery];
  }

  lemma DisconnectEffect(es: seq<Event>, reader: nat)
    requires Legal(es) && reader in Run(es).conns
    ensures Legal(es + [Event.Disconnect(reader)])
    ensures
      var s, t := Run(es), Run(es + [Event.Disconnect(reader)]);
      var v := s.conns[reader];
      && SameCommands(s, t) && t.conns == s.conns && t.closed == s.closed + {reader}
      && (v in s.agents ==> Registry.Latest(es, v) == Some(s.agents[v].conn))
      && (v in s.agents && s.agents[v].conn == reader ==> t.agents == s.agents - {v})
      && (v !in s.agents || s.agents[v].conn != reader ==> t.agents == s.agents)
  {
    Registry.EntryIsLatestAndOpen(es, Run(es).conns[reader]);
    RunSnoc(es, Event.Disconnect(reader));
    hide Run, Legal;
  }

  lemma CleanupEffect(es: seq<Event>, now: int)
    requires Legal(es) && Enabled(Run(es), Event.Cleanup(now))
    ensures Legal(es + [Event.Cleanup(now)])
    ensures
      var s, t := Run(es), Run(es + [Event.Cleanup(now)]);
      && SameCommands(s, t) && t.conns == s.conns && t.agents == Fresh(s.agents, now)
      && t.closed == s.closed + ClosedWithout(s.agents, t.agents)
      && (forall v :: v in s.agents ==> s.agents[v].lastSeen == Registry.LastHeard(es, v))
  {
    forall v | v in Run(es).agents ensures Run(es).agents[v].lastSeen == Registry.LastHeard(es, v) {
      Registry.EntryIsLatestAndOpen(es, v);
    }
    RunSnoc(es, Event.Cleanup(now));
  }

  lemma LookUpEffect(es: seq<Event>, call: nat, server: string)
    requires Legal(es) && Enabled(Run(es), Event.LookUp(call, server))
    ensures Legal(es + [Event.LookUp(call, server)])
    ensures
      var s, t := Run(es), Run(es + [Event.LookUp(call, server)]);
      && SameAgents(s, t) && t.commands == s.commands
      && (server in s.agents <==> Registry.Present(es, server))
      && (server in s.agents ==>
            Registry.Latest(es, server) == Some(s.agents[server].conn) && s.agents[server].conn !in s.closed)
      && t.calls.Keys == s.calls.Keys + {call} && t.calls[call].commandID.None?
      && (forall c :: c in s.calls ==> t.calls[c] == s.calls[c])
  {
    Registry.EntryIsLatestAndOpen(es, server);
    RunSnoc(es, Event.LookUp(call, server));
  }

  lemma RegisterEffect(es: seq<Event>, call: nat, id: string)
    requires Legal(es) && Enabled(Run(es), Event.Register(call, id))
    ensures Legal(es + [Event.Register(call, id)])
    ensures
      var s, t := Run(es), Run(es + [Event.Register(call, id)]);
      && SameAgents(s, t) && id !in s.commands && call in s.calls && s.calls[call].commandID.None?
      && t.commands == s.commands[id := call]
      && t.calls.Keys == s.calls.Keys && t.calls[call].commandID == Some(id) && t.calls[call].chan == []
      && (forall c :: c in s.calls && c != call ==> t.calls[c] == s.calls[c])
  {
    RegisterIsNew(es, call, id);
    RunSnoc(es, Event.Register(call, id));
  }

  lemma ReceiveEffect(es: seq<Event>, call: nat)
    requires Legal(es) && Enabled(Run(es), Event.Receive(call))
    ensures Legal(es + [Event.Receive(call)])
    ensures
      var s, t := Run(es), Run(es + [Event.Receive(call)]);
      && SameAgents(s, t) && t.commands == s.commands
      && s.calls[call].commandID.Some? && t.calls[call].commandID == s.calls[call].commandID
      && |s.calls[call].chan| == 1 && t.calls[call].chan == []
      && t.calls.Keys == s.calls.Keys && (forall c :: c in s.calls && c != call ==> t.calls[c] == s.calls[c])
      && (var st := StoryOf(es, s.calls[call].commandID.value);
          Answered(st) && s.calls[call].chan[0].result == st.answer.value.result)
  {
    CallerHasChannel(es, call);
    AnswersAreConserved(es, call);
    RunSnoc(es, Event.Receive(call));
  }

  lemma LeaveEffect(es: seq<Event>, call: nat)
    requires Legal(es) && Enabled(Run(es), Event.Leave(call))
    ensures Legal(es + [Event.Leave(call)])
    ensures
      var s, t := Run(es), Run(es + [Event.Leave(call)]);
      && SameAgents(s, t) && t.commands == s.commands - {s.calls[call].commandID.value}
      && SameChannels(s, t)
  {
    RunSnoc(es, Event.Leave(call));
  }

  lemma CallerEffect(es: seq<Event>, e: Event)
    requires Legal(es) && (e.Send? || e.GiveUp?) && Enabled(Run(es), e)
    ensures Legal(es + [e])
    ensures
      var s, t := Run(es), Run(es + [e]);
      SameAgents(s, t) && t.commands == s.commands && SameChannels(s, t)
  {
    RunSnoc(es, e);
  }
}
