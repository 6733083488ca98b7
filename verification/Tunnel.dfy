/** The agent tunnel of internal/agent/tunnel.go as a transition system: one step per lock-protected section,
    channel operation or socket write. A run is any interleaving of the steps of any number of calls and agent
    connections. */
module Tunnel {
  import opened Options

  datatype CommandResult = CommandResult(output: string, error: string)

  /** A "result" message from an agent; the payload is None when it does not unmarshal. */
  datatype ResultMessage = ResultMessage(commandID: string, payload: Option<CommandResult>)

  /** What is put on a result channel: the result, and for the record the command it was sent for. */
  datatype Delivery = Delivery(commandID: string, result: CommandResult)

  datatype Outcome = Received(delivery: Delivery) | TimedOut | Cancelled | SendFailed | NotConnected

  /** Where a call of ExecuteCommand has got to. Leaving: the deferred delete is still to run. */
  datatype Phase =
    | Found(conn: nat)
    | Registered(conn: nat)
    | Waiting
    | Leaving(outcome: Outcome)
    | Returned(outcome: Outcome)

  datatype Call = Call(commandID: Option<string>, phase: Phase, chan: seq<Delivery>)

  /** handleResult between its locked section and its channel send. */
  datatype Hand = Hand(call: nat, delivery: Delivery)

  datatype Agent = Agent(conn: nat, lastSeen: int)

  datatype State = State(
    agents: map<string, Agent>,     // by server ID
    conns: map<nat, string>,        // every connection ever registered, with its server ID
    closed: set<nat>,               // connections the manager or their own exit has closed
    commands: map<string, nat>,     // by command ID: the call whose channel is registered
    calls: map<nat, Call>,
    hands: map<nat, Hand>,          // by the connection whose reader it is
    overflow: nat)                  // results dropped because the channel was full

  datatype Event =
    | Connect(server: string, conn: nat, now: int)
    | Message(reader: nat, now: int)
    | TakeResult(reader: nat, msg: ResultMessage)
    | Deliver(reader: nat)
    | Disconnect(reader: nat)
    | Cleanup(now: int)
    | LookUp(call: nat, server: string)
    | Register(call: nat, commandID: string)
    | Send(call: nat, ok: bool)
    | Receive(call: nat)
    | GiveUp(call: nat, cancelled: bool)
    | Leave(call: nat)

  const INITIAL := State(map[], map[], {}, map[], map[], map[], 0)

  /** Five minutes, in nanoseconds. */
  const STALE_AFTER := 300_000_000_000

  const CHANNEL_CAPACITY := 1

  function Decode(msg: ResultMessage): CommandResult {
    match msg.payload
    case Some(r) => r
    case None => CommandResult("", "failed to unmarshal result")
  }

  /** Where the program can be when the step happens. Command IDs and connections are new. */
  predicate Enabled(s: State, e: Event) {
    match e
    case Connect(_, conn, _) => conn !in s.conns
    case Message(reader, _) => reader in s.conns
    case TakeResult(reader, _) => reader in s.conns && reader !in s.hands
    case Deliver(reader) => reader in s.hands && s.hands[reader].call in s.calls
    case Disconnect(reader) => reader in s.conns
    case Cleanup(_) => true
    case LookUp(call, _) => call !in s.calls
    case Register(call, id) =>
      call in s.calls && s.calls[call].phase.Found? && forall c :: c in s.calls ==> s.calls[c].commandID != Some(id)
    case Send(call, _) => call in s.calls && s.calls[call].phase.Registered?
    case Receive(call) => call in s.calls && s.calls[call].phase.Waiting? && s.calls[call].chan != []
    case GiveUp(call, _) => call in s.calls && s.calls[call].phase.Waiting?
    case Leave(call) => call in s.calls && s.calls[call].phase.Leaving? && s.calls[call].commandID.Some?
  }

  function Fresh(agents: map<string, Agent>, now: int): map<string, Agent> {
    map s | s in agents && now - agents[s].lastSeen <= STALE_AFTER :: agents[s]
  }

  function Step(s: State, e: Event): State
    requires Enabled(s, e)
  {
    match e
    case Connect(server, conn, now) =>
      s.(agents := s.agents[server := Agent(conn, now)],
         conns := s.conns[conn := server],
         closed := if server in s.agents then s.closed + {s.agents[server].conn} else s.closed)
    case Message(reader, now) =>
      // The entry under the reader's server ID is touched, whichever connection it holds by now.
      var server := s.conns[reader];
      if server in s.agents then s.(agents := s.agents[server := s.agents[server].(lastSeen := now)]) else s
    case TakeResult(reader, msg) =>
      if msg.commandID in s.commands
      then s.(commands := s.commands - {msg.commandID},
              hands := s.hands[reader := Hand(s.commands[msg.commandID], Delivery(msg.commandID, Decode(msg)))])
      else s
    case Deliver(reader) =>
      var h := s.hands[reader];
      var c := s.calls[h.call];
      if |c.chan| < CHANNEL_CAPACITY
      then s.(calls := s.calls[h.call := c.(chan := c.chan + [h.delivery])], hands := s.hands - {reader})
      else s.(hands := s.hands - {reader}, overflow := s.overflow + 1)
    case Disconnect(reader) =>
      // The deferred Close of the connection included.
      var server := s.conns[reader];
      s.(agents := if server in s.agents && s.agents[server].conn == reader then s.agents - {server} else s.agents,
         closed := s.closed + {reader})
    case Cleanup(now) =>
      s.(agents := Fresh(s.agents, now),
         closed := s.closed + set v | v in s.agents && v !in Fresh(s.agents, now) :: s.agents[v].conn)
    case LookUp(call, server) =>
      s.(calls := s.calls[call := Call(None,
          if server in s.agents then Found(s.agents[server].conn) else Returned(NotConnected), [])])
    case Register(call, id) =>
      var c := s.calls[call];
      s.(commands := s.commands[id := call],
         calls := s.calls[call := Call(Some(id), Registered(c.phase.conn), [])])
    case Send(call, ok) =>
      s.(calls := s.calls[call := s.calls[call].(phase := if ok then Waiting else Leaving(SendFailed))])
    case Receive(call) =>
      var c := s.calls[call];
      s.(calls := s.calls[call := c.(phase := Leaving(Received(c.chan[0])), chan := c.chan[1..])])
    case GiveUp(call, cancelled) =>
      s.(calls := s.calls[call := s.calls[call].(phase := Leaving(if cancelled then Cancelled else TimedOut))])
    case Leave(call) =>
      var c := s.calls[call];
      s.(commands := s.commands - {c.commandID.value},
         calls := s.calls[call := c.(phase := Returned(c.phase.outcome))])
  }

  /** A run that only takes enabled steps. */
  predicate Legal(es: seq<Event>)
    decreases |es|, 0
  {
    es == [] || (Legal(es[..|es| - 1]) && Enabled(Run(es[..|es| - 1]), es[|es| - 1]))
  }

  function Run(es: seq<Event>): State
    requires Legal(es)
    decreases |es|, 1
  {
    if es == [] then INITIAL else Step(Run(es[..|es| - 1]), es[|es| - 1])
  }
}

/** Routing: who gets which result, over every interleaving. */
module TunnelRouting {
  import opened Options
  import opened Tunnel

  /** The first result sent for a command while it was registered, and the connection it came in on. */
  datatype Answer = Answer(reader: nat, result: CommandResult)

  /** One command ID seen alone: the call that registered it, its answer, and whether the call has gone.
      Nothing else in a run matters to it. */
  datatype Story = Unheard | Heard(call: nat, answer: Option<Answer>, over: bool)

  function StoryStep(st: Story, id: string, e: Event): Story {
    if e.Register? && e.commandID == id && st.Unheard? then Heard(e.call, None, false)
    else if e.TakeResult? && e.msg.commandID == id && Pending(st) then
      st.(answer := Some(Answer(e.reader, Decode(e.msg))))
    else if e.Leave? && st.Heard? && st.call == e.call then st.(over := true)
    else st
  }

  function StoryOf(es: seq<Event>, id: string): Story {
    if es == [] then Unheard else StoryStep(StoryOf(es[..|es| - 1], id), id, es[|es| - 1])
  }

  /** Registered, unanswered and unfinished. */
  predicate Pending(st: Story) {
    st.Heard? && st.answer.None? && !st.over
  }

  predicate Answered(st: Story) {
    st.Heard? && st.answer.Some?
  }

  function OutcomeOf(p: Phase): Option<Outcome> {
    match p
    case Leaving(o) => Some(o)
    case Returned(o) => Some(o)
    case _ => None
  }

  predicate HasReceived(c: Call) {
    OutcomeOf(c.phase).Some? && OutcomeOf(c.phase).value.Received?
  }

  predicate Held(hands: map<nat, Hand>, call: nat, id: string, a: Answer) {
    a.reader in hands && hands[a.reader] == Hand(call, Delivery(id, a.result))
  }

  /** An answer is in exactly one place: with the handler, in the channel, or returned to the caller. */
  predicate InOnePlace(held: bool, c: Call, d: Delivery) {
    || (held && c.chan == [] && !HasReceived(c))
    || (!held && c.chan == [d] && !HasReceived(c))
    || (!held && c.chan == [] && OutcomeOf(c.phase) == Some(Received(d)))
  }

  predicate NoResult(c: Call) {
    c.chan == [] && !HasReceived(c)
  }

  /** A call that registered a command agrees with that command's story. */
  predicate Agrees(hands: map<nat, Hand>, call: nat, c: Call, st: Story)
    requires c.commandID.Some?
  {
    && !c.phase.Found?
    && st.Heard? && st.call == call
    && (st.over <==> c.phase.Returned?)
    && (match st.answer
        case None => NoResult(c)
        case Some(a) =>
          InOnePlace(Held(hands, call, c.commandID.value, a), c, Delivery(c.commandID.value, a.result)))
  }

  predicate Unregistered(c: Call) {
    NoResult(c) && (c.phase.Found? || c.phase == Returned(NotConnected))
  }

  predicate CallAgrees(es: seq<Event>, hands: map<nat, Hand>, call: nat, c: Call) {
    match c.commandID
    case None => Unregistered(c)
    case Some(id) => Agrees(hands, call, c, StoryOf(es, id))
  }

  predicate CallsAgree(es: seq<Event>, s: State) {
    forall c :: c in s.calls ==> CallAgrees(es, s.hands, c, s.calls[c])
  }

  ghost predicate StoriesHaveCalls(es: seq<Event>, s: State) {
    forall id :: StoryOf(es, id).Heard? ==>
      var c := StoryOf(es, id).call; c in s.calls && s.calls[c].commandID == Some(id)
  }

  /** The pending table is exactly the registered, unanswered, unfinished commands. */
  ghost predicate TableIsPending(es: seq<Event>, s: State) {
    forall id {:trigger id in s.commands} {:trigger StoryOf(es, id)} ::
      && (id in s.commands <==> Pending(StoryOf(es, id)))
      && (id in s.commands ==> s.commands[id] == StoryOf(es, id).call)
  }

  predicate HandsHoldAnswers(es: seq<Event>, s: State) {
    forall r :: r in s.hands ==>
      var h := s.hands[r];
      var st := StoryOf(es, h.delivery.commandID);
      Answered(st) && st.call == h.call && st.answer == Some(Answer(r, h.delivery.result))
  }

  ghost predicate Inv(es: seq<Event>, s: State) {
    && s.overflow == 0
    && CallsAgree(es, s)
    && StoriesHaveCalls(es, s)
    && TableIsPending(es, s)
    && HandsHoldAnswers(es, s)
  }

  /** The stories of es', one event after es. */
  ghost predicate After(es: seq<Event>, e: Event, es': seq<Event>) {
    forall id {:trigger StoryOf(es', id)} :: StoryOf(es', id) == StoryStep(StoryOf(es, id), id, e)
  }

  lemma AfterSnoc(es: seq<Event>, e: Event)
    ensures After(es, e, es + [e])
  {
    assert (es + [e])[..|es + [e]| - 1] == es;
  }

  /** Steps that change neither a story nor anything a call owns. */
  lemma QuietStep(es: seq<Event>, s: State, e: Event, es': seq<Event>)
    requires Inv(es, s) && Enabled(s, e) && After(es, e, es')
    requires e.Connect? || e.Message? || e.Disconnect? || e.Cleanup?
    ensures Inv(es', Step(s, e))
  {
    hide Agrees, Unregistered;
  }

  lemma LookUpStep(es: seq<Event>, s: State, e: Event, es': seq<Event>)
    requires Inv(es, s) && Enabled(s, e) && After(es, e, es')
    requires e.LookUp?
    ensures Inv(es', Step(s, e))
  {
    hide Agrees;
  }

  lemma RegisterCalls(es: seq<Event>, s: State, e: Event, es': seq<Event>)
    requires CallsAgree(es, s) && StoriesHaveCalls(es, s) && Enabled(s, e) && After(es, e, es')
    requires e.Register?
    ensures CallsAgree(es', Step(s, e))
    ensures StoryOf(es, e.commandID).Unheard? && s.calls[e.call].commandID.None?
  {
    hide InOnePlace, Held;
  }

  lemma RegisterStep(es: seq<Event>, s: State, e: Event, es': seq<Event>)
    requires Inv(es, s) && Enabled(s, e) && After(es, e, es')
    requires e.Register?
    ensures Inv(es', Step(s, e))
  {
    hide CallsAgree, Agrees, CallAgrees;
    RegisterCalls(es, s, e, es');
  }

  /** A result with no pending command, late or duplicate, reaches nobody. */
  lemma LateResultStep(es: seq<Event>, s: State, e: Event, es': seq<Event>)
    requires Inv(es, s) && Enabled(s, e) && After(es, e, es')
    requires e.TakeResult? && e.msg.commandID !in s.commands
    ensures Step(s, e) == s
    ensures forall id :: StoryOf(es', id) == StoryOf(es, id)
    ensures Inv(es', s)
  {
    hide Agrees, Unregistered;
    assert !Pending(StoryOf(es, e.msg.commandID));
  }

  lemma TakeResultCalls(es: seq<Event>, s: State, e: Event, es': seq<Event>)
    requires Inv(es, s) && Enabled(s, e) && After(es, e, es')
    requires e.TakeResult? && e.msg.commandID in s.commands
    ensures CallsAgree(es', Step(s, e))
  {
    var t := Step(s, e);
    assert Pending(StoryOf(es, e.msg.commandID));
    forall c | c in t.calls ensures CallAgrees(es', t.hands, c, t.calls[c]) {
      assert CallAgrees(es, s.hands, c, s.calls[c]);
    }
  }

  /** The answer passes from the table to the handler. */
  lemma TakeResultStep(es: seq<Event>, s: State, e: Event, es': seq<Event>)
    requires Inv(es, s) && Enabled(s, e) && After(es, e, es')
    requires e.TakeResult? && e.msg.commandID in s.commands
    ensures Inv(es', Step(s, e))
  {
    hide CallsAgree, Agrees, CallAgrees;
    TakeResultCalls(es, s, e, es');
  }

  predicate SameIDs(a: map<nat, Call>, b: map<nat, Call>) {
    a.Keys == b.Keys && forall c :: c in a ==> a[c].commandID == b[c].commandID
  }

  /** Steps that leave the table and every story alone have to answer for the calls only. */
  lemma OnlyCallsMoved(es: seq<Event>, s: State, es': seq<Event>, t: State)
    requires Inv(es, s) && (forall id {:trigger StoryOf(es', id)} :: StoryOf(es', id) == StoryOf(es, id))
    requires t.overflow == 0 && t.commands == s.commands && SameIDs(s.calls, t.calls) && CallsAgree(es', t)
    requires forall r :: r in t.hands ==> r in s.hands && t.hands[r] == s.hands[r]
    ensures Inv(es', t)
  {
    hide CallsAgree, Pending;
    forall id | StoryOf(es', id).Heard?
      ensures var c := StoryOf(es', id).call; c in t.calls && t.calls[c].commandID == Some(id)
    {
      assert StoryOf(es, id).Heard?;
    }
    forall r | r in t.hands
      ensures var h := t.hands[r]; var st := StoryOf(es', h.delivery.commandID);
        Answered(st) && st.call == h.call && st.answer == Some(Answer(r, h.delivery.result))
    {
      assert r in s.hands;
    }
  }

  lemma SameStories(es: seq<Event>, e: Event, es': seq<Event>)
    requires After(es, e, es') && (e.Deliver? || e.Send? || e.Receive? || e.GiveUp?)
    ensures forall id {:trigger StoryOf(es', id)} :: StoryOf(es', id) == StoryOf(es, id)
  {
  }

  /** The channel is empty, so the send succeeds. */
  lemma DeliverCall(es: seq<Event>, s: State, e: Event, c: nat)
    requires CallsAgree(es, s) && HandsHoldAnswers(es, s) && StoriesHaveCalls(es, s) && Enabled(s, e)
    requires e.Deliver? && c in s.calls
    ensures Step(s, e).overflow == s.overflow
    ensures CallAgrees(es, Step(s, e).hands, c, Step(s, e).calls[c])
  {
    var h := s.hands[e.reader];
    assert Answered(StoryOf(es, h.delivery.commandID));
    assert CallAgrees(es, s.hands, h.call, s.calls[h.call]) && CallAgrees(es, s.hands, c, s.calls[c]);
    hide CallsAgree, HandsHoldAnswers, StoriesHaveCalls;
  }

  lemma DeliverStep(es: seq<Event>, s: State, e: Event, es': seq<Event>)
    requires Inv(es, s) && Enabled(s, e) && After(es, e, es')
    requires e.Deliver?
    ensures Inv(es', Step(s, e))
  {
    hide CallAgrees, Agrees;
    var t := Step(s, e);
    SameStories(es, e, es');
    DeliverCall(es, s, e, s.hands[e.reader].call);
    forall c | c in t.calls ensures CallAgrees(es', t.hands, c, t.calls[c]) {
      DeliverCall(es, s, e, c);
      SameStoryAgrees(es, es', t.hands, c, t.calls[c]);
    }
    hide Inv;
    OnlyCallsMoved(es, s, es', t);
  }

  lemma SameStoryAgrees(es: seq<Event>, es': seq<Event>, hands: map<nat, Hand>, call: nat, c: Call)
    requires CallAgrees(es, hands, call, c)
    requires forall id {:trigger StoryOf(es', id)} :: StoryOf(es', id) == StoryOf(es, id)
    ensures CallAgrees(es', hands, call, c)
  {
    hide Agrees;
  }

  lemma SendCall(es: seq<Event>, s: State, e: Event, c: nat)
    requires CallsAgree(es, s) && Enabled(s, e) && e.Send? && c in s.calls
    ensures CallAgrees(es, Step(s, e).hands, c, Step(s, e).calls[c])
  {
    assert CallAgrees(es, s.hands, c, s.calls[c]);
    hide CallsAgree, Held;
  }

  lemma ReceiveCall(es: seq<Event>, s: State, e: Event, c: nat)
    requires CallsAgree(es, s) && Enabled(s, e) && e.Receive? && c in s.calls
    ensures CallAgrees(es, Step(s, e).hands, c, Step(s, e).calls[c])
  {
    assert CallAgrees(es, s.hands, c, s.calls[c]);
    hide CallsAgree, Held;
  }

  lemma GiveUpCall(es: seq<Event>, s: State, e: Event, c: nat)
    requires CallsAgree(es, s) && Enabled(s, e) && e.GiveUp? && c in s.calls
    ensures CallAgrees(es, Step(s, e).hands, c, Step(s, e).calls[c])
  {
    assert CallAgrees(es, s.hands, c, s.calls[c]);
    hide CallsAgree, Held;
  }

  /** The caller's own steps: it sends, takes its result, or stops waiting. */
  lemma CallerCall(es: seq<Event>, s: State, e: Event, c: nat)
    requires CallsAgree(es, s) && Enabled(s, e) && (e.Send? || e.Receive? || e.GiveUp?) && c in s.calls
    ensures c in Step(s, e).calls && CallAgrees(es, Step(s, e).hands, c, Step(s, e).calls[c])
  {
    hide CallsAgree, CallAgrees;
    match e
    case Send(_, _) => SendCall(es, s, e, c);
    case Receive(_) => ReceiveCall(es, s, e, c);
    case _ => GiveUpCall(es, s, e, c);
  }

  lemma CallerStep(es: seq<Event>, s: State, e: Event, es': seq<Event>)
    requires Inv(es, s) && Enabled(s, e) && After(es, e, es')
    requires e.Send? || e.Receive? || e.GiveUp?
    ensures Inv(es', Step(s, e))
  {
    hide CallAgrees, Agrees;
    var t := Step(s, e);
    SameStories(es, e, es');
    forall c | c in t.calls ensures CallAgrees(es', t.hands, c, t.calls[c]) {
      CallerCall(es, s, e, c);
      SameStoryAgrees(es, es', t.hands, c, t.calls[c]);
    }
    hide Inv;
    OnlyCallsMoved(es, s, es', t);
  }

  lemma LeaveCall(es: seq<Event>, s: State, e: Event, es': seq<Event>, c: nat)
    requires CallsAgree(es, s) && Enabled(s, e) && After(es, e, es')
    requires e.Leave? && c in s.calls
    ensures CallAgrees(es', Step(s, e).hands, c, Step(s, e).calls[c])
  {
    assert CallAgrees(es, s.hands, c, s.calls[c]);
    hide CallsAgree, Held;
  }

  lemma LeaveTable(es: seq<Event>, s: State, e: Event, es': seq<Event>)
    requires CallsAgree(es, s) && TableIsPending(es, s) && StoriesHaveCalls(es, s) && Enabled(s, e) && After(es, e, es')
    requires e.Leave?
    ensures TableIsPending(es', Step(s, e))
  {
    assert CallAgrees(es, s.hands, e.call, s.calls[e.call]);
    hide CallsAgree, InOnePlace, NoResult, Unregistered, CallAgrees;
  }

  lemma LeaveRest(es: seq<Event>, s: State, e: Event, es': seq<Event>)
    requires StoriesHaveCalls(es, s) && HandsHoldAnswers(es, s) && Enabled(s, e) && After(es, e, es')
    requires e.Leave?
    ensures StoriesHaveCalls(es', Step(s, e)) && HandsHoldAnswers(es', Step(s, e))
  {
  }

  lemma LeaveStep(es: seq<Event>, s: State, e: Event, es': seq<Event>)
    requires Inv(es, s) && Enabled(s, e) && After(es, e, es')
    requires e.Leave?
    ensures Inv(es', Step(s, e))
  {
    hide CallAgrees, StoriesHaveCalls, TableIsPending, HandsHoldAnswers, After;
    LeaveTable(es, s, e, es');
    LeaveRest(es, s, e, es');
    forall c | c in Step(s, e).calls ensures CallAgrees(es', Step(s, e).hands, c, Step(s, e).calls[c]) {
      LeaveCall(es, s, e, es', c);
    }
  }

  lemma InvStep(es: seq<Event>, s: State, e: Event, es': seq<Event>)
    requires Inv(es, s) && Enabled(s, e) && After(es, e, es')
    ensures Inv(es', Step(s, e))
  {
    hide Inv, Step, Enabled, After;
    match e
    case LookUp(_, _) => LookUpStep(es, s, e, es');
    case Register(_, _) => RegisterStep(es, s, e, es');
    case TakeResult(_, msg) =>
      if msg.commandID in s.commands { TakeResultStep(es, s, e, es'); } else { LateResultStep(es, s, e, es'); }
    case Deliver(_) => DeliverStep(es, s, e, es');
    case Send(_, _) => CallerStep(es, s, e, es');
    case Receive(_) => CallerStep(es, s, e, es');
    case GiveUp(_, _) => CallerStep(es, s, e, es');
    case Leave(_) => LeaveStep(es, s, e, es');
    case _ => QuietStep(es, s, e, es');
  }

  lemma {:induction false} RunsKeepInv(es: seq<Event>)
    requires Legal(es)
    ensures Inv(es, Run(es))
  {
    if es == [] {
    } else {
      var p, e := es[..|es| - 1], es[|es| - 1];
      RunsKeepInv(p);
      AfterSnoc(p, e);
      assert p + [e] == es;
      InvStep(p, Run(p), e, es);
    }
  }

  // ----- what a caller and an agent can rely on -----

  /** A call that returns a result returns the first one sent for its own command while it was registered. */
  lemma ReceivedIsOwnFirstAnswer(es: seq<Event>, call: nat)
    requires Legal(es) && call in Run(es).calls && HasReceived(Run(es).calls[call])
    ensures
      var c := Run(es).calls[call];
      && c.commandID.Some?
      && Answered(StoryOf(es, c.commandID.value))
      && OutcomeOf(c.phase)
         == Some(Received(Delivery(c.commandID.value, StoryOf(es, c.commandID.value).answer.value.result)))
  {
    RunsKeepInv(es);
    assert CallAgrees(es, Run(es).hands, call, Run(es).calls[call]);
  }

  /** Results are conserved: an answered command has its answer in exactly one place, and a command without an
      answer has none anywhere. */
  lemma AnswersAreConserved(es: seq<Event>, call: nat)
    requires Legal(es) && call in Run(es).calls && Run(es).calls[call].commandID.Some?
    ensures
      var s := Run(es);
      var id := s.calls[call].commandID.value;
      var st := StoryOf(es, id);
      && st.Heard? && st.call == call
      && (st.answer.Some? ==>
            InOnePlace(Held(s.hands, call, id, st.answer.value), s.calls[call], Delivery(id, st.answer.value.result)))
      && (st.answer.None? ==> NoResult(s.calls[call]))
      && (forall r :: r in s.hands && s.hands[r].call == call ==>
            st.answer == Some(Answer(r, s.hands[r].delivery.result)) && s.hands[r].delivery.commandID == id)
  {
    RunsKeepInv(es);
    var s := Run(es);
    var id := s.calls[call].commandID.value;
    assert CallAgrees(es, s.hands, call, s.calls[call]);
    forall r | r in s.hands && s.hands[r].call == call
      ensures StoryOf(es, id).answer == Some(Answer(r, s.hands[r].delivery.result))
      ensures s.hands[r].delivery.commandID == id
    {
      assert StoryOf(es, s.hands[r].delivery.commandID).Heard?;
    }
  }

  lemma PendingCallIsUnfinished(es: seq<Event>, id: string)
    requires Legal(es) && id in Run(es).commands
    ensures
      var s := Run(es);
      s.commands[id] in s.calls && s.calls[s.commands[id]].commandID == Some(id)
      && !s.calls[s.commands[id]].phase.Returned?
  {
    RunsKeepInv(es);
    var s := Run(es);
    assert StoryOf(es, id).Heard?;
    assert CallAgrees(es, s.hands, s.commands[id], s.calls[s.commands[id]]);
  }

  /** The pending table, as a set of command IDs, in every reachable state; it is empty when every call has
      returned. */
  lemma TableHoldsPendingCommands(es: seq<Event>, id: string)
    requires Legal(es)
    ensures id in Run(es).commands <==> Pending(StoryOf(es, id))
    ensures (forall c :: c in Run(es).calls ==> Run(es).calls[c].phase.Returned?) ==> Run(es).commands == map[]
  {
    RunsKeepInv(es);
    if Run(es).commands != map[] {
      var i :| i in Run(es).commands;
      PendingCallIsUnfinished(es, i);
    }
  }

  /** The "result channel full" branch is never taken, and every send finds the channel empty. */
  lemma ChannelNeverFull(es: seq<Event>, reader: nat)
    requires Legal(es)
    ensures Run(es).overflow == 0
    ensures Enabled(Run(es), Deliver(reader)) ==> Run(es).calls[Run(es).hands[reader].call].chan == []
  {
    RunsKeepInv(es);
    var s := Run(es);
    if Enabled(s, Deliver(reader)) {
      var h := s.hands[reader];
      assert StoryOf(es, h.delivery.commandID).Heard?;
      assert CallAgrees(es, s.hands, h.call, s.calls[h.call]);
    }
  }

  /** A result for a command that is not pending, because it was answered before, has left, or never was, changes
      nothing at all. */
  lemma LateResultReachesNobody(es: seq<Event>, reader: nat, msg: ResultMessage)
    requires Legal(es) && Enabled(Run(es), TakeResult(reader, msg)) && !Pending(StoryOf(es, msg.commandID))
    ensures Run(es + [TakeResult(reader, msg)]) == Run(es)
  {
    RunsKeepInv(es);
    var e := TakeResult(reader, msg);
    assert (es + [e])[..|es + [e]| - 1] == es;
  }
}

/** Registration: which connection serves a server, over every interleaving. */
module TunnelRegistry {
  import opened Options
  import opened Tunnel

  /** The connection that registered last for the server. */
  function Latest(es: seq<Event>, server: string): Option<nat> {
    if es == [] then None
    else
      var e := es[|es| - 1];
      if e.Connect? && e.server == server then Some(e.conn) else Latest(es[..|es| - 1], server)
  }

  /** The server ID a connection registered under. */
  function ServerOf(es: seq<Event>, conn: nat): Option<string> {
    if es == [] then None
    else
      var e := es[|es| - 1];
      if e.Connect? && e.conn == conn then Some(e.server) else ServerOf(es[..|es| - 1], conn)
  }

  /** The last time anything was heard under the server ID. */
  function LastHeard(es: seq<Event>, server: string): int {
    if es == [] then 0
    else
      var p, e := es[..|es| - 1], es[|es| - 1];
      if e.Connect? && e.server == server then e.now
      else if e.Message? && ServerOf(p, e.reader) == Some(server) && Present(p, server) then e.now
      else LastHeard(p, server)
  }

  /** Connected, and since then neither did that very connection exit nor did a cleanup find it silent. */
  predicate Present(es: seq<Event>, server: string) {
    if es == [] then false
    else
      var p, e := es[..|es| - 1], es[|es| - 1];
      match e
      case Connect(v, _, _) => v == server || Present(p, server)
      case Disconnect(reader) => Present(p, server) && Latest(p, server) != Some(reader)
      case Cleanup(now) => Present(p, server) && now - LastHeard(p, server) <= STALE_AFTER
      case _ => Present(p, server)
  }

  predicate RegistryAgrees(es: seq<Event>, s: State, server: string) {
    && (server in s.agents <==> Present(es, server))
    && (server in s.agents ==>
          && Latest(es, server) == Some(s.agents[server].conn)
          && s.agents[server].lastSeen == LastHeard(es, server)
          && s.agents[server].conn !in s.closed
          && Lookup(s.conns, s.agents[server].conn) == Some(server))
  }

  ghost predicate Inv(es: seq<Event>, s: State) {
    && (forall v :: RegistryAgrees(es, s, v))
    && (forall c {:trigger ServerOf(es, c)} :: Lookup(s.conns, c) == ServerOf(es, c))
    && (forall v :: Latest(es, v).Some? ==> Lookup(s.conns, Latest(es, v).value) == Some(v))
    && s.closed <= s.conns.Keys
  }

  lemma Snoc(es: seq<Event>, e: Event)
    ensures (es + [e])[..|es + [e]| - 1] == es && (es + [e])[|es + [e]| - 1] == e
  {
  }

  /** What one step does to the entry of one server. */
  lemma ServerStep(es: seq<Event>, s: State, e: Event, server: string)
    requires Inv(es, s) && Enabled(s, e)
    ensures RegistryAgrees(es + [e], Step(s, e), server)
  {
    Snoc(es, e);
    assert RegistryAgrees(es, s, server);
    match e
    case Connect(v, conn, _) =>
      if v in s.agents && v != server { assert RegistryAgrees(es, s, v); }
    case Message(reader, _) =>
      assert s.conns[reader] == ServerOf(es, reader).value;
    case Disconnect(reader) =>
    case Cleanup(now) =>
      CleanupStep(es, s, now, server);
    case _ =>
  }

  lemma CleanupStep(es: seq<Event>, s: State, now: int, server: string)
    requires Inv(es, s)
    ensures server in s.agents && now - s.agents[server].lastSeen <= STALE_AFTER
        ==> s.agents[server].conn !in Step(s, Cleanup(now)).closed
  {
    assert RegistryAgrees(es, s, server);
    forall v | v in s.agents ensures Lookup(s.conns, s.agents[v].conn) == Some(v) {
      assert RegistryAgrees(es, s, v);
    }
  }

  lemma ConnsStep(es: seq<Event>, s: State, e: Event, c: nat, v: string)
    requires Inv(es, s) && Enabled(s, e)
    ensures Lookup(Step(s, e).conns, c) == ServerOf(es + [e], c)
    ensures Latest(es + [e], v).Some? ==> Lookup(Step(s, e).conns, Latest(es + [e], v).value) == Some(v)
  {
    hide RegistryAgrees;
    Snoc(es, e);
  }

  lemma ClosedStep(es: seq<Event>, s: State, e: Event)
    requires Inv(es, s) && Enabled(s, e)
    ensures Step(s, e).closed <= Step(s, e).conns.Keys
  {
    forall v | v in s.agents ensures s.agents[v].conn in s.conns {
      assert RegistryAgrees(es, s, v);
    }
  }

  lemma {:induction false} RunsKeepInv(es: seq<Event>)
    requires Legal(es)
    ensures Inv(es, Run(es))
  {
    hide RegistryAgrees, Enabled, Step;
    if es == [] {
      InitialInv();
    } else {
      var p, e := es[..|es| - 1], es[|es| - 1];
      assert p + [e] == es;
      RunsKeepInv(p);
      forall v ensures RegistryAgrees(es, Run(es), v) { ServerStep(p, Run(p), e, v); }
      forall c ensures Lookup(Run(es).conns, c) == ServerOf(es, c) { ConnsStep(p, Run(p), e, c, ""); }
      forall v | Latest(es, v).Some? ensures Lookup(Run(es).conns, Latest(es, v).value) == Some(v) {
        ConnsStep(p, Run(p), e, 0, v);
      }
      ClosedStep(p, Run(p), e);
    }
  }

  lemma InitialInv()
    ensures Inv([], INITIAL)
  {
  }

  // ----- what holds in every reachable state -----

  /** The connection on file for a server is the one that registered last, it registered under that server, and
      the manager has not closed it; the entry is there exactly while that connection has not exited and no
      cleanup found the server silent for more than five minutes. */
  lemma EntryIsLatestAndOpen(es: seq<Event>, server: string)
    requires Legal(es)
    ensures
      var s := Run(es);
      && (server in s.agents <==> Present(es, server))
      && (server in s.agents ==>
            && Latest(es, server) == Some(s.agents[server].conn)
            && ServerOf(es, s.agents[server].conn) == Some(server)
            && s.agents[server].conn !in s.closed
            && s.agents[server].lastSeen == LastHeard(es, server))
  {
    RunsKeepInv(es);
    assert RegistryAgrees(es, Run(es), server);
  }

  /** The exit path of a connection that has been replaced only closes that connection. */
  lemma {:induction false} OldExitKeepsReplacement(es: seq<Event>, reader: nat)
    requires Legal(es) && Enabled(Run(es), Disconnect(reader))
    requires ServerOf(es, reader).Some? && Latest(es, ServerOf(es, reader).value) != Some(reader)
    ensures Run(es + [Disconnect(reader)]) == Run(es).(closed := Run(es).closed + {reader})
  {
    RunsKeepInv(es);
    Snoc(es, Disconnect(reader));
    assert RegistryAgrees(es, Run(es), Run(es).conns[reader]);
  }

  /** A cleanup removes an entry exactly when its server has been silent for more than five minutes, and closes the
      connection it held. */
  lemma {:induction false} CleanupRemovesTheSilent(es: seq<Event>, now: int, server: string)
    requires Legal(es) && server in Run(es).agents
    ensures
      var after := Run(es + [Cleanup(now)]);
      && (server in after.agents <==> now - LastHeard(es, server) <= 300_000_000_000)
      && (server !in after.agents ==> Run(es).agents[server].conn in after.closed)
  {
    RunsKeepInv(es);
    Snoc(es, Cleanup(now));
    assert RegistryAgrees(es, Run(es), server);
  }
}
