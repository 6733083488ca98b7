/** What a call of ExecuteCommand (internal/agent/tunnel.go) uses and gives back, told by the events of the run alone:
    the payload it was sent, the connection it was given, and why it ended. */
module TunnelCalls {
  import opened Options
  import opened Tunnel
  import opened TunnelRouting
  import Registry = TunnelRegistry

  /** The result a message carries: its payload as it is, or an error and no output when it does not unmarshal. */
  predicate Carries(msg: ResultMessage, r: CommandResult) {
    && (msg.payload.Some? ==> r == msg.payload.value)
    && (msg.payload.None? ==> r.output == "" && r.error != "")
  }

  /** The answer of a command came in a message for it, taken while it was pending. */
  lemma {:induction false} AnswerIsAStep(es: seq<Event>, id: string) returns (i: nat)
    requires Answered(StoryOf(es, id))
    ensures i < |es| && es[i].TakeResult? && es[i].msg.commandID == id && Pending(StoryOf(es[..i], id))
    ensures Carries(es[i].msg, StoryOf(es, id).answer.value.result)
  {
    var p, e := es[..|es| - 1], es[|es| - 1];
    if Answered(StoryOf(p, id)) {
      i := AnswerIsAStep(p, id);
      assert p[..i] == es[..i];
    } else {
      i := |es| - 1;
    }
  }

  /** What a call receives is the payload of a message for its own command ID, unchanged, or an error for one that
      could not be read. */
  lemma ReceivedIsThePayload(es: seq<Event>, call: nat) returns (i: nat)
    requires Legal(es) && call in Run(es).calls && HasReceived(Run(es).calls[call])
    ensures i < |es| && es[i].TakeResult?
    ensures
      var c, msg := Run(es).calls[call], es[i].msg;
      var got := OutcomeOf(c.phase).value.delivery.result;
      && c.commandID == Some(msg.commandID) && Pending(StoryOf(es[..i], msg.commandID))
      && (msg.payload.Some? ==> got == msg.payload.value)
      && (msg.payload.None? ==> got.output == "" && got.error != "")
  {
    ReceivedIsOwnFirstAnswer(es, call);
    i := AnswerIsAStep(es, Run(es).calls[call].commandID.value);
  }

  // ----- why a call ended -----

  function OutcomeIn(calls: map<nat, Call>, call: nat): Option<Outcome> {
    if call in calls then OutcomeOf(calls[call].phase) else None
  }

  predicate HasCause(es: seq<Event>, calls: map<nat, Call>, call: nat) {
    var outcome := OutcomeIn(calls, call);
    && (outcome == Some(SendFailed) <==> Send(call, false) in es)
    && (outcome == Some(Cancelled) <==> GiveUp(call, true) in es)
    && (outcome == Some(TimedOut) <==> GiveUp(call, false) in es)
    && (outcome.Some? && outcome.value.Received? <==> Receive(call) in es)
  }

  /** The events that end a call or let it end. */
  predicate Ends(e: Event, call: nat) {
    (e.Send? && e.call == call && !e.ok) || ((e.GiveUp? || e.Receive?) && e.call == call)
  }

  lemma EndStep(s: State, e: Event, call: nat)
    requires Enabled(s, e) && Ends(e, call)
    ensures OutcomeIn(s.calls, call).None?
    ensures
      var o := OutcomeIn(Step(s, e).calls, call);
      && (o == Some(SendFailed) <==> e == Send(call, false))
      && (o == Some(Cancelled) <==> e == GiveUp(call, true))
      && (o == Some(TimedOut) <==> e == GiveUp(call, false))
      && (o.Some? && o.value.Received? <==> e == Receive(call))
  {
  }

  predicate SameKind(a: Option<Outcome>, b: Option<Outcome>) {
    a == b || (a == None && b == Some(NotConnected))
  }

  lemma OtherStep(s: State, e: Event, call: nat)
    requires Enabled(s, e) && !Ends(e, call)
    ensures SameKind(OutcomeIn(s.calls, call), OutcomeIn(Step(s, e).calls, call))
  {
  }

  lemma CauseStep(es: seq<Event>, s: State, e: Event, call: nat)
    requires Enabled(s, e) && HasCause(es, s.calls, call)
    ensures HasCause(es + [e], Step(s, e).calls, call)
  {
    hide Step, Enabled, OutcomeOf;
    assert forall x :: x in es + [e] <==> x in es || x == e;
    if Ends(e, call) {
      EndStep(s, e, call);
    } else {
      OtherStep(s, e, call);
    }
  }

  /** A call failed to send, was cancelled, timed out or received a result exactly when that happened to it. */
  lemma {:induction false} OutcomesHaveCauses(es: seq<Event>, call: nat)
    requires Legal(es)
    ensures
      var outcome := OutcomeIn(Run(es).calls, call);
      && (outcome == Some(SendFailed) <==> Send(call, false) in es)
      && (outcome == Some(Cancelled) <==> GiveUp(call, true) in es)
      && (outcome == Some(TimedOut) <==> GiveUp(call, false) in es)
      && (outcome.Some? && outcome.value.Received? <==> Receive(call) in es)
  {
    hide Step, Enabled;
    if es == [] {
    } else {
      var p, e := es[..|es| - 1], es[|es| - 1];
      OutcomesHaveCauses(p, call);
      CauseStep(p, Run(p), e, call);
      assert es == p + [e];
    }
  }

  // ----- the connection a call was given -----

  /** The connection that was registered last for the server when the call looked it up, if one was present. */
  function ConnOf(es: seq<Event>, call: nat): Option<nat> {
    if es == [] then None
    else
      var p, e := es[..|es| - 1], es[|es| - 1];
      if e.LookUp? && e.call == call then
        if Registry.Present(p, e.server) then Registry.Latest(p, e.server) else None
      else ConnOf(p, call)
  }

  predicate HasConn(conn: Option<nat>, c: Call) {
    match c.phase
    case Found(n) => conn == Some(n)
    case Registered(n) => conn == Some(n)
    case Returned(o) => o == NotConnected <==> conn == None
    case Leaving(o) => conn.Some? && o != NotConnected
    case Waiting => conn.Some?
  }

  lemma ConnStep(s: State, e: Event, call: nat, conn: Option<nat>)
    requires Enabled(s, e) && call in s.calls && HasConn(conn, s.calls[call])
    ensures call in Step(s, e).calls && HasConn(conn, Step(s, e).calls[call])
  {
  }

  lemma NewCall(s: State, e: Event, call: nat)
    requires Enabled(s, e) && call !in s.calls && call in Step(s, e).calls
    ensures e.LookUp? && e.call == call
    ensures HasConn(if e.server in s.agents then Some(s.agents[e.server].conn) else None, Step(s, e).calls[call])
  {
  }

  lemma LookedUpIsNew(s: State, e: Event, call: nat)
    requires Enabled(s, e) && call in s.calls
    ensures !(e.LookUp? && e.call == call)
  {
  }

  /** A call that is about to send holds the connection that served the server when it looked, and a call is told the
      agent is not connected exactly when there was none. */
  lemma {:induction false} CallsUseTheConnFound(es: seq<Event>, call: nat)
    requires Legal(es) && call in Run(es).calls
    ensures HasConn(ConnOf(es, call), Run(es).calls[call])
  {
    hide Step, Enabled, HasConn;
    if es == [] {
    } else {
      var p, e := es[..|es| - 1], es[|es| - 1];
      if call in Run(p).calls {
        CallsUseTheConnFound(p, call);
        LookedUpIsNew(Run(p), e, call);
        ConnStep(Run(p), e, call, ConnOf(p, call));
      } else {
        NewCall(Run(p), e, call);
        Registry.EntryIsLatestAndOpen(p, e.server);
      }
    }
  }
}
