/** One-time WebSocket tickets (internal/auth/ticket.go). Validation takes the ticket out under the lock and checks
    its expiry after letting go of it, so other calls come in between. */
module Tickets {
  import opened Counting

  const MAX_TICKETS := 10_000

  datatype Ticket = Ticket(userID: string, role: string, createdAt: int, expiresAt: int)

  /** A call that has taken a ticket and not checked it yet. */
  datatype Holding = Holding(id: string, ticket: Ticket)

  /** A successful validation. */
  datatype Auth = Auth(id: string, userID: string, role: string, now: int)

  datatype State = State(
    tickets: map<string, Ticket>,
    holding: map<nat, Holding>,
    issued: map<string, Ticket>,
    taken: set<string>,
    auths: seq<Auth>)

  datatype Event =
    | Generate(id: string, userID: string, role: string, expire: int, now: int)
    | Take(call: nat, id: string)
    | Check(call: nat, now: int)
    | Cleanup(now: int)

  const INITIAL := State(map[], map[], map[], {}, [])

  /** Generated IDs are fresh. */
  predicate Enabled(s: State, e: Event) {
    match e
    case Generate(id, _, _, _, _) => id !in s.issued
    case Take(call, _) => call !in s.holding
    case Check(call, _) => call in s.holding
    case Cleanup(_) => true
  }

  function ExpiredIDs(tickets: map<string, Ticket>, now: int): set<string> {
    set id | id in tickets && now > tickets[id].expiresAt
  }

  function Step(max: nat, s: State, e: Event): State
    requires Enabled(s, e)
  {
    match e
    case Generate(id, userID, role, expire, now) =>
      if |s.tickets| >= max then s
      else
        var t := Ticket(userID, role, now, now + expire);
        s.(tickets := s.tickets[id := t], issued := s.issued[id := t])
    case Take(call, id) =>
      if id !in s.tickets then s
      else s.(tickets := s.tickets - {id}, holding := s.holding[call := Holding(id, s.tickets[id])],
              taken := s.taken + {id})
    case Check(call, now) =>
      var h := s.holding[call];
      var rest := s.(holding := s.holding - {call});
      if now > h.ticket.expiresAt then rest
      else rest.(auths := s.auths + [Auth(h.id, h.ticket.userID, h.ticket.role, now)])
    case Cleanup(now) => s.(tickets := s.tickets - ExpiredIDs(s.tickets, now))
  }

  predicate Legal(max: nat, es: seq<Event>)
    decreases |es|, 0
  {
    es == [] || (Legal(max, es[..|es| - 1]) && Enabled(Run(max, es[..|es| - 1]), es[|es| - 1]))
  }

  function Run(max: nat, es: seq<Event>): State
    requires Legal(max, es)
    decreases |es|, 1
  {
    if es == [] then INITIAL else Step(max, Run(max, es[..|es| - 1]), es[|es| - 1])
  }

  // ----- what every run keeps -----

  /** A ticket is in the store, held by a call, or gone; what authenticated was taken. */
  ghost predicate TicketMatches(s: State, id: string) {
    && (id in s.tickets ==> id in s.issued && s.issued[id] == s.tickets[id] && id !in s.taken)
    && (id in s.taken ==> id in s.issued)
    && (forall i :: 0 <= i < |s.auths| && s.auths[i].id == id ==> id in s.taken)
  }

  ghost predicate HoldingMatches(s: State, c: nat) {
    c in s.holding ==>
      var h := s.holding[c];
      && h.id in s.taken && h.id in s.issued && s.issued[h.id] == h.ticket
      && (forall i :: 0 <= i < |s.auths| ==> s.auths[i].id != h.id)
  }

  predicate HoldingsApart(s: State, c: nat, d: nat) {
    c in s.holding && d in s.holding && s.holding[c].id == s.holding[d].id ==> c == d
  }

  predicate AuthMatches(s: State, a: Auth) {
    && a.id in s.issued && a.id in s.taken
    && a.userID == s.issued[a.id].userID && a.role == s.issued[a.id].role && a.now <= s.issued[a.id].expiresAt
  }

  ghost predicate AuthsMatch(s: State) {
    && (forall i :: 0 <= i < |s.auths| ==> AuthMatches(s, s.auths[i]))
    && (forall i, j :: 0 <= i < j < |s.auths| ==> s.auths[i].id != s.auths[j].id)
  }

  ghost predicate Inv(max: nat, s: State) {
    && |s.tickets| <= max
    && (forall id :: TicketMatches(s, id))
    && (forall c :: HoldingMatches(s, c))
    && (forall c, d :: HoldingsApart(s, c, d))
    && AuthsMatch(s)
  }

  lemma FewerKeys<K, V>(m: map<K, V>, gone: set<K>)
    ensures |m - gone| <= |m|
  {
    assert (m - gone).Keys <= m.Keys;
    SubsetCount((m - gone).Keys, m.Keys);
  }

  lemma SizeStep(max: nat, s: State, e: Event)
    requires Enabled(s, e) && |s.tickets| <= max
    ensures |Step(max, s, e).tickets| <= max
  {
    if e.Take? { FewerKeys(s.tickets, {e.id}); }
    if e.Cleanup? { FewerKeys(s.tickets, ExpiredIDs(s.tickets, e.now)); }
  }

  lemma TicketStep(max: nat, s: State, e: Event, id: string)
    requires Enabled(s, e) && TicketMatches(s, id) && (e.Check? ==> HoldingMatches(s, e.call))
    ensures TicketMatches(Step(max, s, e), id)
  {
  }

  lemma HoldingStep(max: nat, s: State, e: Event, c: nat)
    requires Enabled(s, e) && HoldingMatches(s, c) && (e.Take? ==> TicketMatches(s, e.id))
    requires e.Check? ==> HoldingsApart(s, c, e.call)
    ensures HoldingMatches(Step(max, s, e), c)
  {
  }

  lemma ApartStep(max: nat, s: State, e: Event, c: nat, d: nat)
    requires Enabled(s, e) && HoldingsApart(s, c, d) && (e.Take? ==> TicketMatches(s, e.id))
    requires HoldingMatches(s, c) && HoldingMatches(s, d)
    ensures HoldingsApart(Step(max, s, e), c, d)
  {
  }

  lemma AuthStep(max: nat, s: State, e: Event, a: Auth)
    requires Enabled(s, e) && (e.Check? ==> HoldingMatches(s, e.call))
    requires AuthMatches(s, a) || (a in Step(max, s, e).auths && a !in s.auths)
    ensures AuthMatches(Step(max, s, e), a)
  {
  }

  lemma AuthsStep(max: nat, s: State, e: Event)
    requires Enabled(s, e) && AuthsMatch(s) && (e.Check? ==> HoldingMatches(s, e.call))
    ensures AuthsMatch(Step(max, s, e))
  {
    var t := Step(max, s, e);
    forall i | 0 <= i < |t.auths| ensures AuthMatches(t, t.auths[i]) {
      if i < |s.auths| { assert AuthMatches(s, s.auths[i]) && t.auths[i] == s.auths[i]; }
      if i == |s.auths| && t.auths[i] in s.auths { assert s.auths[i - 1] in s.auths; }
      AuthStep(max, s, e, t.auths[i]);
    }
  }

  lemma InvStep(max: nat, s: State, e: Event)
    requires Inv(max, s) && Enabled(s, e)
    ensures Inv(max, Step(max, s, e))
  {
    hide Step, Enabled, TicketMatches, HoldingMatches, HoldingsApart, AuthsMatch;
    var t := Step(max, s, e);
    SizeStep(max, s, e);
    if e.Check? { assert HoldingMatches(s, e.call); }
    if e.Take? { assert TicketMatches(s, e.id); }
    forall id ensures TicketMatches(t, id) { TicketStep(max, s, e, id); }
    forall c ensures HoldingMatches(t, c) {
      if e.Check? { assert HoldingsApart(s, c, e.call); }
      HoldingStep(max, s, e, c);
    }
    forall c, d ensures HoldingsApart(t, c, d) { ApartStep(max, s, e, c, d); }
    AuthsStep(max, s, e);
  }

  lemma {:induction false} RunsKeepInv(max: nat, es: seq<Event>)
    requires Legal(max, es)
    ensures Inv(max, Run(max, es))
  {
    if es == [] {
    } else {
      RunsKeepInv(max, es[..|es| - 1]);
      InvStep(max, Run(max, es[..|es| - 1]), es[|es| - 1]);
    }
  }

  /** A ticket authenticates at most once, as the user and role it was issued for, and never after its expiry. */
  lemma AuthenticatesOnce(max: nat, es: seq<Event>, i: nat, j: nat)
    requires Legal(max, es) && i < |Run(max, es).auths| && j < |Run(max, es).auths|
    ensures var s := Run(max, es);
      && (s.auths[i].id == s.auths[j].id ==> i == j)
      && s.auths[i].id in s.issued
      && var t := s.issued[s.auths[i].id];
      && s.auths[i].userID == t.userID && s.auths[i].role == t.role && s.auths[i].now <= t.expiresAt
  {
    RunsKeepInv(max, es);
    assert AuthMatches(Run(max, es), Run(max, es).auths[i]);
  }

  lemma {:induction false} NeverOverCapacity(max: nat, es: seq<Event>)
    requires Legal(max, es)
    ensures |Run(max, es).tickets| <= max
  {
    RunsKeepInv(max, es);
  }

  // ----- a ticket that is neither used nor expired is good -----

  predicate Clocked(es: seq<Event>, now: int) {
    es == [] ||
      var e := es[|es| - 1];
      if e.Take? then Clocked(es[..|es| - 1], now) else e.now <= now && Clocked(es[..|es| - 1], e.now)
  }

  lemma KeptStep(max: nat, s: State, e: Event, id: string)
    requires Enabled(s, e)
    requires id in Step(max, s, e).issued && id !in Step(max, s, e).taken
    requires id in s.issued ==> id in s.tickets && s.tickets[id] == s.issued[id]
    ensures var t := Step(max, s, e);
      || (id in t.tickets && t.tickets[id] == t.issued[id])
      || (e.Cleanup? && e.now > t.issued[id].expiresAt)
    ensures id in s.issued ==> Step(max, s, e).issued[id] == s.issued[id] && id !in s.taken
  {
  }

  lemma GoneStep(max: nat, s: State, e: Event, id: string)
    requires Enabled(s, e) && id in s.issued && id !in Step(max, s, e).taken
    ensures id !in s.taken && id in Step(max, s, e).issued && Step(max, s, e).issued[id] == s.issued[id]
    ensures id !in s.tickets ==> id !in Step(max, s, e).tickets
  {
  }

  /** Nothing but its own expiry or a validation takes an issued ticket out of the store. */
  lemma {:induction false} UnusedIsKept(max: nat, es: seq<Event>, id: string, now: int)
    requires Legal(max, es) && Clocked(es, now) && id in Run(max, es).issued && id !in Run(max, es).taken
    ensures var s := Run(max, es);
      (id in s.tickets && s.tickets[id] == s.issued[id]) || now > s.issued[id].expiresAt
    decreases |es|
  {
    hide Step, Enabled;
    if es == [] {
    } else {
      var p, e := es[..|es| - 1], es[|es| - 1];
      var s := Run(max, p);
      if id in s.issued {
        GoneStep(max, s, e, id);
        UnusedIsKept(max, p, id, if e.Take? then now else e.now);
      }
      if id in s.issued ==> id in s.tickets && s.tickets[id] == s.issued[id] {
        KeptStep(max, s, e, id);
      }
    }
  }

  lemma RunSnoc(max: nat, es: seq<Event>, e: Event)
    requires Legal(max, es) && Enabled(Run(max, es), e)
    ensures Legal(max, es + [e]) && Run(max, es + [e]) == Step(max, Run(max, es), e)
  {
    assert (es + [e])[..|es + [e]| - 1] == es;
  }

  /** Taken and checked in time, a ticket nobody has taken before authenticates, sweeps or not. */
  lemma UnusedIsGood(max: nat, es: seq<Event>, id: string, call: nat, now: int)
    requires Legal(max, es) && Clocked(es, now) && call !in Run(max, es).holding
    requires id in Run(max, es).issued && id !in Run(max, es).taken && now <= Run(max, es).issued[id].expiresAt
    ensures var run := es + [Take(call, id)] + [Check(call, now)];
      && Legal(max, run)
      && var t := Run(max, es).issued[id];
      Run(max, run).auths == Run(max, es).auths + [Auth(id, t.userID, t.role, now)]
  {
    UnusedIsKept(max, es, id, now);
    RunSnoc(max, es, Take(call, id));
    RunSnoc(max, es + [Take(call, id)], Check(call, now));
  }

  // ----- what was generated is what authenticates -----

  /** A ticket on record is as some call of GenerateTicket asked for it. */
  lemma {:induction false} IssuedAsGenerated(max: nat, es: seq<Event>, id: string) returns (expire: int)
    requires Legal(max, es) && id in Run(max, es).issued
    ensures
      var t := Run(max, es).issued[id];
      Generate(id, t.userID, t.role, expire, t.createdAt) in es && t.expiresAt == t.createdAt + expire
  {
    var p, e := es[..|es| - 1], es[|es| - 1];
    assert es == p + [e];
    if id in Run(max, p).issued {
      expire := IssuedAsGenerated(max, p, id);
    } else {
      expire := e.expire;
    }
  }

  /** Who authenticates with a ticket is who it was generated for, with that role, within the given time of it. */
  lemma {:induction false} AuthenticatesAsGenerated(max: nat, es: seq<Event>, i: nat) returns (expire: int, t: int)
    requires Legal(max, es) && i < |Run(max, es).auths|
    ensures
      var a := Run(max, es).auths[i];
      Generate(a.id, a.userID, a.role, expire, t) in es && a.now <= t + expire
  {
    var a := Run(max, es).auths[i];
    AuthenticatesOnce(max, es, i, i);
    expire := IssuedAsGenerated(max, es, a.id);
    t := Run(max, es).issued[a.id].createdAt;
  }

  lemma {:induction false} LegalPrefix(max: nat, es: seq<Event>, k: nat)
    requires Legal(max, es) && k <= |es|
    ensures Legal(max, es[..k])
  {
    if k < |es| {
      LegalPrefix(max, es[..|es| - 1], k);
      assert es[..|es| - 1][..k] == es[..k];
    } else {
      assert es[..k] == es;
    }
  }

  lemma {:induction false} IssuedStays(max: nat, es: seq<Event>, k: nat, id: string)
    requires Legal(max, es) && k <= |es| && Legal(max, es[..k]) && id in Run(max, es[..k]).issued
    ensures id in Run(max, es).issued && Run(max, es).issued[id] == Run(max, es[..k]).issued[id]
    decreases |es|
  {
    if k == |es| {
      assert es[..k] == es;
    } else {
      assert es[..|es| - 1][..k] == es[..k];
      IssuedStays(max, es[..|es| - 1], k, id);
    }
  }

  lemma GeneratedStep(max: nat, s: State, e: Event)
    requires Enabled(s, e) && e.Generate? && |s.tickets| < max
    ensures e.id in Step(max, s, e).issued
    ensures Step(max, s, e).issued[e.id] == Ticket(e.userID, e.role, e.now, e.now + e.expire)
  {
  }

  lemma {:induction false} GeneratedIsIssued(max: nat, es: seq<Event>, k: nat)
    requires Legal(max, es) && k < |es| && es[k].Generate? && Legal(max, es[..k])
    requires |Run(max, es[..k]).tickets| < max
    ensures es[k].id in Run(max, es).issued
    ensures Run(max, es).issued[es[k].id] == Ticket(es[k].userID, es[k].role, es[k].now, es[k].now + es[k].expire)
  {
    hide Step, Enabled;
    var q := es[..k + 1];
    LegalPrefix(max, es, k + 1);
    assert q[..|q| - 1] == es[..k] && q[|q| - 1] == es[k];
    GeneratedStep(max, Run(max, es[..k]), es[k]);
    IssuedStays(max, es, k + 1, es[k].id);
  }

  /** A ticket generated below capacity, never taken, and validated in time authenticates the user it was generated
      for with the role it was generated for, whatever was swept before. */
  lemma {:induction false} GeneratedIsGood(max: nat, es: seq<Event>, k: nat, call: nat, now: int)
    requires Legal(max, es) && k < |es| && es[k].Generate? && Legal(max, es[..k])
    requires |Run(max, es[..k]).tickets| < max && es[k].id !in Run(max, es).taken
    requires Clocked(es, now) && call !in Run(max, es).holding && now <= es[k].now + es[k].expire
    ensures
      var g := es[k];
      var run := es + [Take(call, g.id)] + [Check(call, now)];
      Legal(max, run) && Run(max, run).auths == Run(max, es).auths + [Auth(g.id, g.userID, g.role, now)]
  {
    var g := es[k];
    GeneratedIsIssued(max, es, k);
    hide Run, Legal, Clocked;
    UnusedIsGood(max, es, g.id, call, now);
  }
}

/** The store as the source keeps it; its steps are the locked sections, and the check each call makes on its own. */
module TicketStore {
  import opened Options
  import opened Tickets

  datatype Result = Authenticated(userID: string, role: string) | NotFound | Expired

  class WSTicketStore {
    var tickets: map<string, Ticket>
    const maxTickets: nat
    ghost var hist: seq<Event>

    ghost predicate Valid()
      reads this
    {
      Legal(maxTickets, hist) && tickets == Run(maxTickets, hist).tickets
    }

    constructor ()
      ensures Valid() && hist == [] && tickets == map[] && maxTickets == 10_000
    {
      tickets, maxTickets, hist := map[], MAX_TICKETS, [];
    }

    /** uuid.New gave id, at now. */
    method GenerateTicket(userID: string, role: string, expire: int, id: string, now: int) returns (r: Option<string>)
      requires Valid() && id !in Run(maxTickets, hist).issued
      modifies this
      ensures Valid() && hist == old(hist) + [Generate(id, userID, role, expire, now)]
      ensures r == if |old(tickets)| >= maxTickets then None else Some(id)
      ensures r.None? ==> tickets == old(tickets)
      ensures r.Some? ==> id in tickets && tickets == old(tickets)[id := tickets[id]]
      ensures r.Some? ==> tickets[id].userID == userID && tickets[id].role == role
      ensures r.Some? ==> tickets[id].createdAt == now && tickets[id].expiresAt == now + expire
    {
      hide Run, Legal;
      RunSnoc(maxTickets, hist, Generate(id, userID, role, expire, now));
      hist := hist + [Generate(id, userID, role, expire, now)];
      if |tickets| >= maxTickets {
        return None;
      }
      tickets := tickets[id := Ticket(userID, role, now, now + expire)];
      return Some(id);
    }

    /** ValidateTicket while it holds the lock. */
    method Consume(call: nat, ticket: string) returns (entry: Option<Ticket>)
      requires Valid() && call !in Run(maxTickets, hist).holding
      modifies this
      ensures Valid() && hist == old(hist) + [Take(call, ticket)]
      ensures entry == Lookup(old(tickets), ticket)
      ensures entry.Some? ==> call in Run(maxTickets, hist).holding
                              && Run(maxTickets, hist).holding[call] == Holding(ticket, entry.value)
    {
      hide Run, Legal;
      RunSnoc(maxTickets, hist, Take(call, ticket));
      hist := hist + [Take(call, ticket)];
      if ticket !in tickets {
        return None;
      }
      entry := Some(tickets[ticket]);
      tickets := tickets - {ticket};
    }

    /** The rest of it, whatever other calls have done since. */
    method Finish(call: nat, ticket: string, entry: Ticket, now: int) returns (r: Result)
      requires Valid() && call in Run(maxTickets, hist).holding
      requires Run(maxTickets, hist).holding[call] == Holding(ticket, entry)
      modifies this`hist
      ensures Valid() && hist == old(hist) + [Check(call, now)]
      ensures r == if now > entry.expiresAt then Expired else Authenticated(entry.userID, entry.role)
      ensures Run(maxTickets, hist).auths == Run(maxTickets, old(hist)).auths
        + if r.Authenticated? then [Auth(ticket, r.userID, r.role, now)] else []
    {
      hide Run, Legal;
      RunSnoc(maxTickets, hist, Check(call, now));
      hist := hist + [Check(call, now)];
      if now > entry.expiresAt {
        return Expired;
      }
      return Authenticated(entry.userID, entry.role);
    }

    /** A validation nobody comes between. */
    method ValidateTicket(call: nat, ticket: string, now: int) returns (r: Result)
      requires Valid() && call !in Run(maxTickets, hist).holding
      modifies this
      ensures Valid() && tickets == old(tickets) - {ticket}
      ensures r == if ticket !in old(tickets) then NotFound
                   else if now > old(tickets)[ticket].expiresAt then Expired
                   else Authenticated(old(tickets)[ticket].userID, old(tickets)[ticket].role)
    {
      hide Run, Legal;
      ghost var before := hist;
      var entry := Consume(call, ticket);
      RunSnoc(maxTickets, before, Take(call, ticket));
      if entry.None? {
        return NotFound;
      }
      r := Finish(call, ticket, entry.value, now);
    }

    method Cleanup(now: int)
      requires Valid()
      modifies this
      ensures Valid() && hist == old(hist) + [Tickets.Cleanup(now)]
      ensures tickets == map id | id in old(tickets) && now <= old(tickets)[id].expiresAt :: old(tickets)[id]
    {
      hide Run, Legal, ExpiredIDs;
      var left := tickets.Keys;
      ghost var was, gone := tickets, {};
      assert was == was - gone;
      while left != {}
        invariant left <= was.Keys && gone <= was.Keys - left && hist == old(hist) && tickets == was - gone
        invariant forall id :: id in was && id !in left ==> (id in gone <==> now > was[id].expiresAt)
        decreases |left|
      {
        var id :| id in left;
        left := left - {id};
        if now > tickets[id].expiresAt {
          tickets := tickets - {id};
          gone := gone + {id};
        }
      }
      AllExpired(was, gone, now);
      RunSnoc(maxTickets, hist, Tickets.Cleanup(now));
      hist := hist + [Tickets.Cleanup(now)];
    }
  }

  lemma AllExpired(was: map<string, Ticket>, gone: set<string>, now: int)
    requires gone <= was.Keys && forall id :: id in was ==> (id in gone <==> now > was[id].expiresAt)
    ensures gone == ExpiredIDs(was, now)
  {
  }
}
