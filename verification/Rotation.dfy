/** Token rotation over whole runs (internal/api/refresh.go, the Store of internal/api/auth.go). A refresh request
    takes three separate steps on the shared store: it fetches the entry of its token, revokes the token, and stores
    a successor or fails to generate one. Other requests, logouts and cleanups may come between the steps. */
module Rotation {
  import opened Options
  import opened RefreshStore

  /** Seven days, in nanoseconds. */
  const LIFETIME := 604_800_000_000_000

  /** What a request says of the device it comes from: the User-Agent header and the address. */
  datatype Client = Client(deviceInfo: string, ipAddress: string)

  /** A request that has fetched the entry of its token and has not answered yet. */
  datatype Flight = Flight(token: string, entry: Entry, revoked: bool)

  datatype State = State(
    store: Tables,
    flights: map<nat, Flight>,
    used: set<string>,                      // IDs generated so far
    root: map<string, string>,              // the first token of the login an ID descends from
    owner: map<string, (string, string)>,   // user and role of the login, by its first token
    accepted: multiset<string>)             // how often each token was taken for an exchange

  datatype Event =
    | Login(id: string, user: string, role: string, from: Client, now: int)
    | Fetch(req: nat, token: string, now: int)
    | Drop(req: nat)
    | Issue(req: nat, id: string, from: Client, now: int)
    | Fail(req: nat)
    | LogoutAll(user: string)
    | EndSession(token: string)
    | Cleanup(now: int)

  const INITIAL := State(EMPTY, map[], {}, map[], map[], multiset{})

  /** Generated IDs are fresh; a request revokes after it fetched and answers after it revoked. */
  predicate Enabled(s: State, e: Event) {
    match e
    case Login(id, _, _, _, _) => id !in s.used
    case Fetch(req, _, _) => req !in s.flights
    case Drop(req) => req in s.flights && !s.flights[req].revoked
    case Issue(req, id, _, _) => req in s.flights && s.flights[req].revoked && id !in s.used
    case Fail(req) => req in s.flights && s.flights[req].revoked
    case _ => true
  }

  function Fresh(id: string, user: string, role: string, from: Client, now: int): Entry {
    Entry(id, user, role, from.deviceInfo, from.ipAddress, now, now + LIFETIME)
  }

  function RootOf(s: State, token: string): string {
    Lookup(s.root, token).GetOr("")
  }

  function Step(s: State, e: Event): State
    requires Enabled(s, e)
  {
    match e
    case Login(id, user, role, from, now) =>
      s.(store := StoreEntry(s.store, Fresh(id, user, role, from, now)), used := s.used + {id},
         root := s.root[id := id], owner := s.owner[id := (user, role)])
    case Fetch(req, token, now) =>
      var found := Retrieve(s.store, token, now);
      if found.None? then s
      else s.(flights := s.flights[req := Flight(token, found.value, false)], accepted := s.accepted + multiset{token})
    case Drop(req) =>
      var f := s.flights[req];
      s.(store := Revoke(s.store, f.token), flights := s.flights[req := f.(revoked := true)])
    case Issue(req, id, from, now) =>
      var f := s.flights[req];
      s.(store := StoreEntry(s.store, Fresh(id, f.entry.userID, f.entry.role, from, now)), flights := s.flights - {req},
         used := s.used + {id}, root := s.root[id := RootOf(s, f.token)])
    case Fail(req) => s.(flights := s.flights - {req})
    case LogoutAll(user) => s.(store := RevokeAll(s.store, user))
    case EndSession(token) => s.(store := Revoke(s.store, token))
    case Cleanup(now) => s.(store := Sweep(s.store, now))
  }

  predicate Legal(es: seq<Event>)
    decreases |es|, 0
  {
    es == [] || (Legal(es[..|es| - 1]) && Enabled(Run(es[..|es| - 1]), es[|es| - 1]))
  }

  function Run(es: seq<Event>): State
    requires Legal(es)
    decreases |es|, 1
  {
    if es == [] then INITIAL else Step(Run(es[..|es| - 1]), es[|es| - 1])
  }

  /** The step fetches a live token that another request has fetched and not yet revoked. */
  ghost predicate Overlaps(s: State, e: Event) {
    && e.Fetch? && Retrieve(s.store, e.token, e.now).Some?
    && exists r :: r in s.flights && s.flights[r].token == e.token && !s.flights[r].revoked
  }

  ghost predicate NoOverlap(es: seq<Event>)
    requires Legal(es)
  {
    es == [] || (NoOverlap(es[..|es| - 1]) && !Overlaps(Run(es[..|es| - 1]), es[|es| - 1]))
  }

  /** One request at a time: a refresh fetches only when no other is under way. */
  predicate Serial(es: seq<Event>)
    requires Legal(es)
  {
    es == []
    || (Serial(es[..|es| - 1]) && (es[|es| - 1].Fetch? ==> Run(es[..|es| - 1]).flights == map[]))
  }

  // ----- what every run keeps -----

  /** A token in the store is known, and is its login's: same user, same role. */
  predicate TokenKnown(s: State, t: string) {
    t in s.store.tokens ==>
      && t in s.used && t in s.root && s.root[t] in s.owner
      && (s.store.tokens[t].userID, s.store.tokens[t].role) == s.owner[s.root[t]]
  }

  /** A request under way was accepted once, for a known token of the same login. */
  predicate FlightKnown(s: State, r: nat) {
    r in s.flights ==>
      var f := s.flights[r];
      && f.token in s.used && f.token in s.root && s.root[f.token] in s.owner
      && (f.entry.userID, f.entry.role) == s.owner[s.root[f.token]]
      && s.accepted[f.token] >= 1
  }

  /** Only known IDs have a login. */
  predicate RootKnown(s: State, t: string) {
    && (t in s.used <==> t in s.root)
    && (t in s.owner ==> t in s.used)
    && (t in s.root ==> s.root[t] in s.owner)
    && (t !in s.used ==> s.accepted[t] == 0)
  }

  ghost predicate Inv(s: State) {
    && Agree(s.store)
    && (forall t :: TokenKnown(s, t))
    && (forall r :: FlightKnown(s, r))
    && (forall t :: RootKnown(s, t))
  }

  lemma TokenStep(s: State, e: Event, t: string)
    requires Enabled(s, e) && TokenKnown(s, t) && RootKnown(s, t)
    requires e.Issue? ==> FlightKnown(s, e.req)
    requires t in s.root ==> RootKnown(s, s.root[t])
    ensures TokenKnown(Step(s, e), t)
  {
  }

  lemma FlightStep(s: State, e: Event, r: nat)
    requires Enabled(s, e) && FlightKnown(s, r)
    requires r in s.flights ==> RootKnown(s, s.flights[r].token) && RootKnown(s, RootOf(s, s.flights[r].token))
    requires e.Fetch? ==> TokenKnown(s, e.token)
    ensures FlightKnown(Step(s, e), r)
  {
  }

  lemma RootStep(s: State, e: Event, t: string)
    requires Enabled(s, e) && RootKnown(s, t)
    requires e.Fetch? ==> TokenKnown(s, e.token)
    requires e.Issue? ==> FlightKnown(s, e.req)
    ensures RootKnown(Step(s, e), t)
  {
  }

  /** The operation a step performs on the store, if any. */
  function OpOf(s: State, e: Event): Option<Op>
    requires Enabled(s, e)
  {
    match e
    case Login(id, user, role, from, now) => Some(Put(Fresh(id, user, role, from, now)))
    case Drop(req) => Some(Remove(s.flights[req].token))
    case Issue(req, id, from, now) =>
      Some(Put(Fresh(id, s.flights[req].entry.userID, s.flights[req].entry.role, from, now)))
    case LogoutAll(user) => Some(RemoveAll(user))
    case EndSession(token) => Some(Remove(token))
    case Cleanup(now) => Some(Clean(now))
    case _ => None
  }

  lemma StepOnStore(s: State, e: Event)
    requires Enabled(s, e)
    ensures Step(s, e).store == if OpOf(s, e).Some? then Apply(s.store, OpOf(s, e).value) else s.store
  {
  }

  lemma StoreStep(s: State, e: Event)
    requires Enabled(s, e) && Agree(s.store) && (forall t :: TokenKnown(s, t))
    ensures Agree(Step(s, e).store)
  {
    hide Agree, Step, Apply;
    StepOnStore(s, e);
    if OpOf(s, e).Some? {
      if e.Login? || e.Issue? { assert TokenKnown(s, e.id); }
      ApplyKeepsAgreement(s.store, OpOf(s, e).value);
    }
  }

  lemma InvStep(s: State, e: Event)
    requires Inv(s) && Enabled(s, e)
    ensures Inv(Step(s, e))
  {
    hide Step, Agree, TokenKnown, FlightKnown, RootKnown;
    StoreStep(s, e);
    forall t ensures TokenKnown(Step(s, e), t) {
      if e.Issue? { assert FlightKnown(s, e.req); }
      assert RootKnown(s, t) && TokenKnown(s, t) && RootKnown(s, RootOf(s, t));
      TokenStep(s, e, t);
    }
    forall r ensures FlightKnown(Step(s, e), r) {
      if r in s.flights { assert RootKnown(s, s.flights[r].token) && RootKnown(s, RootOf(s, s.flights[r].token)); }
      if e.Fetch? { assert TokenKnown(s, e.token); }
      FlightStep(s, e, r);
    }
    forall t ensures RootKnown(Step(s, e), t) {
      if e.Issue? { assert FlightKnown(s, e.req); }
      if e.Fetch? { assert TokenKnown(s, e.token); }
      RootStep(s, e, t);
    }
  }

  lemma {:induction false} RunsKeepInv(es: seq<Event>)
    requires Legal(es)
    ensures Inv(Run(es))
  {
    if es == [] {
    } else {
      RunsKeepInv(es[..|es| - 1]);
      InvStep(Run(es[..|es| - 1]), es[|es| - 1]);
    }
  }

  /** Every live token belongs to the user and role of the login it descends from, interleaved or not. */
  lemma DescendantsKeepUserAndRole(es: seq<Event>, t: string)
    requires Legal(es) && t in Run(es).store.tokens
    ensures var s := Run(es);
      && t in s.root && s.root[t] in s.owner
      && s.store.tokens[t].userID == s.owner[s.root[t]].0 && s.store.tokens[t].role == s.owner[s.root[t]].1
  {
    RunsKeepInv(es);
    assert TokenKnown(Run(es), t);
  }

  lemma SameEntryStep(s: State, e: Event, t: string)
    requires Enabled(s, e) && t in s.store.tokens && t in s.used && t in Step(s, e).store.tokens
    ensures Step(s, e).store.tokens[t] == s.store.tokens[t]
  {
  }

  lemma NewEntryStep(s: State, e: Event, t: string)
    requires Enabled(s, e) && t !in s.store.tokens && t in Step(s, e).store.tokens
    ensures (e.Login? || e.Issue?) && e.id == t
    ensures
      var n := Step(s, e).store.tokens[t];
      && n.tokenID == t && n.deviceInfo == e.from.deviceInfo && n.ipAddress == e.from.ipAddress
      && n.createdAt == e.now && n.expiresAt == e.now + 604_800_000_000_000
      && (e.Login? ==> n.userID == e.user && n.role == e.role)
      && (e.Issue? ==> n.userID == s.flights[e.req].entry.userID && n.role == s.flights[e.req].entry.role)
  {
  }

  /** A live token is what a login or a refresh put there: its device and address, its moment, seven days to live,
      and at a login its user and role. */
  lemma {:induction false} TokenIsAsPut(es: seq<Event>, t: string) returns (e: Event)
    requires Legal(es) && t in Run(es).store.tokens
    ensures e in es && (e.Login? || e.Issue?) && e.id == t
    ensures
      var n := Run(es).store.tokens[t];
      && n.tokenID == t && n.deviceInfo == e.from.deviceInfo && n.ipAddress == e.from.ipAddress
      && n.createdAt == e.now && n.expiresAt == e.now + 604_800_000_000_000
      && (e.Login? ==> n.userID == e.user && n.role == e.role)
  {
    hide Step, Enabled;
    var p, last := es[..|es| - 1], es[|es| - 1];
    if es == [] {
      NoTokens(t);
    } else {
      assert es == p + [last];
      if t in Run(p).store.tokens {
        e := TokenIsAsPut(p, t);
        RunsKeepInv(p);
        assert TokenKnown(Run(p), t);
        SameEntryStep(Run(p), last, t);
      } else {
        e := last;
        NewEntryStep(Run(p), last, t);
      }
    }
  }

  lemma NoTokens(t: string)
    ensures t !in INITIAL.store.tokens && t !in INITIAL.owner
  {
  }

  lemma OwnerStep(s: State, e: Event, r: string)
    requires Enabled(s, e) && r in Step(s, e).owner
    ensures (e.Login? && e.id == r && Step(s, e).owner[r] == (e.user, e.role))
         || (r in s.owner && Step(s, e).owner[r] == s.owner[r])
  {
  }

  /** The login a token descends from is a login of the run, of that user with that role. */
  lemma {:induction false} OwnerIsOfLogin(es: seq<Event>, r: string) returns (e: Event)
    requires Legal(es) && r in Run(es).owner
    ensures e in es && e.Login? && e.id == r && Run(es).owner[r] == (e.user, e.role)
  {
    hide Step, Enabled;
    var p, last := es[..|es| - 1], es[|es| - 1];
    assert es == p + [last];
    OwnerStep(Run(p), last, r);
    if last.Login? && last.id == r && Run(es).owner[r] == (last.user, last.role) {
      e := last;
    } else {
      e := OwnerIsOfLogin(p, r);
    }
  }

  /** A session that is ended is gone, a logout everywhere takes the user's tokens, a cleanup the expired ones; no
      other token goes with them. */
  lemma RevocationsTakeEffect(s: State, token: string, user: string, now: int, t: string)
    requires Agree(s.store)
    ensures t in Step(s, EndSession(token)).store.tokens <==> t in s.store.tokens && t != token
    ensures t in Step(s, LogoutAll(user)).store.tokens <==> t in s.store.tokens && s.store.tokens[t].userID != user
    ensures t in Step(s, Cleanup(now)).store.tokens <==> t in s.store.tokens && now <= s.store.tokens[t].expiresAt
  {
    RevokeAllIsExact(s.store, user);
  }

  // ----- what runs without an overlap keep -----

  /** A login's line is at this token: it is live, or a request is exchanging it. */
  ghost predicate Holds(s: State, t: string) {
    t in s.store.tokens || exists r :: r in s.flights && s.flights[r].token == t
  }

  ghost predicate SameRootSameToken(s: State, t: string, u: string) {
    Holds(s, t) && Holds(s, u) && RootOf(s, t) == RootOf(s, u) ==> t == u
  }

  predicate FlightsApart(s: State, r: nat, q: nat) {
    r in s.flights && q in s.flights && s.flights[r].token == s.flights[q].token ==> r == q
  }

  predicate RevokedIsGone(s: State, r: nat) {
    r in s.flights && s.flights[r].revoked ==> s.flights[r].token !in s.store.tokens
  }

  ghost predicate AcceptedMatches(s: State, t: string) {
    && s.accepted[t] <= 1
    && (t in s.store.tokens && (forall r :: r in s.flights ==> s.flights[r].token != t) ==> s.accepted[t] == 0)
  }

  ghost predicate Apart(s: State) {
    && (forall t, u :: SameRootSameToken(s, t, u))
    && (forall r, q :: FlightsApart(s, r, q))
    && (forall r :: RevokedIsGone(s, r))
    && (forall t :: AcceptedMatches(s, t))
  }

  lemma HoldsKnown(s: State, t: string)
    requires Inv(s) && Holds(s, t)
    ensures t in s.used && t in s.root && s.root[t] in s.owner && s.root[t] in s.used
  {
    assert TokenKnown(s, t);
    if t !in s.store.tokens {
      var r :| r in s.flights && s.flights[r].token == t;
      assert FlightKnown(s, r);
    }
    assert RootKnown(s, s.root[t]);
  }

  predicate NewID(e: Event, t: string) {
    (e.Login? && e.id == t) || (e.Issue? && e.id == t)
  }

  lemma HoldsStep(s: State, e: Event, t: string)
    requires Enabled(s, e) && !NewID(e, t) && Holds(Step(s, e), t)
    ensures Holds(s, t)
    ensures RootOf(Step(s, e), t) == RootOf(s, t)
  {
    if t !in Step(s, e).store.tokens {
      var r :| r in Step(s, e).flights && Step(s, e).flights[r].token == t;
      assert r in s.flights || (e.Fetch? && t in s.store.tokens);
      if r in s.flights { assert s.flights[r].token == t; }
    }
  }

  lemma IssueEnds(s: State, e: Event)
    requires Enabled(s, e) && e.Issue? && Apart(s) && s.flights[e.req].token in s.used
    ensures !Holds(Step(s, e), s.flights[e.req].token)
    ensures RootOf(Step(s, e), e.id) == RootOf(s, s.flights[e.req].token)
  {
    var t := s.flights[e.req].token;
    assert RevokedIsGone(s, e.req);
    forall r | r in Step(s, e).flights ensures Step(s, e).flights[r].token != t {
      assert FlightsApart(s, r, e.req);
    }
  }

  lemma LoginRoot(s: State, e: Event)
    requires Enabled(s, e) && e.Login?
    ensures RootOf(Step(s, e), e.id) == e.id
  {
  }

  /** The login of a new token has no other token at which its line could be. */
  lemma NewTokenIsAlone(s: State, e: Event, u: string)
    requires Inv(s) && Apart(s) && Enabled(s, e) && (e.Login? || e.Issue?) && u != e.id && Holds(Step(s, e), u)
    ensures RootOf(Step(s, e), u) != RootOf(Step(s, e), e.id)
  {
    hide Step, Inv, Apart, Holds, RootOf;
    HoldsStep(s, e, u);
    HoldsKnown(s, u);
    if e.Login? {
      LoginRoot(s, e);
      assert RootOf(s, u) == s.root[u] by { RootIs(s, u); }
      assert s.root[u] != e.id;
    } else {
      FlightHolds(s, e.req);
      HoldsKnown(s, s.flights[e.req].token);
      IssueEnds(s, e);
      ApartAt(s, s.flights[e.req].token, u);
    }
  }

  lemma RootIs(s: State, t: string)
    requires t in s.root
    ensures RootOf(s, t) == s.root[t]
  {
  }

  lemma FlightHolds(s: State, r: nat)
    requires r in s.flights
    ensures Holds(s, s.flights[r].token)
  {
  }

  lemma ApartAt(s: State, t: string, u: string)
    requires Apart(s) && Holds(s, t) && Holds(s, u)
    ensures RootOf(s, t) == RootOf(s, u) ==> t == u
  {
    assert SameRootSameToken(s, t, u);
  }

  lemma SameRootStep(s: State, e: Event, t: string, u: string)
    requires Inv(s) && Apart(s) && Enabled(s, e)
    ensures SameRootSameToken(Step(s, e), t, u)
  {
    hide Step, Inv, Apart, Holds, RootOf, Enabled;
    var n := Step(s, e);
    if Holds(n, t) && Holds(n, u) && t != u {
      if NewID(e, t) {
        NewTokenIsAlone(s, e, u);
      } else if NewID(e, u) {
        NewTokenIsAlone(s, e, t);
      } else {
        HoldsStep(s, e, t);
        HoldsStep(s, e, u);
        ApartAt(s, t, u);
      }
    }
  }

  lemma FlightsStep(s: State, e: Event, r: nat, q: nat)
    requires Enabled(s, e) && !Overlaps(s, e) && FlightsApart(s, r, q) && RevokedIsGone(s, r) && RevokedIsGone(s, q)
    ensures FlightsApart(Step(s, e), r, q)
  {
  }

  lemma RevokedStep(s: State, e: Event, r: nat)
    requires Enabled(s, e) && RevokedIsGone(s, r) && FlightKnown(s, r)
    ensures RevokedIsGone(Step(s, e), r)
  {
  }

  lemma AcceptedStep(s: State, e: Event, t: string)
    requires Enabled(s, e) && !Overlaps(s, e) && AcceptedMatches(s, t) && RootKnown(s, t) && TokenKnown(s, t)
    requires forall r :: RevokedIsGone(s, r)
    ensures AcceptedMatches(Step(s, e), t)
  {
    if e.Fetch? && e.token == t && t in s.store.tokens {
      forall r | r in s.flights && s.flights[r].token == t ensures !s.flights[r].revoked {
        assert RevokedIsGone(s, r);
      }
      if Retrieve(s.store, t, e.now).Some? {
        assert s.accepted[t] == 0;
        assert e.req in Step(s, e).flights && Step(s, e).flights[e.req].token == t;
      }
    } else if t in s.store.tokens {
      forall r | r in s.flights && s.flights[r].token == t && t in Step(s, e).store.tokens
        ensures r in Step(s, e).flights && Step(s, e).flights[r].token == t
      {
        assert RevokedIsGone(s, r);
      }
    }
  }

  lemma ApartStep(s: State, e: Event)
    requires Inv(s) && Apart(s) && Enabled(s, e) && !Overlaps(s, e)
    ensures Apart(Step(s, e))
  {
    hide Step, Overlaps, SameRootSameToken, FlightsApart, RevokedIsGone, AcceptedMatches;
    hide Agree, TokenKnown, FlightKnown, RootKnown;
    forall t, u ensures SameRootSameToken(Step(s, e), t, u) { SameRootStep(s, e, t, u); }
    forall r, q ensures FlightsApart(Step(s, e), r, q) { FlightsStep(s, e, r, q); }
    forall r ensures RevokedIsGone(Step(s, e), r) { RevokedStep(s, e, r); }
    forall t ensures AcceptedMatches(Step(s, e), t) { AcceptedStep(s, e, t); }
  }

  lemma {:induction false} RunsStayApart(es: seq<Event>)
    requires Legal(es) && NoOverlap(es)
    ensures Apart(Run(es))
  {
    hide Apart, Overlaps;
    if es == [] {
      ApartAtFirst();
    } else {
      RunsStayApart(es[..|es| - 1]);
      RunsKeepInv(es[..|es| - 1]);
      ApartStep(Run(es[..|es| - 1]), es[|es| - 1]);
    }
  }

  lemma ApartAtFirst()
    ensures Apart(INITIAL)
  {
  }

  /** Without overlapping fetches at most one live token descends from any one login. */
  lemma {:induction false} OneLiveTokenPerLogin(es: seq<Event>, t: string, u: string)
    requires Legal(es) && NoOverlap(es) && t in Run(es).store.tokens && u in Run(es).store.tokens
    requires RootOf(Run(es), t) == RootOf(Run(es), u)
    ensures t == u
  {
    RunsStayApart(es);
    assert SameRootSameToken(Run(es), t, u);
  }

  /** An overlap takes a token a second time. */
  lemma OverlapAccepts(s: State, e: Event)
    requires Inv(s) && Enabled(s, e) && Overlaps(s, e)
    ensures Step(s, e).accepted[e.token] >= 2
  {
    var r :| r in s.flights && s.flights[r].token == e.token && !s.flights[r].revoked;
    assert FlightKnown(s, r);
  }

  lemma AcceptedGrows(s: State, e: Event, t: string)
    requires Enabled(s, e)
    ensures Step(s, e).accepted[t] >= s.accepted[t]
  {
  }

  lemma {:induction false} OverlapDoubles(es: seq<Event>) returns (t: string)
    requires Legal(es) && !NoOverlap(es)
    ensures Run(es).accepted[t] >= 2
  {
    hide Step, Enabled, Overlaps;
    var p, e := es[..|es| - 1], es[|es| - 1];
    if NoOverlap(p) {
      RunsKeepInv(p);
      OverlapAccepts(Run(p), e);
      t := FetchedToken(Run(p), e);
    } else {
      t := OverlapDoubles(p);
      AcceptedGrows(Run(p), e, t);
    }
  }

  lemma FetchedToken(s: State, e: Event) returns (t: string)
    requires Overlaps(s, e)
    ensures e.Fetch? && t == e.token
  {
    t := e.token;
  }

  /** Each refresh token is taken for an exchange at most once exactly when no request fetches a token between
      another's fetch and revoke of it. */
  lemma AcceptedOnceIff(es: seq<Event>)
    requires Legal(es)
    ensures (forall t :: Run(es).accepted[t] <= 1) <==> NoOverlap(es)
  {
    if NoOverlap(es) {
      RunsStayApart(es);
      forall t ensures Run(es).accepted[t] <= 1 { assert AcceptedMatches(Run(es), t); }
    } else {
      var t := OverlapDoubles(es);
    }
  }

  // ----- exchanges: successors issued -----

  /** The step answers a request for the token with a successor. */
  predicate Exchanges(s: State, e: Event, token: string) {
    e.Issue? && e.req in s.flights && s.flights[e.req].token == token
  }

  predicate GivesUp(s: State, e: Event, token: string) {
    e.Fail? && e.req in s.flights && s.flights[e.req].token == token
  }

  /** How many successors a token has been exchanged for. */
  function Exchanged(es: seq<Event>, token: string): nat
    requires Legal(es)
  {
    if es == [] then 0
    else
      var p, e := es[..|es| - 1], es[|es| - 1];
      Exchanged(p, token) + if Exchanges(Run(p), e, token) then 1 else 0
  }

  /** How many requests for a token could not generate one. */
  function GivenUp(es: seq<Event>, token: string): nat
    requires Legal(es)
  {
    if es == [] then 0
    else
      var p, e := es[..|es| - 1], es[|es| - 1];
      GivenUp(p, token) + if GivesUp(Run(p), e, token) then 1 else 0
  }

  /** The requests under way for a token. */
  function UnderWay(s: State, token: string): set<nat> {
    set r | r in s.flights && s.flights[r].token == token
  }

  lemma UnderWayStep(s: State, e: Event, token: string)
    requires Enabled(s, e)
    ensures UnderWay(Step(s, e), token) ==
      if e.Fetch? && e.token == token && Retrieve(s.store, token, e.now).Some? then UnderWay(s, token) + {e.req}
      else if Exchanges(s, e, token) || GivesUp(s, e, token) then UnderWay(s, token) - {e.req}
      else UnderWay(s, token)
  {
  }

  lemma AccountStep(s: State, e: Event, token: string)
    requires Enabled(s, e)
    ensures
      var answered := if Exchanges(s, e, token) || GivesUp(s, e, token) then 1 else 0;
      |UnderWay(Step(s, e), token)| + answered + s.accepted[token]
      == |UnderWay(s, token)| + Step(s, e).accepted[token]
  {
    UnderWayStep(s, e, token);
    if e.Fetch? { assert e.req !in UnderWay(s, token); }
    if Exchanges(s, e, token) || GivesUp(s, e, token) { assert e.req in UnderWay(s, token); }
  }

  /** Every time a token was taken for an exchange it was exchanged for a successor, or none could be generated, or
      the request is still under way. */
  lemma {:induction false} AcceptedAreAccountedFor(es: seq<Event>, token: string)
    requires Legal(es)
    ensures Run(es).accepted[token] == Exchanged(es, token) + GivenUp(es, token) + |UnderWay(Run(es), token)|
  {
    hide Step, Enabled, UnderWay, Exchanges, GivesUp;
    if es == [] {
      NobodyUnderWay(token);
    } else {
      AcceptedAreAccountedFor(es[..|es| - 1], token);
      AccountStep(Run(es[..|es| - 1]), es[|es| - 1], token);
      OneOrTheOther(Run(es[..|es| - 1]), es[|es| - 1], token);
    }
  }

  lemma NobodyUnderWay(token: string)
    ensures UnderWay(INITIAL, token) == {} && INITIAL.accepted[token] == 0
  {
  }

  lemma OneOrTheOther(s: State, e: Event, token: string)
    ensures !(Exchanges(s, e, token) && GivesUp(s, e, token))
  {
  }

  predicate NothingFails(es: seq<Event>) {
    forall i :: 0 <= i < |es| ==> !es[i].Fail?
  }

  lemma {:induction false} NothingGivenUp(es: seq<Event>, token: string)
    requires Legal(es) && NothingFails(es)
    ensures GivenUp(es, token) == 0
  {
    hide Run;
    if es == [] {
    } else {
      NothingGivenUp(es[..|es| - 1], token);
    }
  }

  /** Without overlapping fetches no refresh token is ever exchanged for two successors. */
  lemma {:induction false} ExchangedAtMostOnce(es: seq<Event>, token: string)
    requires Legal(es) && NoOverlap(es)
    ensures Exchanged(es, token) <= 1
  {
    AcceptedOnceIff(es);
    AcceptedAreAccountedFor(es, token);
  }

  /** In runs that are over, with every request answered and every generation successful, each refresh token has been
      exchanged at most once exactly when no fetches overlapped. */
  lemma {:induction false} ExchangedOnceIff(es: seq<Event>)
    requires Legal(es) && NothingFails(es) && Run(es).flights == map[]
    ensures (forall t :: Exchanged(es, t) <= 1) <==> NoOverlap(es)
  {
    hide Run, Exchanged, GivenUp, NoOverlap, Legal, UnderWay;
    if NoOverlap(es) {
      forall t ensures Exchanged(es, t) <= 1 { ExchangedAtMostOnce(es, t); }
    } else {
      var t := OverlapDoubles(es);
      AcceptedAreAccountedFor(es, t);
      NothingGivenUp(es, t);
      NobodyLeft(Run(es), t);
      assert Exchanged(es, t) >= 2;
    }
  }

  lemma NobodyLeft(s: State, token: string)
    requires s.flights == map[]
    ensures UnderWay(s, token) == {}
  {
  }

  /** Two requests for the same live token may both get as far as having revoked it. */
  lemma BothFetch(es: seq<Event>, token: string, now: int, r1: nat, r2: nat) returns (run: seq<Event>)
    requires Legal(es) && Retrieve(Run(es).store, token, now).Some? && r1 != r2
    requires r1 !in Run(es).flights && r2 !in Run(es).flights
    ensures Legal(run) && es <= run
    ensures var s, t := Run(run), Run(es);
      && r1 in s.flights && s.flights[r1].token == token && s.flights[r1].revoked
      && r2 in s.flights && s.flights[r2].token == token && s.flights[r2].revoked
      && s.accepted[token] == t.accepted[token] + 2 && s.used == t.used && s.root == t.root
  {
    hide Run, Legal, Revoke;
    run := Extend(es, Fetch(r1, token, now));
    run := Extend(run, Fetch(r2, token, now));
    run := Extend(run, Drop(r1));
    run := Extend(run, Drop(r2));
  }

  /** From any run with a live token, two overlapping requests get two live successors of the same login. */
  lemma {:induction false} DoubleExchange(es: seq<Event>, token: string, now: int, r1: nat, r2: nat,
                                         id1: string, id2: string, from: Client)
    returns (run: seq<Event>)
    requires Legal(es) && Retrieve(Run(es).store, token, now).Some? && r1 != r2
    requires r1 !in Run(es).flights && r2 !in Run(es).flights
    requires id1 != id2 && id1 !in Run(es).used && id2 !in Run(es).used
    ensures Legal(run) && es <= run && !NoOverlap(run)
    ensures var s := Run(run);
      && Retrieve(s.store, id1, now).Some? && Retrieve(s.store, id2, now).Some?
      && RootOf(s, id1) == RootOf(s, id2) == RootOf(Run(es), token)
  {
    RunsKeepInv(es);
    assert TokenKnown(Run(es), token);
    hide Run, Legal, NoOverlap, Inv, TokenKnown, Revoke;
    run := BothFetch(es, token, now, r1, r2);
    run := Extend(run, Issue(r1, id1, from, now));
    run := Extend(run, Issue(r2, id2, from, now));
    assert Run(run).accepted[token] >= 2;
    AcceptedOnceIff(run);
  }

  lemma ExchangedSnoc(es: seq<Event>, e: Event, token: string)
    requires Legal(es) && Enabled(Run(es), e)
    ensures Legal(es + [e]) && Run(es + [e]) == Step(Run(es), e)
    ensures Exchanged(es + [e], token) == Exchanged(es, token) + if Exchanges(Run(es), e, token) then 1 else 0
  {
    assert (es + [e])[..|es + [e]| - 1] == es;
  }

  /** A request that has fetched, brought past its revoke. */
  lemma PastRevoke(es: seq<Event>, req: nat, token: string) returns (run: seq<Event>)
    requires Legal(es) && req in Run(es).flights && Run(es).flights[req].token == token
    ensures Legal(run) && es <= run && Exchanged(run, token) == Exchanged(es, token)
    ensures var s, t := Run(es), Run(run);
      && t.used == s.used && t.flights == s.flights[req := s.flights[req].(revoked := true)]
  {
    hide Run, Legal, Exchanged, Revoke;
    run := es;
    if Run(es).flights[req].revoked {
      assert Run(es).flights == Run(es).flights[req := Run(es).flights[req].(revoked := true)];
    } else {
      ExchangedSnoc(es, Drop(req), token);
      run := es + [Drop(req)];
    }
  }

  /** The condition is the one to keep: two requests under way with one token can always go on to exchange it for two
      successors. */
  lemma {:induction false} OverlapLetsExchangeTwice(es: seq<Event>, token: string, r1: nat, r2: nat,
                                                   id1: string, id2: string, from: Client, now: int)
    returns (run: seq<Event>)
    requires Legal(es) && r1 != r2 && r1 in Run(es).flights && r2 in Run(es).flights
    requires Run(es).flights[r1].token == token && Run(es).flights[r2].token == token
    requires id1 != id2 && id1 !in Run(es).used && id2 !in Run(es).used
    ensures Legal(run) && es <= run && Exchanged(run, token) >= 2
  {
    hide Run, Legal, Exchanged;
    run := PastRevoke(es, r1, token);
    run := PastRevoke(run, r2, token);
    ExchangedSnoc(run, Issue(r1, id1, from, now), token);
    run := run + [Issue(r1, id1, from, now)];
    ExchangedSnoc(run, Issue(r2, id2, from, now), token);
    run := run + [Issue(r2, id2, from, now)];
  }

  lemma Extend(es: seq<Event>, e: Event) returns (longer: seq<Event>)
    requires Legal(es) && Enabled(Run(es), e)
    ensures longer == es + [e] && Legal(longer) && Run(longer) == Step(Run(es), e)
  {
    longer := es + [e];
    RunSnoc(es, e);
  }

  /** Requests served one at a time never overlap. */
  lemma {:induction false} SerialHasNoOverlap(es: seq<Event>)
    requires Legal(es) && Serial(es)
    ensures NoOverlap(es)
  {
    if es == [] {
    } else {
      SerialHasNoOverlap(es[..|es| - 1]);
    }
  }

  // ----- where a login's line ends -----

  lemma {:induction false} LegalPrefix(es: seq<Event>, k: nat)
    requires Legal(es) && k <= |es|
    ensures Legal(es[..k])
  {
    if k < |es| {
      LegalPrefix(es[..|es| - 1], k);
      assert es[..|es| - 1][..k] == es[..k];
    } else {
      assert es[..k] == es;
    }
  }

  /** A login that has been, and of which no token is live or being exchanged. */
  ghost predicate Over(s: State, root: string) {
    root in s.used && forall t :: Holds(s, t) ==> RootOf(s, t) != root
  }

  lemma OverStep(s: State, e: Event, root: string)
    requires Inv(s) && Enabled(s, e) && Over(s, root)
    ensures Over(Step(s, e), root)
  {
    hide Inv, Holds, RootOf;
    forall t | Holds(Step(s, e), t) ensures RootOf(Step(s, e), t) != root {
      if !NewID(e, t) {
        HoldsStep(s, e, t);
      } else if e.Login? {
        LoginRoot(s, e);
      } else {
        FlightHolds(s, e.req);
        HoldsKnown(s, s.flights[e.req].token);
        IssuedRoot(s, e);
      }
    }
  }

  lemma IssuedRoot(s: State, e: Event)
    requires Enabled(s, e) && e.Issue?
    ensures RootOf(Step(s, e), e.id) == RootOf(s, s.flights[e.req].token)
  {
  }

  /** What is over stays over. */
  lemma {:induction false} OverForGood(es: seq<Event>, k: nat, root: string)
    requires Legal(es) && k <= |es| && Legal(es[..k]) && Over(Run(es[..k]), root)
    ensures Over(Run(es), root)
    decreases |es|
  {
    hide Over, Step, Enabled;
    if k == |es| {
      assert es[..k] == es;
    } else {
      var p := es[..|es| - 1];
      assert p[..k] == es[..k];
      OverForGood(p, k, root);
      RunsKeepInv(p);
      OverStep(Run(p), es[|es| - 1], root);
    }
  }

  lemma LogoutEmpties(s: State, user: string, root: string)
    requires Inv(s) && root in s.owner && s.owner[root].0 == user
    requires forall r :: r in s.flights ==> s.flights[r].entry.userID != user
    ensures Over(Step(s, LogoutAll(user)), root)
  {
    var n := Step(s, LogoutAll(user));
    RevokeAllIsExact(s.store, user);
    assert RootKnown(s, root);
    forall t | Holds(n, t) ensures RootOf(n, t) != root {
      if t in n.store.tokens {
        assert TokenKnown(s, t);
      } else {
        var r :| r in n.flights && n.flights[r].token == t;
        assert FlightKnown(s, r);
      }
    }
  }

  /** Logging out everywhere while no refresh of the user is under way ends all the user's logins for good. */
  lemma {:induction false} LogoutAllEndsSessions(es: seq<Event>, k: nat, user: string, t: string)
    requires Legal(es) && k < |es| && es[k] == LogoutAll(user) && t in Run(es).store.tokens
    requires Legal(es[..k]) && forall r :: r in Run(es[..k]).flights ==> Run(es[..k]).flights[r].entry.userID != user
    ensures var s := Run(es[..k]); var root := RootOf(Run(es), t);
      root in s.owner ==> s.owner[root].0 != user
  {
    var s, root := Run(es[..k]), RootOf(Run(es), t);
    if root in s.owner && s.owner[root].0 == user {
      RunsKeepInv(es[..k]);
      LogoutEmpties(s, user, root);
      LegalPrefix(es, k + 1);
      assert es[..k + 1][..k] == es[..k] && es[..k + 1][k] == es[k];
      OverForGood(es, k + 1, root);
      assert Holds(Run(es), t);
      assert false;
    }
  }

  lemma {:induction false} LongerThanAll(used: set<string>) returns (n: nat)
    ensures forall x :: x in used ==> |x| < n
    decreases |used|
  {
    if used == {} {
      n := 0;
    } else {
      var x :| x in used;
      n := LongerThanAll(used - {x});
      n := if n <= |x| then |x| + 1 else n;
    }
  }

  lemma RunSnoc(es: seq<Event>, e: Event)
    requires Legal(es) && Enabled(Run(es), e)
    ensures Legal(es + [e]) && Run(es + [e]) == Step(Run(es), e)
  {
    assert (es + [e])[..|es + [e]| - 1] == es;
  }

  /** A logout does not stop a request under way from getting past its revoke. */
  lemma GoesOnAfterLogout(es: seq<Event>, req: nat, user: string) returns (more: seq<Event>)
    requires Legal(es) && req in Run(es).flights
    ensures Legal(es + [LogoutAll(user)] + more)
    ensures var s, t := Run(es), Run(es + [LogoutAll(user)] + more);
      && req in t.flights && t.flights[req] == s.flights[req].(revoked := true)
      && t.used == s.used && t.root == s.root && t.owner == s.owner
  {
    hide Run, Legal, Revoke, RevokeAll;
    var out := es + [LogoutAll(user)];
    RunSnoc(es, LogoutAll(user));
    if Run(es).flights[req].revoked {
      more := [];
      assert out + more == out;
    } else {
      more := [Drop(req)];
      RunSnoc(out, Drop(req));
    }
  }

  /** Only then: a refresh under way at the logout can still bring its login a live token. */
  lemma FlightOutlivesLogout(es: seq<Event>, req: nat, from: Client, now: int) returns (more: seq<Event>, t: string)
    requires Legal(es) && req in Run(es).flights
    ensures var f := Run(es).flights[req];
      && Legal(es + [LogoutAll(f.entry.userID)] + more)
      && var s := Run(es + [LogoutAll(f.entry.userID)] + more);
      && Retrieve(s.store, t, now).Some? && s.store.tokens[t].userID == f.entry.userID
      && RootOf(s, t) == RootOf(Run(es), f.token) && RootOf(s, t) in Run(es).owner
  {
    var f := Run(es).flights[req];
    RunsKeepInv(es);
    assert FlightKnown(Run(es), req);
    hide Run, Legal, Inv, FlightKnown, Step, Enabled;
    var n := LongerThanAll(Run(es).used);
    t := seq(n, _ => 'a');
    more := GoesOnAfterLogout(es, req, f.entry.userID);
    var run := es + [LogoutAll(f.entry.userID)] + more;
    IssuesLive(Run(run), req, t, from, now);
    RunSnoc(run, Issue(req, t, from, now));
    assert run + [Issue(req, t, from, now)] == es + [LogoutAll(f.entry.userID)] + (more + [Issue(req, t, from, now)]);
    more := more + [Issue(req, t, from, now)];
  }

  lemma IssuesLive(s: State, req: nat, t: string, from: Client, now: int)
    requires req in s.flights && s.flights[req].revoked && t !in s.used
    ensures Enabled(s, Issue(req, t, from, now))
    ensures var n := Step(s, Issue(req, t, from, now));
      && Retrieve(n.store, t, now).Some? && n.store.tokens[t].userID == s.flights[req].entry.userID
      && RootOf(n, t) == RootOf(s, s.flights[req].token)
  {
  }

  /** When no successor can be generated the login is over, for its token is already revoked. */
  lemma FailureEndsTheLogin(es: seq<Event>, req: nat)
    requires Legal(es) && NoOverlap(es) && Enabled(Run(es), Fail(req))
    ensures var s := Run(es); Over(Step(s, Fail(req)), RootOf(s, s.flights[req].token))
  {
    var s := Run(es);
    var t, n := s.flights[req].token, Step(s, Fail(req));
    RunsKeepInv(es);
    RunsStayApart(es);
    FlightHolds(s, req);
    HoldsKnown(s, t);
    assert RevokedIsGone(s, req);
    forall r | r in n.flights ensures n.flights[r].token != t { assert FlightsApart(s, r, req); }
    forall u | Holds(n, u) ensures RootOf(n, u) != RootOf(s, t) {
      HoldsStep(s, Fail(req), u);
      ApartAt(s, t, u);
    }
  }
}

/** The refresh handler as the source has it, on one store nobody else touches meanwhile. */
module RefreshHandler {
  import opened RefreshStore
  import opened MemoryStore
  import opened Rotation

  /** What the random generators gave: no access token, no refresh ID, or both. */
  datatype Generated = NoAccessToken | NoRefreshID | Both(id: string)

  datatype Answer = Unauthorized | NotConfigured | Failed | Refreshed(token: string)

  /** The events of one request, in the rotation model. */
  function Served(s: Tables, req: nat, token: string, generated: Generated, from: Client, now: int): seq<Event> {
    if RefreshStore.Retrieve(s, token, now).None? then [Fetch(req, token, now)]
    else [Fetch(req, token, now), Drop(req),
          if generated.Both? then Issue(req, generated.id, from, now) else Fail(req)]
  }

  predicate CanTake(s: State, es: seq<Event>)
    decreases |es|
  {
    es == [] || (Enabled(s, es[0]) && CanTake(Step(s, es[0]), es[1..]))
  }

  function Taken(s: State, es: seq<Event>): State
    requires CanTake(s, es)
    decreases |es|
  {
    if es == [] then s else Taken(Step(s, es[0]), es[1..])
  }

  lemma OneTaken(s: State, a: Event)
    requires Enabled(s, a)
    ensures CanTake(s, [a]) && Taken(s, [a]) == Step(s, a)
  {
    var t := Step(s, a);
    assert [a][1..] == [];
    assert CanTake(t, []) && Taken(t, []) == t;
  }

  lemma ThreeTaken(s: State, a: Event, b: Event, c: Event)
    requires Enabled(s, a) && Enabled(Step(s, a), b) && Enabled(Step(Step(s, a), b), c)
    ensures CanTake(s, [a, b, c]) && Taken(s, [a, b, c]) == Step(Step(Step(s, a), b), c)
  {
    hide Step, Enabled;
    var t := Step(s, a);
    var u := Step(t, b);
    OneTaken(u, c);
    assert [b, c][1..] == [c];
    assert CanTake(t, [b, c]) && Taken(t, [b, c]) == Taken(u, [c]);
    assert [a, b, c][1..] == [b, c];
  }

  /** What the three steps do to the store. */
  lemma HandlerIsTheSteps(s: State, req: nat, token: string, generated: Generated, from: Client, now: int)
    requires req !in s.flights && (generated.Both? ==> generated.id !in s.used)
    ensures
      var es := Served(s.store, req, token, generated, from, now);
      CanTake(s, es) && Taken(s, es).flights == s.flights
      && Taken(s, es).store ==
           if RefreshStore.Retrieve(s.store, token, now).None? then s.store
           else if !generated.Both? then RefreshStore.Revoke(s.store, token)
           else StoreEntry(RefreshStore.Revoke(s.store, token),
                  Entry(generated.id, s.store.tokens[token].userID, s.store.tokens[token].role,
                        from.deviceInfo, from.ipAddress, now, now + 604_800_000_000_000))
  {
    hide CanTake, Taken, RefreshStore.Revoke, StoreEntry;
    var fetch := Fetch(req, token, now);
    if RefreshStore.Retrieve(s.store, token, now).None? {
      OneTaken(s, fetch);
    } else {
      var last := if generated.Both? then Issue(req, generated.id, from, now) else Fail(req);
      ThreeTaken(s, fetch, Drop(req), last);
    }
  }

  /** The handler. What it does to the store is what the steps of the rotation model do, from any state with this
      store: a fetch alone without a live token, else fetch, revoke, and issue or fail. */
  method RefreshToken(store: MemoryRefreshTokenStore?, token: string, generated: Generated, from: Client, now: int,
                      ghost s: State, ghost req: nat)
    returns (answer: Answer)
    requires store != null ==> store.Valid() && store.View() == s.store
    requires req !in s.flights && (generated.Both? ==> generated.id !in s.used)
    modifies store
    ensures token == "" ==> answer == Unauthorized && (store != null ==> store.View() == s.store)
    ensures token != "" && store == null ==> answer == NotConfigured
    ensures token != "" && store != null ==>
      var es := Served(s.store, req, token, generated, from, now);
      && CanTake(s, es) && store.Valid() && store.View() == Taken(s, es).store
      && answer == if RefreshStore.Retrieve(s.store, token, now).None? then Unauthorized
                   else if generated.Both? then Refreshed(generated.id) else Failed
  {
    if token == "" {
      return Unauthorized;
    }
    if store == null {
      return NotConfigured;
    }
    hide CanTake, Taken, RefreshStore.Revoke, StoreEntry;
    HandlerIsTheSteps(s, req, token, generated, from, now);
    var entry := store.Retrieve(token, now);
    if entry.None? {
      return Unauthorized;
    }
    store.Revoke(token);
    match generated
    case NoAccessToken => return Failed;
    case NoRefreshID => return Failed;
    case Both(id) =>
      store.Store(Fresh(id, entry.value.userID, entry.value.role, from, now));
      return Refreshed(id);
  }
}
