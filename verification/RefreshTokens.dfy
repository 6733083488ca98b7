/** The in-memory refresh token store (internal/auth/refresh_token.go): a map from token IDs to entries and an index
    from users to their token IDs, which have to agree. */
module RefreshStore {
  import opened Options
  import opened Counting

  datatype Entry = Entry(tokenID: string, userID: string, role: string, deviceInfo: string, ipAddress: string,
                         createdAt: int, expiresAt: int)

  datatype Tables = Tables(tokens: map<string, Entry>, users: map<string, set<string>>)

  const EMPTY := Tables(map[], map[])

  predicate Expired(e: Entry, now: int) { now > e.expiresAt }

  function IDs(users: map<string, set<string>>, user: string): set<string> {
    if user in users then users[user] else {}
  }

  /** Takes an ID out of a user's set; the set stays, empty or not. */
  function Unlink(users: map<string, set<string>>, user: string, tid: string): map<string, set<string>> {
    if user in users then users[user := users[user] - {tid}] else users
  }

  function StoreEntry(s: Tables, e: Entry): Tables {
    Tables(s.tokens[e.tokenID := e], s.users[e.userID := IDs(s.users, e.userID) + {e.tokenID}])
  }

  function Retrieve(s: Tables, tid: string, now: int): Option<Entry> {
    if tid !in s.tokens || Expired(s.tokens[tid], now) then None else Some(s.tokens[tid])
  }

  function Revoke(s: Tables, tid: string): Tables {
    if tid !in s.tokens then s else Tables(s.tokens - {tid}, Unlink(s.users, s.tokens[tid].userID, tid))
  }

  function RevokeAll(s: Tables, user: string): Tables {
    if user !in s.users then s else Tables(s.tokens - s.users[user], s.users - {user})
  }

  function ExpiredIDs(s: Tables, now: int): set<string> {
    set t | t in s.tokens && Expired(s.tokens[t], now)
  }

  /** A state with some tokens taken out of both maps. */
  function Without(s: Tables, gone: set<string>): Tables {
    Tables(s.tokens - gone,
          map u | u in s.users ::
            set t | t in s.users[u] && !(t in gone && t in s.tokens && s.tokens[t].userID == u))
  }

  function Sweep(s: Tables, now: int): Tables {
    Without(s, ExpiredIDs(s, now))
  }

  /** The tokens ListForUser reports. */
  function Listed(s: Tables, user: string, now: int): set<string> {
    set t | t in IDs(s.users, user) && t in s.tokens && !Expired(s.tokens[t], now)
  }

  function Count(s: Tables, user: string): nat {
    |IDs(s.users, user)|
  }

  /** A token is in a user's set exactly when it is that user's. */
  ghost predicate Agree(s: Tables) {
    forall t: string, u: string :: t in IDs(s.users, u) <==> t in s.tokens && s.tokens[t].userID == u
  }

  /** Entries stand under their own ID. */
  predicate Keyed(s: Tables) {
    forall t :: t in s.tokens ==> s.tokens[t].tokenID == t
  }

  datatype Op =
    | Put(entry: Entry)
    | Remove(tid: string)
    | RemoveAll(user: string)
    | Clean(now: int)

  function Apply(s: Tables, op: Op): Tables {
    match op
    case Put(e) => StoreEntry(s, e)
    case Remove(tid) => Revoke(s, tid)
    case RemoveAll(user) => RevokeAll(s, user)
    case Clean(now) => Sweep(s, now)
  }

  function ApplyAll(s: Tables, ops: seq<Op>): Tables {
    if ops == [] then s else Apply(ApplyAll(s, ops[..|ops| - 1]), ops[|ops| - 1])
  }

  /** What a store puts in never takes another user's ID. */
  predicate Fits(s: Tables, op: Op) {
    op.Put? ==> op.entry.tokenID !in s.tokens || s.tokens[op.entry.tokenID].userID == op.entry.userID
  }

  predicate AllFit(s: Tables, ops: seq<Op>) {
    ops == [] || (AllFit(s, ops[..|ops| - 1]) && Fits(ApplyAll(s, ops[..|ops| - 1]), ops[|ops| - 1]))
  }

  // ----- the two maps agree -----

  /** Store keeps the two maps in agreement exactly when the ID is new or already the same user's. */
  lemma StoreKeepsAgreementIff(s: Tables, e: Entry)
    requires Agree(s)
    ensures Agree(StoreEntry(s, e)) <==> Fits(s, Put(e))
  {
    var t := StoreEntry(s, e);
    if Fits(s, Put(e)) {
      forall x: string, u: string ensures x in IDs(t.users, u) <==> x in t.tokens && t.tokens[x].userID == u {
        assert x in IDs(s.users, u) <==> x in s.tokens && s.tokens[x].userID == u;
      }
    } else {
      var u := s.tokens[e.tokenID].userID;
      assert e.tokenID in IDs(s.users, u);
      assert e.tokenID in IDs(t.users, u) && t.tokens[e.tokenID].userID != u;
      assert !Agree(t);
    }
  }

  lemma ApplyKeepsAgreement(s: Tables, op: Op)
    requires Agree(s) && Fits(s, op)
    ensures Agree(Apply(s, op))
  {
    var t := Apply(s, op);
    if op.Put? {
      StoreKeepsAgreementIff(s, op.entry);
    } else {
      forall x: string, u: string ensures x in IDs(t.users, u) <==> x in t.tokens && t.tokens[x].userID == u {
        assert x in IDs(s.users, u) <==> x in s.tokens && s.tokens[x].userID == u;
        if op.RemoveAll? { assert x in IDs(s.users, op.user) <==> x in s.tokens && s.tokens[x].userID == op.user; }
      }
    }
  }

  lemma {:induction false} RunsKeepAgreement(s: Tables, ops: seq<Op>)
    requires Agree(s) && AllFit(s, ops)
    ensures Agree(ApplyAll(s, ops))
  {
    if ops == [] {
    } else {
      RunsKeepAgreement(s, ops[..|ops| - 1]);
      ApplyKeepsAgreement(ApplyAll(s, ops[..|ops| - 1]), ops[|ops| - 1]);
    }
  }

  /** RevokeAllForUser removes that user's tokens, all of them, and nobody else's. */
  lemma RevokeAllIsExact(s: Tables, user: string)
    requires Agree(s)
    ensures RevokeAll(s, user).tokens == map t | t in s.tokens && s.tokens[t].userID != user :: s.tokens[t]
    ensures forall other :: other != user ==> IDs(RevokeAll(s, user).users, other) == IDs(s.users, other)
    ensures Count(RevokeAll(s, user), user) == 0
  {
    forall t ensures t in RevokeAll(s, user).tokens <==> t in s.tokens && s.tokens[t].userID != user {
      assert t in IDs(s.users, user) <==> t in s.tokens && s.tokens[t].userID == user;
    }
  }

  lemma ApplySnoc(s: Tables, ops: seq<Op>, op: Op)
    ensures ApplyAll(s, ops + [op]) == Apply(ApplyAll(s, ops), op)
  {
    assert (ops + [op])[..|ops + [op]| - 1] == ops;
  }

  /** Entries stand under their own ID after every run, whatever was stored. */
  lemma {:induction false} RunsKeepKeys(s: Tables, ops: seq<Op>)
    requires Keyed(s)
    ensures Keyed(ApplyAll(s, ops))
  {
    if ops == [] {
    } else {
      RunsKeepKeys(s, ops[..|ops| - 1]);
    }
  }

  // ----- Count and ListForUser -----

  /** Count is an upper bound on the list; the difference is the user's expired tokens still in the store. */
  lemma CountBoundsTheList(s: Tables, user: string, now: int)
    requires Agree(s)
    ensures |Listed(s, user, now)| <= Count(s, user)
    ensures |Listed(s, user, now)| == Count(s, user) <==>
              forall t :: t in s.tokens && s.tokens[t].userID == user ==> !Expired(s.tokens[t], now)
  {
    SubsetCount(Listed(s, user, now), IDs(s.users, user));
    forall t ensures t in IDs(s.users, user) <==> t in s.tokens && s.tokens[t].userID == user {
    }
    if Listed(s, user, now) == IDs(s.users, user) {
      forall t | t in s.tokens && s.tokens[t].userID == user ensures !Expired(s.tokens[t], now) {
        assert t in Listed(s, user, now);
      }
    }
  }

  lemma CleanCountsTheList(s: Tables, user: string, now: int)
    requires Agree(s)
    ensures |Listed(Sweep(s, now), user, now)| == Count(Sweep(s, now), user)
  {
    ApplyKeepsAgreement(s, Clean(now));
    CountBoundsTheList(Sweep(s, now), user, now);
  }

  // ----- cleanup is invisible -----

  /** The same tokens but for some that expired before now. */
  ghost predicate SameLive(s: Tables, t: Tables, now: int) {
    && (forall x :: x in t.tokens ==> x in s.tokens && t.tokens[x] == s.tokens[x])
    && (forall x :: x in s.tokens ==> x in t.tokens || Expired(s.tokens[x], now))
  }

  lemma SameLiveStep(s: Tables, t: Tables, now: int, op: Op)
    requires Agree(s) && Agree(t) && SameLive(s, t, now)
    ensures SameLive(Apply(s, op), Apply(t, op), now)
    ensures Fits(s, op) ==> Fits(t, op)
  {
    if op.RemoveAll? {
      RevokeAllIsExact(s, op.user);
      RevokeAllIsExact(t, op.user);
    }
  }

  lemma {:induction false} SameLiveRun(s: Tables, t: Tables, now: int, ops: seq<Op>)
    requires Agree(s) && Agree(t) && SameLive(s, t, now) && AllFit(s, ops)
    ensures AllFit(t, ops) && SameLive(ApplyAll(s, ops), ApplyAll(t, ops), now)
    ensures Agree(ApplyAll(s, ops)) && Agree(ApplyAll(t, ops))
  {
    hide Apply, Agree, SameLive, Fits;
    if ops == [] {
    } else {
      var p, op := ops[..|ops| - 1], ops[|ops| - 1];
      SameLiveRun(s, t, now, p);
      SameLiveStep(ApplyAll(s, p), ApplyAll(t, p), now, op);
      ApplyKeepsAgreement(ApplyAll(s, p), op);
      ApplyKeepsAgreement(ApplyAll(t, p), op);
    }
  }

  lemma SweepSameLive(s: Tables, now: int)
    ensures SameLive(s, Sweep(s, now), now)
  {
  }

  lemma SameLiveLooksAlike(s: Tables, t: Tables, now: int, tid: string, user: string, later: int)
    requires Agree(s) && Agree(t) && SameLive(s, t, now) && now <= later
    ensures Retrieve(t, tid, later) == Retrieve(s, tid, later)
    ensures Listed(t, user, later) == Listed(s, user, later)
    ensures forall x :: x in Listed(t, user, later) ==> x in s.tokens && x in t.tokens && s.tokens[x] == t.tokens[x]
  {
    forall x ensures x in Listed(t, user, later) <==> x in Listed(s, user, later) {
      assert x in IDs(t.users, user) <==> x in t.tokens && t.tokens[x].userID == user;
      assert x in IDs(s.users, user) <==> x in s.tokens && s.tokens[x].userID == user;
    }
  }

  /** A cleanup at now changes no Retrieve and no ListForUser at now or later, whatever the store does in between. */
  lemma {:induction false} CleanupIsInvisible(s: Tables, now: int, ops: seq<Op>, tid: string, user: string, later: int)
    requires Agree(s) && AllFit(s, ops) && now <= later
    ensures var (with, without) := (ApplyAll(Sweep(s, now), ops), ApplyAll(s, ops));
      && AllFit(Sweep(s, now), ops)
      && Retrieve(with, tid, later) == Retrieve(without, tid, later)
      && Listed(with, user, later) == Listed(without, user, later)
      && (forall t :: t in Listed(with, user, later) ==>
            t in with.tokens && t in without.tokens && with.tokens[t] == without.tokens[t])
  {
    hide Agree, SameLive, ApplyAll, AllFit, Sweep, Listed;
    ApplyKeepsAgreement(s, Clean(now));
    SweepSameLive(s, now);
    SameLiveRun(s, Sweep(s, now), now, ops);
    SameLiveLooksAlike(ApplyAll(s, ops), ApplyAll(Sweep(s, now), ops), now, tid, user, later);
  }

  // ----- how long a token is good -----

  /** A token in the store is retrieved, listed for its user and left by a cleanup through the last instant before its
      ExpiresAt has passed, and not a moment longer. */
  lemma GoodThroughExpiresAt(s: Tables, t: string, now: int)
    requires t in s.tokens
    ensures Retrieve(s, t, now) == if now <= s.tokens[t].expiresAt then Some(s.tokens[t]) else None
    ensures t in Sweep(s, now).tokens <==> now <= s.tokens[t].expiresAt
    ensures Agree(s) ==> (t in Listed(s, s.tokens[t].userID, now) <==> now <= s.tokens[t].expiresAt)
    ensures Agree(s) ==> forall u :: u != s.tokens[t].userID ==> t !in Listed(s, u, now)
  {
    if Agree(s) {
      forall u ensures t in IDs(s.users, u) <==> s.tokens[t].userID == u { }
    }
  }

  /** The operation neither takes the entry out before its time nor puts another in its place: no store of its ID, no
      revocation of it or of its user's tokens, and no cleanup later than the given time. */
  predicate Leaves(op: Op, e: Entry, later: int) {
    match op
    case Put(other) => other.tokenID != e.tokenID
    case Remove(tid) => tid != e.tokenID
    case RemoveAll(user) => user != e.userID
    case Clean(now) => now <= later
  }

  predicate StillHas(s: Tables, e: Entry, later: int) {
    if e.tokenID in s.tokens then s.tokens[e.tokenID] == e else later > e.expiresAt
  }

  lemma StillHasStep(s: Tables, op: Op, e: Entry, later: int)
    requires Agree(s) && StillHas(s, e, later) && Leaves(op, e, later)
    ensures StillHas(Apply(s, op), e, later)
  {
    if op.RemoveAll? { RevokeAllIsExact(s, op.user); }
  }

  lemma {:induction false} StillHasRun(s: Tables, ops: seq<Op>, e: Entry, later: int)
    requires Agree(s) && AllFit(s, ops) && StillHas(s, e, later)
    requires forall i :: 0 <= i < |ops| ==> Leaves(ops[i], e, later)
    ensures StillHas(ApplyAll(s, ops), e, later) && Agree(ApplyAll(s, ops))
  {
    hide Apply, Agree, Fits, StillHas, Leaves;
    if ops == [] {
    } else {
      var p, op := ops[..|ops| - 1], ops[|ops| - 1];
      StillHasRun(s, p, e, later);
      StillHasStep(ApplyAll(s, p), op, e, later);
      ApplyKeepsAgreement(ApplyAll(s, p), op);
    }
  }

  /** An entry stored is what every Retrieve gives, and is listed for its user, through its ExpiresAt and never after,
      until it is overwritten or revoked or its user's tokens are, whatever else the store does. */
  lemma {:induction false} StoredIsServed(s: Tables, e: Entry, ops: seq<Op>, later: int)
    requires Agree(s) && Fits(s, Put(e)) && AllFit(StoreEntry(s, e), ops)
    requires forall i :: 0 <= i < |ops| ==> Leaves(ops[i], e, later)
    ensures
      var t := ApplyAll(StoreEntry(s, e), ops);
      && Retrieve(t, e.tokenID, later) == (if later <= e.expiresAt then Some(e) else None)
      && (e.tokenID in Listed(t, e.userID, later) <==> later <= e.expiresAt)
  {
    hide Agree, ApplyAll, AllFit, Listed, Fits;
    StoreKeepsAgreementIff(s, e);
    StillHasRun(StoreEntry(s, e), ops, e, later);
    var t := ApplyAll(StoreEntry(s, e), ops);
    if e.tokenID in t.tokens {
      GoodThroughExpiresAt(t, e.tokenID, later);
    } else {
      UnknownIsUnlisted(t, e.tokenID, e.userID, later);
    }
  }

  lemma UnknownIsUnlisted(s: Tables, t: string, user: string, now: int)
    requires t !in s.tokens
    ensures t !in Listed(s, user, now)
  {
  }

  /** A token that is not in the store is not until an entry is stored under its ID. */
  lemma {:induction false} RevokedStaysRevoked(s: Tables, ops: seq<Op>, t: string)
    requires t !in s.tokens && forall i :: 0 <= i < |ops| ==> !(ops[i].Put? && ops[i].entry.tokenID == t)
    ensures t !in ApplyAll(s, ops).tokens && forall now :: Retrieve(ApplyAll(s, ops), t, now) == None
  {
    if ops == [] {
    } else {
      RevokedStaysRevoked(s, ops[..|ops| - 1], t);
    }
  }

  /** Count is the number of the user's tokens in the store. */
  lemma CountCounts(s: Tables, user: string)
    requires Agree(s)
    ensures Count(s, user) == |set t | t in s.tokens && s.tokens[t].userID == user|
  {
    forall t ensures t in IDs(s.users, user) <==> t in s.tokens && s.tokens[t].userID == user { }
    assert IDs(s.users, user) == set t | t in s.tokens && s.tokens[t].userID == user;
  }
}

/** The store as the source keeps it: two maps changed in place under one lock. */
module MemoryStore {
  import opened Options
  import opened RefreshStore

  class MemoryRefreshTokenStore {
    var tokens: map<string, Entry>
    var users: map<string, set<string>>
    ghost var hist: seq<Op>

    ghost function View(): Tables
      reads this`tokens, this`users
    {
      Tables(tokens, users)
    }

    /** The two maps are the run of the calls made so far. */
    ghost predicate Valid()
      reads this
    {
      View() == ApplyAll(EMPTY, hist)
    }

    /** What holds of the two maps: keys and entries agree, and so do the maps if no call took another user's ID. */
    lemma Consistent()
      requires Valid()
      ensures Keyed(View()) && (AllFit(EMPTY, hist) ==> Agree(View()))
    {
      RunsKeepKeys(EMPTY, hist);
      if AllFit(EMPTY, hist) { RunsKeepAgreement(EMPTY, hist); }
    }

    constructor ()
      ensures Valid() && hist == [] && View() == EMPTY
    {
      tokens := map[];
      users := map[];
      hist := [];
    }

    method Store(entry: Entry)
      requires Valid()
      modifies this
      ensures Valid() && hist == old(hist) + [Put(entry)]
      ensures View() == StoreEntry(old(View()), entry)
      ensures tokens == old(tokens)[entry.tokenID := entry]
    {
      hide ApplyAll;
      ApplySnoc(EMPTY, hist, Put(entry));
      hist := hist + [Put(entry)];
      tokens := tokens[entry.tokenID := entry];
      if entry.userID !in users {
        users := users[entry.userID := {}];
      }
      users := users[entry.userID := users[entry.userID] + {entry.tokenID}];
    }

    method Retrieve(tokenID: string, now: int) returns (r: Option<Entry>)
      ensures r == RefreshStore.Retrieve(View(), tokenID, now)
      ensures r == if tokenID in tokens && now <= tokens[tokenID].expiresAt then Some(tokens[tokenID]) else None
    {
      if tokenID !in tokens {
        return None;
      }
      if Expired(tokens[tokenID], now) {
        return None;
      }
      return Some(tokens[tokenID]);
    }

    method Revoke(tokenID: string)
      requires Valid()
      modifies this
      ensures Valid() && hist == old(hist) + [Remove(tokenID)]
      ensures View() == RefreshStore.Revoke(old(View()), tokenID)
    {
      hide ApplyAll;
      ApplySnoc(EMPTY, hist, Remove(tokenID));
      hist := hist + [Remove(tokenID)];
      if tokenID !in tokens {
        return;
      }
      var entry := tokens[tokenID];
      tokens := tokens - {tokenID};
      if entry.userID in users {
        users := users[entry.userID := users[entry.userID] - {tokenID}];
      }
    }

    method RevokeAllForUser(userID: string)
      requires Valid()
      modifies this
      ensures Valid() && hist == old(hist) + [RemoveAll(userID)]
      ensures View() == RevokeAll(old(View()), userID)
    {
      hide ApplyAll;
      ApplySnoc(EMPTY, hist, RemoveAll(userID));
      hist := hist + [RemoveAll(userID)];
      if userID in users {
        var left := users[userID];
        while left != {}
          invariant users == old(users) && left <= users[userID] && hist == old(hist) + [RemoveAll(userID)]
          invariant tokens == old(tokens) - (users[userID] - left)
          decreases |left|
        {
          var tid :| tid in left;
          left := left - {tid};
          tokens := tokens - {tid};
        }
        users := users - {userID};
      }
    }

    method Count(userID: string) returns (n: nat)
      ensures n == RefreshStore.Count(View(), userID)
    {
      n := |IDs(users, userID)|;
    }

    /** Each listed token's entry once, in some order. */
    method ListForUser(userID: string, now: int) returns (entries: seq<Entry>)
      requires Valid()
      ensures |entries| == |Listed(View(), userID, now)|
      ensures forall t :: t in Listed(View(), userID, now) ==> tokens[t] in entries
      ensures forall e :: e in entries ==> e.tokenID in Listed(View(), userID, now) && e == tokens[e.tokenID]
      ensures forall e :: e in entries ==> now <= e.expiresAt
    {
      hide Listed, Keyed, IDs, ApplyAll;
      Consistent();
      entries := [];
      var left := IDs(users, userID);
      ghost var done := {};
      while left != {}
        invariant left <= IDs(users, userID)
        invariant forall t :: t in done <==> t in IDs(users, userID) && t !in left && Reported(View(), t, now)
        invariant |entries| == |done|
        invariant forall t :: t in done ==> tokens[t] in entries
        invariant forall e :: e in entries ==> e.tokenID in done && e == tokens[e.tokenID] && now <= e.expiresAt
        decreases |left|
      {
        var tid :| tid in left;
        left := left - {tid};
        if tid in tokens && !Expired(tokens[tid], now) {
          KeyOf(View(), tid);
          entries := Appended(entries, tokens[tid]);
          done := done + {tid};
        }
      }
      ListedAre(View(), userID, now, done);
    }

    method Cleanup(now: int)
      requires Valid()
      modifies this
      ensures Valid() && hist == old(hist) + [Clean(now)]
      ensures View() == Sweep(old(View()), now)
      ensures tokens == map t | t in old(tokens) && now <= old(tokens)[t].expiresAt :: old(tokens)[t]
    {
      hide Sweep, ApplyAll;
      SweptTokens(View(), now);
      ApplySnoc(EMPTY, hist, Clean(now));
      hist := hist + [Clean(now)];
      DropExpired(now);
    }

    /** cleanup's loop, which deletes while it goes over the tokens, in whatever order. */
    method DropExpired(now: int)
      modifies this`tokens, this`users
      ensures View() == Sweep(old(View()), now)
    {
      hide Without, RefreshStore.Revoke;
      var left := tokens.Keys;
      ghost var was, gone := View(), {};
      NoneGone(was);
      while left != {}
        invariant left <= tokens.Keys && left <= was.tokens.Keys
        invariant gone == ExpiredIDs(was, now) - left
        invariant View() == Without(was, gone)
        decreases |left|
      {
        var tid :| tid in left;
        left := left - {tid};
        Kept(was, gone, tid);
        if Expired(tokens[tid], now) {
          Delete(tid);
          OneMoreGone(was, gone, tid);
          gone := gone + {tid};
        }
        StillThere(was, gone, left);
      }
      assert gone == ExpiredIDs(was, now);
    }

    /** The two deletions of an expired entry. */
    method Delete(tid: string)
      requires tid in tokens
      modifies this`tokens, this`users
      ensures View() == RefreshStore.Revoke(old(View()), tid)
    {
      var entry := tokens[tid];
      tokens := tokens - {tid};
      if entry.userID in users {
        users := users[entry.userID := users[entry.userID] - {tid}];
      }
    }
  }

  lemma SweptTokens(s: Tables, now: int)
    ensures Sweep(s, now).tokens == map t | t in s.tokens && now <= s.tokens[t].expiresAt :: s.tokens[t]
  {
  }

  predicate Reported(s: Tables, t: string, now: int) {
    t in s.tokens && !Expired(s.tokens[t], now)
  }

  lemma ListedAre(s: Tables, user: string, now: int, ids: set<string>)
    requires forall t :: t in ids <==> t in IDs(s.users, user) && Reported(s, t, now)
    ensures ids == Listed(s, user, now)
  {
  }

  lemma KeyOf(s: Tables, t: string)
    requires Keyed(s) && t in s.tokens
    ensures s.tokens[t].tokenID == t
  {
  }

  function Appended(s: seq<Entry>, x: Entry): (r: seq<Entry>)
    ensures |r| == |s| + 1 && forall y :: y in r <==> y in s || y == x
  {
    s + [x]
  }

  lemma NoneGone(s: Tables)
    ensures Without(s, {}) == s
  {
    forall u | u in s.users ensures Without(s, {}).users[u] == s.users[u] {
    }
    assert Without(s, {}).users == s.users;
    assert Without(s, {}).tokens == s.tokens;
  }

  lemma Kept(s: Tables, gone: set<string>, t: string)
    requires t in Without(s, gone).tokens
    ensures t in s.tokens && t !in gone && Without(s, gone).tokens[t] == s.tokens[t]
  {
  }

  lemma StillThere(s: Tables, gone: set<string>, left: set<string>)
    requires left <= s.tokens.Keys && left !! gone
    ensures left <= Without(s, gone).tokens.Keys
  {
  }

  lemma OneMoreGone(s: Tables, gone: set<string>, tid: string)
    requires gone <= s.tokens.Keys && tid in s.tokens && tid !in gone
    ensures RefreshStore.Revoke(Without(s, gone), tid) == Without(s, gone + {tid})
  {
    var a, b := RefreshStore.Revoke(Without(s, gone), tid), Without(s, gone + {tid});
    assert a.tokens == b.tokens;
    assert a.users.Keys == b.users.Keys;
    forall u | u in a.users ensures a.users[u] == b.users[u] {
    }
  }
}
