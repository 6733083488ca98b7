/** The two per-IP limiters: the one for two-factor attempts (internal/api/twofa.go), which counts every attempt, and
    the one for registrations (internal/api/auth.go), which counts admitted ones. They count in windows that open
    with an attempt and stay open through their last instant. */
module RateLimiting {
  datatype Window = Window(count: int, expireAt: int)

  type Table = map<string, Window>

  datatype Event = Attempt(ip: string, now: int) | Cleanup(now: int)

  predicate Open(m: Table, ip: string, now: int) {
    ip in m && now <= m[ip].expireAt
  }

  function ExpiredKeys(m: Table, now: int): set<string> {
    set ip | ip in m && now > m[ip].expireAt
  }

  predicate TwoFAAllows(max: int, m: Table, ip: string, now: int) {
    !Open(m, ip, now) || m[ip].count + 1 <= max
  }

  function TwoFAStep(length: int, m: Table, e: Event): Table {
    match e
    case Attempt(ip, now) =>
      m[ip := if Open(m, ip, now) then m[ip].(count := m[ip].count + 1) else Window(1, now + length)]
    case Cleanup(now) => m - ExpiredKeys(m, now)
  }

  function TwoFARemaining(max: int, m: Table, ip: string, now: int): int {
    if !Open(m, ip, now) then max else if max - m[ip].count < 0 then 0 else max - m[ip].count
  }

  predicate RegisterAllows(max: int, m: Table, ip: string, now: int) {
    !Open(m, ip, now) || m[ip].count < max
  }

  /** There is no cleanup of registrations. */
  function RegisterStep(max: int, length: int, m: Table, e: Event): Table {
    match e
    case Attempt(ip, now) =>
      if !Open(m, ip, now) then m[ip := Window(1, now + length)]
      else if m[ip].count >= max then m
      else m[ip := m[ip].(count := m[ip].count + 1)]
    case Cleanup(_) => m
  }

  function RegisterRemaining(max: int, m: Table, ip: string, now: int): int {
    if !Open(m, ip, now) then max else max - m[ip].count
  }

  function TwoFARun(length: int, es: seq<Event>): Table {
    if es == [] then map[] else TwoFAStep(length, TwoFARun(length, es[..|es| - 1]), es[|es| - 1])
  }

  function RegisterRun(max: int, length: int, es: seq<Event>): Table {
    if es == [] then map[] else RegisterStep(max, length, RegisterRun(max, length, es[..|es| - 1]), es[|es| - 1])
  }

  /** The clock does not go back, and has not passed now. */
  predicate Clocked(es: seq<Event>, now: int) {
    es == [] || (es[|es| - 1].now <= now && Clocked(es[..|es| - 1], es[|es| - 1].now))
  }

  // ----- the two limiters behave alike -----

  /** What can be counted in one window: the attempt that opens it is always admitted. */
  function Cap(max: int): int {
    if max < 1 then 1 else max
  }

  /** The register limiter stops counting where the other goes on; only expired windows may be missing. */
  predicate Simulates(max: int, a: Table, b: Table, ip: string, now: int) {
    && (ip in a ==>
          && ip in b && a[ip].expireAt == b[ip].expireAt && a[ip].count >= 1
          && b[ip].count == if a[ip].count < Cap(max) then a[ip].count else Cap(max))
    && (ip !in a && ip in b ==> now > b[ip].expireAt)
  }

  lemma SimulatesStep(max: int, length: int, a: Table, b: Table, e: Event, ip: string, now: int)
    requires Simulates(max, a, b, ip, now) && now <= e.now
    ensures Simulates(max, TwoFAStep(length, a, e), RegisterStep(max, length, b, e), ip, e.now)
  {
  }

  lemma {:induction false} RunsSimulate(max: int, length: int, es: seq<Event>, ip: string, now: int)
    requires Clocked(es, now)
    ensures Simulates(max, TwoFARun(length, es), RegisterRun(max, length, es), ip, now)
  {
    hide TwoFAStep, RegisterStep;
    if es == [] {
    } else {
      var p, e := es[..|es| - 1], es[|es| - 1];
      RunsSimulate(max, length, p, ip, e.now);
      SimulatesStep(max, length, TwoFARun(length, p), RegisterRun(max, length, p), e, ip, e.now);
    }
  }

  /** After any run both limiters give the same answer, cleanups or not, whatever the maximum. */
  lemma AllowsAlike(max: int, length: int, es: seq<Event>, ip: string, now: int)
    requires Clocked(es, now)
    ensures TwoFAAllows(max, TwoFARun(length, es), ip, now)
       <==> RegisterAllows(max, RegisterRun(max, length, es), ip, now)
  {
    RunsSimulate(max, length, es, ip, now);
  }

  /** After any run the remaining attempts are the same exactly when the maximum is positive or no window is open. */
  lemma RemainingAlikeIff(max: int, length: int, es: seq<Event>, ip: string, now: int)
    requires Clocked(es, now)
    ensures TwoFARemaining(max, TwoFARun(length, es), ip, now)
              == RegisterRemaining(max, RegisterRun(max, length, es), ip, now)
       <==> max >= 1 || !Open(TwoFARun(length, es), ip, now)
  {
    RunsSimulate(max, length, es, ip, now);
  }

  /** So they are the same on all runs exactly for positive maxima, unless windows have negative length. */
  lemma RemainingAlikeOnAllRunsIff(max: int, length: int)
    ensures (forall es, ip, now :: Clocked(es, now) ==>
               TwoFARemaining(max, TwoFARun(length, es), ip, now)
               == RegisterRemaining(max, RegisterRun(max, length, es), ip, now))
       <==> max >= 1 || length < 0
  {
    if max >= 1 || length < 0 {
      forall es, ip, now | Clocked(es, now)
        ensures TwoFARemaining(max, TwoFARun(length, es), ip, now)
             == RegisterRemaining(max, RegisterRun(max, length, es), ip, now)
      {
        RemainingAlikeIff(max, length, es, ip, now);
        if length < 0 { NeverOpen(length, es, ip, now); }
      }
    } else {
      var es := [Attempt("", 0)];
      assert es[..0] == [];
      assert Clocked(es, 0) && Open(TwoFARun(length, es), "", 0);
      RemainingAlikeIff(max, length, es, "", 0);
    }
  }

  lemma {:induction false} NeverOpen(length: int, es: seq<Event>, ip: string, now: int)
    requires Clocked(es, now) && length < 0
    ensures !Open(TwoFARun(length, es), ip, now)
  {
    if es == [] {
    } else {
      var p, e := es[..|es| - 1], es[|es| - 1];
      NeverOpen(length, p, ip, e.now);
    }
  }

  // ----- cleanup is invisible -----

  function WithoutCleanups(es: seq<Event>): seq<Event> {
    if es == [] then [] else WithoutCleanups(es[..|es| - 1]) + if es[|es| - 1].Cleanup? then [] else [es[|es| - 1]]
  }

  predicate SameOpen(a: Table, b: Table, ip: string, now: int) {
    if ip in a then ip in b && a[ip] == b[ip] else ip in b ==> now > b[ip].expireAt
  }

  lemma SameOpenStep(length: int, a: Table, b: Table, e: Event, ip: string, now: int)
    requires SameOpen(a, b, ip, now) && now <= e.now
    ensures SameOpen(TwoFAStep(length, a, e), if e.Cleanup? then b else TwoFAStep(length, b, e), ip, e.now)
  {
  }

  lemma RunSnoc(length: int, es: seq<Event>, e: Event)
    ensures TwoFARun(length, es + [e]) == TwoFAStep(length, TwoFARun(length, es), e)
  {
    assert (es + [e])[..|es + [e]| - 1] == es;
  }

  lemma {:induction false} SameOpenRun(length: int, es: seq<Event>, ip: string, now: int)
    requires Clocked(es, now)
    ensures SameOpen(TwoFARun(length, es), TwoFARun(length, WithoutCleanups(es)), ip, now)
  {
    hide TwoFAStep;
    if es == [] {
    } else {
      var p, e := es[..|es| - 1], es[|es| - 1];
      SameOpenRun(length, p, ip, e.now);
      SameOpenStep(length, TwoFARun(length, p), TwoFARun(length, WithoutCleanups(p)), e, ip, e.now);
      RunSnoc(length, WithoutCleanups(p), e);
      assert e.Cleanup? ==> WithoutCleanups(es) == WithoutCleanups(p);
    }
  }

  /** Leaving out every cleanup changes no answer. */
  lemma CleanupIsInvisible(max: int, length: int, es: seq<Event>, ip: string, now: int)
    requires Clocked(es, now)
    ensures TwoFAAllows(max, TwoFARun(length, es), ip, now)
       <==> TwoFAAllows(max, TwoFARun(length, WithoutCleanups(es)), ip, now)
    ensures TwoFARemaining(max, TwoFARun(length, es), ip, now)
         == TwoFARemaining(max, TwoFARun(length, WithoutCleanups(es)), ip, now)
  {
    SameOpenRun(length, es, ip, now);
  }

  // ----- how many attempts an interval can admit -----

  /** The attempts of an IP admitted between two instants, both included. */
  function Admitted(max: int, length: int, es: seq<Event>, ip: string, from: int, to: int): nat {
    if es == [] then 0
    else
      var p, e := es[..|es| - 1], es[|es| - 1];
      Admitted(max, length, p, ip, from, to)
      + if e.Attempt? && e.ip == ip && from <= e.now <= to && TwoFAAllows(max, TwoFARun(length, p), ip, e.now)
        then 1 else 0
  }

  /** With the window now open having begun before the interval, its opening is not in the interval; with one begun
      within it, the interval had at most all but the opening of the one before. */
  predicate Bounded(max: int, length: int, b: Table, ip: string, now: int, from: int, admitted: int) {
    && (ip in b ==> 1 <= b[ip].count <= Cap(max) && b[ip].expireAt <= now + length)
    && (now < from || ip !in b ==> admitted == 0)
    && (ip in b ==>
          var began := b[ip].expireAt - length;
          if began < from then admitted <= b[ip].count - 1
          else if began <= from + length then admitted <= Cap(max) - 1 + b[ip].count
          else admitted <= 2 * Cap(max) - 1)
  }

  lemma BoundedStep(max: int, length: int, b: Table, e: Event, ip: string, now: int, from: int, admitted: int)
    requires length >= 0 && now <= e.now && Bounded(max, length, b, ip, now, from, admitted)
    ensures
      var hit := e.Attempt? && e.ip == ip && from <= e.now <= from + length && RegisterAllows(max, b, ip, e.now);
      var more := if hit then 1 else 0;
      Bounded(max, length, RegisterStep(max, length, b, e), ip, e.now, from, admitted + more)
  {
  }

  lemma {:induction false} RunsStayBounded(max: int, length: int, es: seq<Event>, ip: string, now: int, from: int)
    requires length >= 0 && Clocked(es, now)
    ensures es == [] ==> Admitted(max, length, es, ip, from, from + length) == 0
    ensures es != [] ==> Bounded(max, length, RegisterRun(max, length, es), ip, es[|es| - 1].now, from,
                                 Admitted(max, length, es, ip, from, from + length))
  {
    hide Bounded, RegisterStep, TwoFAAllows, RegisterAllows;
    if es == [] {
    } else {
      var p, e := es[..|es| - 1], es[|es| - 1];
      RunsStayBounded(max, length, p, ip, e.now, from);
      AllowsAlike(max, length, p, ip, e.now);
      var last := if p == [] then e.now else p[|p| - 1].now;
      if p == [] { BoundedAtFirst(max, length, ip, e.now, from); }
      BoundedStep(max, length, RegisterRun(max, length, p), e, ip, last, from,
                  Admitted(max, length, p, ip, from, from + length));
    }
  }

  lemma BoundedAtFirst(max: int, length: int, ip: string, now: int, from: int)
    ensures Bounded(max, length, map[], ip, now, from, 0)
  {
  }

  /** No interval as long as a window, wherever it begins, admits 2 * max attempts of one IP. */
  lemma IntervalAdmitsLessThanTwice(max: int, length: int, es: seq<Event>, ip: string, now: int, from: int)
    requires length >= 0 && Clocked(es, now)
    ensures Admitted(max, length, es, ip, from, from + length) <= 2 * Cap(max) - 1
  {
    RunsStayBounded(max, length, es, ip, now, from);
  }

  lemma AdmittedSnoc(max: int, length: int, es: seq<Event>, e: Event, ip: string, from: int, to: int)
    ensures Admitted(max, length, es + [e], ip, from, to) == Admitted(max, length, es, ip, from, to)
      + if e.Attempt? && e.ip == ip && from <= e.now <= to && TwoFAAllows(max, TwoFARun(length, es), ip, e.now)
        then 1 else 0
    ensures forall now :: now >= e.now && Clocked(es, e.now) ==> Clocked(es + [e], now)
  {
    assert (es + [e])[..|es + [e]| - 1] == es;
  }

  /** More attempts in an open window are all admitted while they last. */
  lemma {:induction false} FillWindow(max: int, length: int, es: seq<Event>, ip: string, now: int, k: nat,
                                      to: int, from: int)
    returns (more: seq<Event>)
    requires Clocked(es, now) && Open(TwoFARun(length, es), ip, now) && from <= now <= to
    requires TwoFARun(length, es)[ip].count + k <= max
    ensures Clocked(more, now) && ip in TwoFARun(length, more) && es <= more && |more| == |es| + k
    ensures forall i :: |es| <= i < |more| ==> more[i] == Attempt(ip, now)
    ensures TwoFARun(length, more)[ip] == TwoFARun(length, es)[ip].(count := TwoFARun(length, es)[ip].count + k)
    ensures Admitted(max, length, more, ip, from, to) == Admitted(max, length, es, ip, from, to) + k
    decreases k
  {
    hide Admitted, TwoFARun, Clocked;
    more := es;
    if k == 0 {
    } else {
      AdmittedSnoc(max, length, es, Attempt(ip, now), ip, from, to);
      RunSnoc(length, es, Attempt(ip, now));
      more := FillWindow(max, length, es + [Attempt(ip, now)], ip, now, k - 1, to, from);
    }
  }

  /** The remaining attempts are those that would be admitted now: that many more all are, and then none is. */
  lemma {:induction false} RemainingAreAdmitted(max: int, length: int, es: seq<Event>, ip: string, now: int)
    returns (more: seq<Event>)
    requires Clocked(es, now) && max >= 1 && length >= 0
    ensures
      var n := TwoFARemaining(max, TwoFARun(length, es), ip, now);
      && es <= more && |more| == |es| + n && (forall i :: |es| <= i < |more| ==> more[i] == Attempt(ip, now))
      && Clocked(more, now)
      && Admitted(max, length, more, ip, now, now) == Admitted(max, length, es, ip, now, now) + n
      && !TwoFAAllows(max, TwoFARun(length, more), ip, now)
  {
    RunsSimulate(max, length, es, ip, now);
    hide Admitted, TwoFARun, Clocked;
    var m := TwoFARun(length, es);
    if TwoFARemaining(max, m, ip, now) == 0 {
      more := es;
    } else if Open(m, ip, now) {
      more := FillWindow(max, length, es, ip, now, TwoFARemaining(max, m, ip, now), now, now);
    } else {
      AdmittedSnoc(max, length, es, Attempt(ip, now), ip, now, now);
      RunSnoc(length, es, Attempt(ip, now));
      more := FillWindow(max, length, es + [Attempt(ip, now)], ip, now, max - 1, now, now);
    }
  }

  /** The bound is reached, for every positive maximum: one attempt opens a window, the others come at its last
      instant, and a full window follows. */
  lemma BoundIsReached(max: int, length: int, ip: string) returns (es: seq<Event>)
    requires max >= 1 && length >= 1
    ensures Clocked(es, length + 1) && Admitted(max, length, es, ip, length, length + length) == 2 * max - 1
  {
    hide Admitted, TwoFARun, Clocked;
    es := [];
    EmptyRun(max, length, ip);
    AdmittedSnoc(max, length, es, Attempt(ip, 0), ip, length, length + length);
    RunSnoc(length, es, Attempt(ip, 0));
    es := es + [Attempt(ip, 0)];
    es := FillWindow(max, length, es, ip, length, max - 1, length + length, length);
    var e := Attempt(ip, length + 1);
    ClockedLater(es, length, length + 1);
    AdmittedSnoc(max, length, es, e, ip, length, length + length);
    RunSnoc(length, es, e);
    es := FillWindow(max, length, es + [e], ip, length + 1, max - 1, length + length, length);
  }

  lemma EmptyRun(max: int, length: int, ip: string)
    ensures Clocked([], 0) && TwoFARun(length, []) == map[]
    ensures Admitted(max, length, [], ip, length, length + length) == 0
  {
  }

  lemma ClockedLater(es: seq<Event>, now: int, later: int)
    requires Clocked(es, now) && now <= later
    ensures Clocked(es, later)
  {
  }
}

/** The two limiters as the source keeps them: a map from IPs to entries whose count goes up in place. */
module Limiters {
  import opened RateLimiting

  class Entry {
    var count: int
    const expireAt: int

    constructor (count: int, expireAt: int)
      ensures this.count == count && this.expireAt == expireAt
    {
      this.count := count;
      this.expireAt := expireAt;
    }
  }

  /** No two IPs share an entry. */
  ghost predicate Separate(attempts: map<string, Entry>) {
    forall a, b :: a in attempts && b in attempts && attempts[a] == attempts[b] ==> a == b
  }

  ghost function TableOf(attempts: map<string, Entry>): Table
    reads attempts.Values
  {
    map ip | ip in attempts :: Window(attempts[ip].count, attempts[ip].expireAt)
  }

  class TwoFARateLimiter {
    const maxAttempts: int
    const window: int
    var attempts: map<string, Entry>
    ghost var hist: seq<Event>

    ghost predicate Valid()
      reads this, attempts.Values
    {
      Separate(attempts) && TableOf(attempts) == TwoFARun(window, hist)
    }

    constructor (maxAttempts: int, window: int)
      ensures Valid() && hist == [] && this.maxAttempts == maxAttempts && this.window == window
    {
      this.maxAttempts, this.window := maxAttempts, window;
      attempts := map[];
      hist := [];
    }

    method Allow(ip: string, now: int) returns (ok: bool)
      requires Valid()
      modifies this`attempts, this`hist, attempts.Values
      ensures Valid() && hist == old(hist) + [Attempt(ip, now)]
      ensures ok == TwoFAAllows(maxAttempts, TwoFARun(window, old(hist)), ip, now)
    {
      hide TwoFARun, TableOf, Separate;
      Tables(attempts);
      RunSnoc(window, hist, Attempt(ip, now));
      hist := hist + [Attempt(ip, now)];
      if ip !in attempts || now > attempts[ip].expireAt {
        var e := new Entry(1, now + window);
        NewEntry(attempts, ip, e);
        attempts := attempts[ip := e];
        return true;
      }
      var a := attempts[ip];
      SeparateAt(attempts, ip);
      a.count := a.count + 1;
      CountedOnly(attempts, ip, old(TableOf(attempts)));
      return a.count <= maxAttempts;
    }

    method Remaining(ip: string, now: int) returns (n: int)
      requires Valid()
      ensures n == TwoFARemaining(maxAttempts, TwoFARun(window, hist), ip, now)
    {
      if ip !in attempts || now > attempts[ip].expireAt {
        return maxAttempts;
      }
      var remaining := maxAttempts - attempts[ip].count;
      if remaining < 0 {
        return 0;
      }
      return remaining;
    }

    method Cleanup(now: int)
      requires Valid()
      modifies this`attempts, this`hist
      ensures Valid() && hist == old(hist) + [RateLimiting.Cleanup(now)]
      ensures forall ip :: ip in attempts <==> ip in old(attempts) && now <= old(attempts)[ip].expireAt
    {
      hide TwoFARun, TwoFAStep, TableOf, Separate, Partly, DropOne;
      var left := attempts.Keys;
      ghost var was := TableOf(attempts);
      Tables(attempts);
      PartlyEnds(window, was, now);
      while left != {}
        invariant left <= was.Keys && hist == old(hist)
        invariant Separate(attempts) && TableOf(attempts) == Partly(was, left, now)
        decreases |left|
      {
        var ip :| ip in left;
        PartlyStep(was, left, ip, now);
        Tables(attempts);
        left := left - {ip};
        DropIfExpired(ip, now);
      }
      RunSnoc(window, hist, RateLimiting.Cleanup(now));
      hist := hist + [RateLimiting.Cleanup(now)];
      PartlyHolds(was, now);
      Tables(attempts);
    }

    method DropIfExpired(ip: string, now: int)
      requires ip in attempts && Separate(attempts)
      modifies this`attempts
      ensures Separate(attempts) && TableOf(attempts) == DropOne(old(TableOf(attempts)), ip, now)
    {
      hide Separate;
      OneLess(attempts, ip);
      if now > attempts[ip].expireAt {
        attempts := attempts - {ip};
      }
    }
  }

  ghost function DropOne(m: Table, ip: string, now: int): Table {
    if ip in m && now > m[ip].expireAt then m - {ip} else m
  }

  /** The table when only the IPs in left are still to be looked at. */
  ghost function Partly(m: Table, left: set<string>, now: int): Table {
    map ip | ip in m && (ip in left || now <= m[ip].expireAt) :: m[ip]
  }

  lemma PartlyEnds(window: int, m: Table, now: int)
    ensures Partly(m, m.Keys, now) == m
    ensures Partly(m, {}, now) == TwoFAStep(window, m, RateLimiting.Cleanup(now))
  {
  }

  lemma PartlyHolds(m: Table, now: int)
    ensures forall ip :: ip in Partly(m, {}, now) <==> ip in m && now <= m[ip].expireAt
  {
  }

  lemma PartlyStep(m: Table, left: set<string>, ip: string, now: int)
    requires left <= m.Keys && ip in left
    ensures ip in Partly(m, left, now) && DropOne(Partly(m, left, now), ip, now) == Partly(m, left - {ip}, now)
  {
  }

  lemma Tables(attempts: map<string, Entry>)
    ensures TableOf(attempts).Keys == attempts.Keys
    ensures forall ip :: ip in attempts ==> TableOf(attempts)[ip] == Window(attempts[ip].count, attempts[ip].expireAt)
  {
  }

  lemma OneLess(attempts: map<string, Entry>, ip: string)
    ensures TableOf(attempts - {ip}) == TableOf(attempts) - {ip}
    ensures Separate(attempts) ==> Separate(attempts - {ip})
  {
  }

  lemma SeparateAt(attempts: map<string, Entry>, ip: string)
    requires Separate(attempts) && ip in attempts
    ensures forall k :: k in attempts && k != ip ==> attempts[k] != attempts[ip]
  {
  }

  /** An attempt that opens a window puts a new entry in. */
  lemma NewEntry(attempts: map<string, Entry>, ip: string, e: Entry)
    requires e !in attempts.Values
    ensures TableOf(attempts[ip := e]) == TableOf(attempts)[ip := Window(e.count, e.expireAt)]
    ensures Separate(attempts) ==> Separate(attempts[ip := e])
  {
  }

  /** One that is counted changes the entry it finds. */
  lemma CountedOnly(attempts: map<string, Entry>, ip: string, was: Table)
    requires ip in attempts && was.Keys == attempts.Keys
    requires forall k :: k in attempts && k != ip ==> was[k] == Window(attempts[k].count, attempts[k].expireAt)
    ensures TableOf(attempts) == was[ip := Window(attempts[ip].count, attempts[ip].expireAt)]
  {
  }

  class RegisterRateLimiter {
    const max: int
    const window: int
    var attempts: map<string, Entry>
    ghost var hist: seq<Event>

    ghost predicate Valid()
      reads this, attempts.Values
    {
      Separate(attempts) && TableOf(attempts) == RegisterRun(max, window, hist)
    }

    constructor (max: int, window: int)
      ensures Valid() && hist == [] && this.max == max && this.window == window
    {
      this.max, this.window := max, window;
      attempts := map[];
      hist := [];
    }

    method Allow(ip: string, now: int) returns (ok: bool)
      requires Valid()
      modifies this`attempts, this`hist, attempts.Values
      ensures Valid() && hist == old(hist) + [Attempt(ip, now)]
      ensures ok == RegisterAllows(max, RegisterRun(max, window, old(hist)), ip, now)
    {
      hide RegisterRun, TableOf, Separate;
      Tables(attempts);
      RegisterRunSnoc(max, window, hist, Attempt(ip, now));
      hist := hist + [Attempt(ip, now)];
      if ip !in attempts || now > attempts[ip].expireAt {
        var e := new Entry(1, now + window);
        NewEntry(attempts, ip, e);
        attempts := attempts[ip := e];
        return true;
      }
      var entry := attempts[ip];
      if entry.count >= max {
        return false;
      }
      SeparateAt(attempts, ip);
      entry.count := entry.count + 1;
      CountedOnly(attempts, ip, old(TableOf(attempts)));
      return true;
    }

    method Remaining(ip: string, now: int) returns (n: int)
      requires Valid()
      ensures n == RegisterRemaining(max, RegisterRun(max, window, hist), ip, now)
    {
      if ip !in attempts || now > attempts[ip].expireAt {
        return max;
      }
      return max - attempts[ip].count;
    }
  }

  lemma RegisterRunSnoc(max: int, length: int, es: seq<Event>, e: Event)
    ensures RegisterRun(max, length, es + [e]) == RegisterStep(max, length, RegisterRun(max, length, es), e)
  {
    assert (es + [e])[..|es + [e]| - 1] == es;
  }
}
