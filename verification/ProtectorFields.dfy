/** What the protector does, written out in the fields of its configuration and the events of the run
    (internal/bruteforce/protector.go): who is locked, until when, and which failures are on record. */
module ProtectorFields {
  import opened BruteForce
  import opened BruteForceRuns
  import opened Options
  import opened ProtectorLimits

  // ----- what is on record -----

  /** The recent attempts are those after the cutoff, each as often as it was made. */
  lemma {:induction false} RecentAreAfterTheCutoff(s: seq<AttemptRecord>, w: int, now: int, x: AttemptRecord)
    ensures multiset(Recent(s, w, now))[x] == if x.time > now - w then multiset(s)[x] else 0
  {
    if s == [] {
    } else {
      var p := s[..|s| - 1];
      RecentAreAfterTheCutoff(p, w, now, x);
      assert s == p + [s[|s| - 1]];
    }
  }

  /** A user's record is a failure of that user, with the IP, error and time it was recorded with. */
  lemma {:induction false} UserLogIsOfFailures(cfg: Config, es: seq<Event>, user: string, rec: AttemptRecord)
    requires rec in UserLog(cfg, es, user)
    ensures Failure(user, rec.ip, rec.error, rec.time) in es
  {
    if es == [] {
    } else {
      var p, e := es[..|es| - 1], es[|es| - 1];
      assert es == p + [e];
      if rec in UserLog(cfg, p, user) { UserLogIsOfFailures(cfg, p, user, rec); }
    }
  }

  lemma {:induction false} IPLogIsOfFailures(cfg: Config, es: seq<Event>, ip: string, rec: AttemptRecord)
    returns (user: string)
    requires rec in IPLog(cfg, es, ip)
    ensures rec.ip == ip && Failure(user, ip, rec.error, rec.time) in es
  {
    var p, e := es[..|es| - 1], es[|es| - 1];
    assert es == p + [e];
    if rec in IPLog(cfg, p, ip) {
      user := IPLogIsOfFailures(cfg, p, ip, rec);
    } else {
      user := e.user;
    }
  }

  // ----- who is locked, and until when -----

  /** Failure i of a log finds the window full. */
  predicate FullAt(log: seq<AttemptRecord>, max: int, window: int, i: nat)
    requires i < |log|
  {
    |Recent(log[..i + 1], window, log[i].time)| >= max
  }

  /** The last failure that found the window full, if any did. */
  predicate LastFull(log: seq<AttemptRecord>, max: int, window: int, i: int) {
    && -1 <= i < |log|
    && (i >= 0 ==> FullAt(log, max, window, i))
    && (forall j :: i < j < |log| ==> !FullAt(log, max, window, j))
  }

  lemma {:induction false} LockIsOfLastFull(lim: Limits, log: seq<AttemptRecord>) returns (i: int)
    ensures LastFull(log, lim.max, lim.window, i)
    ensures LockTime(lim, log) == if i < 0 then 0 else log[i].time + lim.lockout
  {
    if log == [] {
      i := -1;
    } else if Triggers(lim, log) {
      i := |log| - 1;
      assert log[..i + 1] == log;
    } else {
      var p := log[..|log| - 1];
      i := LockIsOfLastFull(lim, p);
      assert log[..|log| - 1 + 1] == log;
      forall j: nat | j < |p| ensures FullAt(log, lim.max, lim.window, j) == FullAt(p, lim.max, lim.window, j) {
        assert p[..j + 1] == log[..j + 1];
      }
    }
  }

  /** An account is refused as locked exactly while the last of its failures since the reset that found MaxAttempts
      in the window is less than LockoutDuration ago, and the time told is the end of that. */
  lemma {:induction false} AccountIsLockedIff(cfg: Config, es: seq<Event>, user: string, ip: string, now: int)
    returns (i: int)
    requires WellTimed(es) && NotAfter(es, now)
    ensures
      var log := UserLog(cfg, es, user);
      var r := Check(cfg, Run(cfg, es), user, ip, now);
      && LastFull(log, cfg.maxAttempts, cfg.window, i)
      && (r.reason == AccountLocked <==>
            i >= 0 && log[i].time + cfg.lockout != 0 && now < log[i].time + cfg.lockout)
      && (r.reason == AccountLocked ==> !r.allowed && r.lockedUntil == log[i].time + cfg.lockout)
      && (UnlockSucceeds(Run(cfg, es).accounts, user, now) <==>
            i >= 0 && log[i].time + cfg.lockout != 0 && now <= log[i].time + cfg.lockout)
  {
    hide Run, UserLog, IPLog, Recent, LockTime, Check, LastFull, UnlockSucceeds;
    i := LockIsOfLastFull(AccountLimits(cfg), UserLog(cfg, es, user));
    IndexOfLastFull(UserLog(cfg, es, user), cfg.maxAttempts, cfg.window, i);
    CheckMatchesHistory(cfg, es, user, ip, now);
    UnlockMatchesHistory(cfg, es, user, ip, now);
  }

  lemma IndexOfLastFull(log: seq<AttemptRecord>, max: int, window: int, i: int)
    requires LastFull(log, max, window, i)
    ensures -1 <= i < |log|
  {
  }

  /** For a login that is neither refused nor delayed for its account: the IP is refused exactly while the last of its
      failures since the reset that found IPMaxAttempts in the window is less than IPLockoutDuration ago. */
  lemma {:induction false} IPIsBlockedIff(cfg: Config, es: seq<Event>, user: string, ip: string, now: int)
    returns (i: int)
    requires WellTimed(es) && NotAfter(es, now)
    ensures
      var log := IPLog(cfg, es, ip);
      var r := Check(cfg, Run(cfg, es), user, ip, now);
      && LastFull(log, cfg.ipMaxAttempts, cfg.window, i)
      && (r.reason != AccountLocked && r.reason != ProgressiveDelay ==>
            (r.reason == IPBlocked <==>
               i >= 0 && log[i].time + cfg.ipLockout != 0 && now < log[i].time + cfg.ipLockout))
      && (r.reason == IPBlocked ==> !r.allowed && r.lockedUntil == log[i].time + cfg.ipLockout)
      && (UnlockSucceeds(Run(cfg, es).ips, ip, now) <==>
            i >= 0 && log[i].time + cfg.ipLockout != 0 && now <= log[i].time + cfg.ipLockout)
  {
    hide Run, UserLog, IPLog, Recent, LockTime, Check, LastFull, UnlockSucceeds;
    i := LockIsOfLastFull(IPLimits(cfg), IPLog(cfg, es, ip));
    IndexOfLastFull(IPLog(cfg, es, ip), cfg.ipMaxAttempts, cfg.window, i);
    CheckMatchesHistory(cfg, es, user, ip, now);
    UnlockMatchesHistory(cfg, es, user, ip, now);
  }

  /** A failure locks the account from MaxAttempts recent ones on, for LockoutDuration, and the IP from IPMaxAttempts
      on, for IPLockoutDuration; below that it leaves their locks as they are. */
  lemma FailureLocks(cfg: Config, es: seq<Event>, user: string, ip: string, error: string, now: int)
    ensures
      var s, t := Run(cfg, es), Run(cfg, es + [Failure(user, ip, error, now)]);
      && user in t.accounts && ip in t.ips
      && t.accounts[user].lockedUntil
           == (if |t.accounts[user].attempts| >= cfg.maxAttempts then now + cfg.lockout
               else if user in s.accounts then s.accounts[user].lockedUntil else 0)
      && t.ips[ip].lockedUntil
           == (if |t.ips[ip].attempts| >= cfg.ipMaxAttempts then now + cfg.ipLockout
               else if ip in s.ips then s.ips[ip].lockedUntil else 0)
  {
    assert (es + [Failure(user, ip, error, now)])[..|es|] == es;
    hide Recent, Run;
  }

  /** Failures of one user from one IP at one moment: from then on the account is refused exactly when there were
      MaxAttempts of them and until LockoutDuration later; another user from that IP exactly when there were
      IPMaxAttempts and until IPLockoutDuration later. */
  lemma {:induction false} RepeatedFailuresLock(cfg: Config, e: Event, n: nat, other: string, now: int)
    requires e.Failure? && 0 < e.now <= now && n >= 1 && cfg.window > 0 && other != e.user
    requires cfg.lockout >= 0 && cfg.ipLockout >= 0
    ensures
      var s := Run(cfg, Repeated(e, n));
      && (Check(cfg, s, e.user, e.ip, now).reason == AccountLocked <==>
            n >= cfg.maxAttempts && now < e.now + cfg.lockout)
      && Check(cfg, s, other, e.ip, now) ==
           (if n >= cfg.ipMaxAttempts && now < e.now + cfg.ipLockout
            then CheckResult(false, IPBlocked, 0, n, e.now + cfg.ipLockout) else CheckResult(true, NoReason, 0, 0, 0))
  {
    var es, rec := Repeated(e, n), AttemptRecord(e.now, e.ip, e.error);
    RepeatedTimed(e, n);
    RepeatedLogs(cfg, e, n, e.user, e.ip);
    RepeatedLogs(cfg, e, n, other, e.ip);
    CopiesLock(AccountLimits(cfg), rec, n);
    CopiesLock(IPLimits(cfg), rec, n);
    CheckMatchesHistory(cfg, es, e.user, e.ip, now);
    CheckMatchesHistory(cfg, es, other, e.ip, now);
    LogOfNobody(cfg, now);
    RepeatedAttempts(cfg, e, n);
    hide Run, UserLog, IPLog, Recent, LockTime, Repeated, Copies, CalculateDelay, ReferenceCheck;
    RefusalReports(cfg, Run(cfg, es), other, e.ip, now);
    ReferenceIs(cfg, es, e.user, e.ip, now);
    ReferenceIs(cfg, es, other, e.ip, now);
  }

  lemma LogOfNobody(cfg: Config, now: int)
    ensures Recent([], cfg.window, now) == [] && LockTime(AccountLimits(cfg), []) == 0 && CalculateDelay(cfg, 0) == 0
  {
  }

  lemma ReferenceIs(cfg: Config, es: seq<Event>, user: string, ip: string, now: int)
    ensures
      var r := ReferenceCheck(cfg, es, user, ip, now);
      var lock := LockTime(AccountLimits(cfg), UserLog(cfg, es, user));
      var ipLock := LockTime(IPLimits(cfg), IPLog(cfg, es, ip));
      && (r.reason == AccountLocked <==> Locked(lock, now))
      && (!Locked(lock, now) && CalculateDelay(cfg, |Recent(UserLog(cfg, es, user), cfg.window, now)|) <= 0 ==>
            r == if Locked(ipLock, now) then CheckResult(false, IPBlocked, 0, 0, ipLock)
                 else CheckResult(true, NoReason, 0, 0, 0))
  {
  }

  // ----- what a refusal reports -----

  /** When the user's list was pruned last: at a failure of the user or a cleanup. */
  function UserPrunedAt(es: seq<Event>, user: string): int {
    if es == [] then 0
    else
      var e := es[|es| - 1];
      if e.Sweep? || (e.Failure? && e.user == user) then e.now else UserPrunedAt(es[..|es| - 1], user)
  }

  function IPPrunedAt(es: seq<Event>, ip: string): int {
    if es == [] then 0
    else
      var e := es[|es| - 1];
      if e.Sweep? || (e.Failure? && e.ip == ip) then e.now else IPPrunedAt(es[..|es| - 1], ip)
  }

  lemma {:induction false} PrunedBefore(es: seq<Event>, user: string, ip: string, now: int)
    requires WellTimed(es) && NotAfter(es, now)
    ensures UserPrunedAt(es, user) <= now && IPPrunedAt(es, ip) <= now
  {
    if es == [] {
    } else {
      PrunedBefore(es[..|es| - 1], user, ip, es[|es| - 1].now);
    }
  }

  /** An entry holds its log as it was pruned last. */
  predicate HoldsPruned(lim: Limits, slot: Option<Account>, log: seq<AttemptRecord>, at: int) {
    slot.Some? ==> slot.value.attempts == Recent(log, lim.window, at)
  }

  lemma PrunedStep(lim: Limits, slot: Option<Account>, log: seq<AttemptRecord>, at: int, e: KeyEvent)
    requires HoldsPruned(lim, slot, log, at) && StandsFor(lim, slot, log, KeyTime(e)) && at <= KeyTime(e)
    ensures HoldsPruned(lim, SlotStep(lim, slot, e), LogStep(lim, log, e),
                        if e.Failed? || e.Swept? then KeyTime(e) else at)
  {
    match e
    case Failed(rec) =>
      if slot.None? { RecentOfLogOnly(lim, log, rec); }
      FailureKeepsStanding(lim, slot.GetOr(FRESH_ACCOUNT), log, rec);
    case Swept(now) => RecentTwice(log, lim.window, at, now);
    case _ =>
  }

  lemma RecentOfLogOnly(lim: Limits, log: seq<AttemptRecord>, rec: AttemptRecord)
    ensures Recent(FRESH_ACCOUNT.attempts, lim.window, rec.time) == []
  {
  }

  lemma {:induction false} ListsAreAsPruned(cfg: Config, es: seq<Event>, user: string, ip: string, now: int)
    requires WellTimed(es) && NotAfter(es, now)
    ensures HoldsPruned(AccountLimits(cfg), Lookup(Run(cfg, es).accounts, user), UserLog(cfg, es, user),
                        UserPrunedAt(es, user))
    ensures HoldsPruned(IPLimits(cfg), Lookup(Run(cfg, es).ips, ip), IPLog(cfg, es, ip), IPPrunedAt(es, ip))
  {
    hide Step, HoldsPruned, StandsFor, SlotStep, LogStep;
    if es == [] {
      NothingHeld(AccountLimits(cfg));
      NothingHeld(IPLimits(cfg));
    } else {
      var p, e := es[..|es| - 1], es[|es| - 1];
      ListsAreAsPruned(cfg, p, user, ip, e.now);
      RunStandsFor(cfg, p, user, ip, e.now);
      PrunedBefore(p, user, ip, e.now);
      AccountOfStep(cfg, Run(cfg, p), e, user);
      IPOfStep(cfg, Run(cfg, p), e, ip);
      PrunedStep(AccountLimits(cfg), Lookup(Run(cfg, p).accounts, user), UserLog(cfg, p, user), UserPrunedAt(p, user),
                 ForUser(user, e));
      PrunedStep(IPLimits(cfg), Lookup(Run(cfg, p).ips, ip), IPLog(cfg, p, ip), IPPrunedAt(p, ip), ForIP(ip, e));
    }
  }

  lemma NothingHeld(lim: Limits)
    ensures HoldsPruned(lim, None, [], 0)
  {
  }

  lemma RefusalReports(cfg: Config, s: State, user: string, ip: string, now: int)
    ensures
      var r := Check(cfg, s, user, ip, now);
      && (r.reason == AccountLocked ==> user in s.accounts && r.attempts == |s.accounts[user].attempts|)
      && (r.reason == IPBlocked ==> ip in s.ips && r.attempts == |s.ips[ip].attempts| && r.delay == 0)
  {
  }

  /** The number of attempts a refusal reports is that of the failures recent when the list was pruned last. */
  lemma {:induction false} RefusalsReportThePrunedList(cfg: Config, es: seq<Event>, user: string, ip: string, now: int)
    requires WellTimed(es) && NotAfter(es, now)
    ensures
      var r := Check(cfg, Run(cfg, es), user, ip, now);
      && (r.reason == AccountLocked ==>
            r.delay == 0 && r.attempts == |Recent(UserLog(cfg, es, user), cfg.window, UserPrunedAt(es, user))|)
      && (r.reason == IPBlocked ==>
            r.delay == 0 && r.attempts == |Recent(IPLog(cfg, es, ip), cfg.window, IPPrunedAt(es, ip))|)
  {
    ListsAreAsPruned(cfg, es, user, ip, now);
    RefusalReports(cfg, Run(cfg, es), user, ip, now);
    hide Run, UserLog, IPLog, Recent;
  }

  lemma RepeatedAttempts(cfg: Config, e: Event, n: nat)
    requires e.Failure? && e.now > 0 && n >= 1 && cfg.window > 0
    ensures e.ip in Run(cfg, Repeated(e, n)).ips && |Run(cfg, Repeated(e, n)).ips[e.ip].attempts| == n
  {
    var p := Repeated(e, n - 1);
    RepeatedTimed(e, n);
    RepeatedLogs(cfg, e, n, e.user, e.ip);
    CopiesRecent(AttemptRecord(e.now, e.ip, e.error), n, cfg.window, e.now);
    assert e == Failure(e.user, e.ip, e.error, e.now);
    FailureLeavesTheWindow(cfg, p, e.user, e.ip, e.error, e.now);
  }

  // ----- what is forgotten, and what is never told -----

  lemma SweepForgets(cfg: Config, s: State, now: int, user: string, ip: string)
    ensures
      var t := Step(cfg, s, Sweep(now));
      && (user in t.accounts <==>
            user in s.accounts && (Recent(s.accounts[user].attempts, cfg.window, now) != []
                                   || (s.accounts[user].lockedUntil != 0 && now <= s.accounts[user].lockedUntil)))
      && (ip in t.ips <==>
            ip in s.ips && (Recent(s.ips[ip].attempts, cfg.window, now) != []
                            || (s.ips[ip].lockedUntil != 0 && now <= s.ips[ip].lockedUntil)))
  {
    hide Recent;
  }

  /** A cleanup forgets exactly the entries without a recent failure whose lock, if any, has passed. */
  lemma {:induction false} CleanupForgets(cfg: Config, es: seq<Event>, now: int, user: string, ip: string)
    ensures
      var s, t := Run(cfg, es), Run(cfg, es + [Sweep(now)]);
      && (user in t.accounts <==>
            user in s.accounts && (Recent(s.accounts[user].attempts, cfg.window, now) != []
                                   || (s.accounts[user].lockedUntil != 0 && now <= s.accounts[user].lockedUntil)))
      && (ip in t.ips <==>
            ip in s.ips && (Recent(s.ips[ip].attempts, cfg.window, now) != []
                            || (s.ips[ip].lockedUntil != 0 && now <= s.ips[ip].lockedUntil)))
  {
    hide Step, Recent;
    SweepForgets(cfg, Run(cfg, es), now, user, ip);
    RunSnoc(cfg, es, Sweep(now), user);
  }

  /** Without progressive delays no login is ever told one. */
  lemma NoDelayUnlessProgressive(cfg: Config, s: State, user: string, ip: string, now: int)
    requires !cfg.progressive
    ensures var r := Check(cfg, s, user, ip, now); r.reason != ProgressiveDelay && r.delay == 0
  {
    hide Recent;
  }
}
